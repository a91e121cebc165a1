/**
 The channel access manager as a state machine: every notification of the PHY, of the MAC
 and of the transmit opportunities is one step at a given time.
 */
module DcfSteps {
  import opened DcfTiming

  datatype Timer = Off | At(expiry: int)

  datatype Manager = Manager(medium: Medium, dcfs: seq<Dcf>, sleeping: bool, timer: Timer)

  /** The parts no step changes: how many states there are, the slot time and the interframe space. */
  ghost predicate SameSetting(g: Manager, g': Manager) {
    |g'.dcfs| == |g.dcfs| && g'.medium.slotUs == g.medium.slotUs && g'.medium.sifs == g.medium.sifs
  }

  // ---------------------------------------------------------------------------
  // Backoffs.

  /** UpdateBackoff: every state counts the slots that have passed. */
  ghost function UpdateAll(g: Manager, now: int): (g': Manager)
    requires Configured(g.medium)
    ensures g'.medium == g.medium && g'.sleeping == g.sleeping && g'.timer == g.timer && |g'.dcfs| == |g.dcfs|
    ensures forall i :: 0 <= i < |g.dcfs| ==> g'.dcfs[i] == Updated(g.medium, g.dcfs[i], now)
  {
    g.(dcfs := seq(|g.dcfs|, i requires 0 <= i < |g.dcfs| => Updated(g.medium, g.dcfs[i], now)))
  }

  /** StartBackoffNow: a new backoff of `n` slots begins. The source asserts that none is left. */
  ghost function Started(d: Dcf, n: nat, now: int): Dcf {
    d.(slots := n, start := now, log := Log(n, now, []))
  }

  /** Dropping the remaining slots, as channel switching and wake-up do. */
  ghost function Dropped(d: Dcf, now: int): Dcf {
    var e := d.(cw := d.cwMin, requested := false);
    if d.slots > 0 then e.(slots := 0, start := now, log := Log(0, now, [])) else e
  }

  // ---------------------------------------------------------------------------
  // The medium.

  predicate IsBusy(m: Medium, now: int) {
    m.rxing || m.txStart + m.txDuration > now || m.navStart + m.navDuration > now
  }

  /** Transmission or switching cuts a reception short. */
  ghost function RxCut(m: Medium, now: int): (m': Medium)
    ensures m'.slotUs == m.slotUs && m'.sifs == m.sifs
  {
    if m.rxing then m.(rxEnd := now, rxDuration := now - m.rxStart, rxReceivedOk := true, rxing := false) else m
  }

  ghost function TxStarted(g: Manager, now: int, duration: int): (g': Manager)
    requires Configured(g.medium)
    ensures SameSetting(g, g')
  {
    var g1 := UpdateAll(g.(medium := RxCut(g.medium, now)), now);
    g1.(medium := g1.medium.(txStart := now, txDuration := duration))
  }

  ghost function NavStarted(m: Medium, now: int, duration: int): (m': Medium)
    ensures m'.slotUs == m.slotUs && m'.sifs == m.sifs
  {
    if now + duration > m.navStart + m.navDuration then m.(navStart := now, navDuration := duration) else m
  }

  ghost function Switched(m: Medium, now: int, duration: int): (m': Medium)
    ensures m'.slotUs == m.slotUs && m'.sifs == m.sifs
  {
    var a := RxCut(m, now);
    var b := if a.navStart + a.navDuration > now then a.(navDuration := now - a.navStart) else a;
    var c := if b.busyStart + b.busyDuration > now then b.(busyDuration := now - b.busyStart) else b;
    c.(ackTimeoutEnd := if c.ackTimeoutEnd > now then now else c.ackTimeoutEnd,
       ctsTimeoutEnd := if c.ctsTimeoutEnd > now then now else c.ctsTimeoutEnd,
       switchingStart := now, switchingDuration := duration)
  }

  // ---------------------------------------------------------------------------
  // Granting access.

  /** What follows an answered transmission. */
  datatype Reply = NoReply | AwaitAck(timeout: int) | AwaitCts(timeout: int)

  /** What a transmit opportunity does when granted: nothing, if its queue is empty, or a transmission. */
  datatype Transmission = Idle | Transmit(duration: int, reply: Reply)

  predicate Eligible(m: Medium, d: Dcf, now: int) {
    d.requested && BackoffEnd(m, d) <= now
  }

  /** The first eligible state from `from` on, or the number of states. */
  ghost function FirstEligible(g: Manager, now: int, from: nat): (i: nat)
    requires from <= |g.dcfs|
    ensures from <= i <= |g.dcfs|
    ensures i < |g.dcfs| ==> Eligible(g.medium, g.dcfs[i], now)
    ensures forall k :: from <= k < i ==> !Eligible(g.medium, g.dcfs[k], now)
    decreases |g.dcfs| - from
  {
    if from == |g.dcfs| || Eligible(g.medium, g.dcfs[from], now) then from else FirstEligible(g, now, from + 1)
  }

  ghost function ReplyAwaited(m: Medium, now: int, reply: Reply): Medium {
    match reply
    case NoReply => m
    case AwaitAck(timeout) => m.(ackTimeoutEnd := now + timeout)
    case AwaitCts(timeout) => m.(ctsTimeoutEnd := now + timeout)
  }

  ghost function Transmitted(g: Manager, now: int, tx: Transmission): (g': Manager)
    requires Configured(g.medium)
    ensures SameSetting(g, g')
  {
    match tx
    case Idle => g
    case Transmit(duration, reply) => TxStarted(g.(medium := ReplyAwaited(g.medium, now, reply)), now, duration)
  }

  /** The states after `i` that were eligible get an internal collision and draw a new backoff. */
  ghost function Collided(before: Manager, after: Manager, now: int, i: nat, draws: seq<nat>): (g: Manager)
    requires |after.dcfs| == |before.dcfs| == |draws|
    ensures g.medium == after.medium && g.sleeping == after.sleeping && g.timer == after.timer &&
              |g.dcfs| == |after.dcfs|
    ensures forall k :: 0 <= k < |g.dcfs| ==>
              g.dcfs[k] ==
                if i < k && Eligible(before.medium, before.dcfs[k], now) then Started(after.dcfs[k], draws[k], now)
                else after.dcfs[k]
  {
    after.(dcfs := seq(|after.dcfs|, k requires 0 <= k < |after.dcfs| =>
      if i < k && Eligible(before.medium, before.dcfs[k], now) then Started(after.dcfs[k], draws[k], now)
      else after.dcfs[k]))
  }

  ghost function Granted(g: Manager, i: nat): Manager
    requires i < |g.dcfs|
  {
    g.(dcfs := g.dcfs[i := g.dcfs[i].(requested := false)])
  }

  /** DoGrantAccess: the first eligible state is granted, all later eligible ones collide with it. */
  ghost function GrantPass(g: Manager, now: int, tx: Transmission, draws: seq<nat>): (g': Manager)
    requires Configured(g.medium) && |draws| == |g.dcfs|
    ensures SameSetting(g, g')
  {
    var i := FirstEligible(g, now, 0);
    if i == |g.dcfs| then g
    else Collided(g, Transmitted(Granted(g, i), now, tx), now, i, draws)
  }

  // ---------------------------------------------------------------------------
  // The access timer.

  datatype Earliest = Never | Soonest(end: int)

  /** The earliest backoff end still ahead among the first `n` requesting states. */
  ghost function EarliestEnd(g: Manager, now: int, n: nat): (e: Earliest)
    requires n <= |g.dcfs|
    ensures e.Soonest? ==> now < e.end
    ensures forall i :: 0 <= i < n && g.dcfs[i].requested && now < BackoffEnd(g.medium, g.dcfs[i]) ==>
              e.Soonest? && e.end <= BackoffEnd(g.medium, g.dcfs[i])
  {
    if n == 0 then Never
    else
      var e := EarliestEnd(g, now, n - 1);
      var end := BackoffEnd(g.medium, g.dcfs[n - 1]);
      if g.dcfs[n - 1].requested && now < end && (e.Never? || end < e.end) then Soonest(end) else e
  }

  /** DoRestartAccessTimeoutIfNeeded: a timer that is off or too late is set to the earliest end. */
  ghost function Restart(g: Manager, now: int): (g': Manager)
    ensures g'.dcfs == g.dcfs && g'.medium == g.medium && g'.sleeping == g.sleeping
  {
    var e := EarliestEnd(g, now, |g.dcfs|);
    if e.Soonest? && (g.timer.Off? || g.timer.expiry > e.end) then g.(timer := At(e.end)) else g
  }

  // ---------------------------------------------------------------------------
  // Steps.

  datatype Event =
    | RequestAccess(i: nat, draw: nat, tx: Transmission, draws: seq<nat>)
    | AccessTimeout(tx: Transmission, draws: seq<nat>)
    | BeginBackoff(i: nat, n: nat)
    | RxStart(duration: int)
    | RxEndOk
    | RxEndError
    | TxStart(duration: int)
    | CcaBusy(duration: int)
    | Switching(duration: int)
    | Sleep
    | Wakeup
    | NavReset(duration: int)
    | NavStart(duration: int)
    | AckTimeoutStart(duration: int)
    | AckTimeoutReset
    | CtsTimeoutStart(duration: int)
    | CtsTimeoutReset

  /** What must hold for an event to make sense: its indices, and the assertions of the source. */
  predicate Admissible(g: Manager, now: int, ev: Event) {
    match ev
    case RequestAccess(i, draw, tx, draws) => i < |g.dcfs| == |draws| && !g.dcfs[i].requested
    case AccessTimeout(tx, draws) => |draws| == |g.dcfs| && g.timer == At(now)
    case BeginBackoff(i, n) => i < |g.dcfs| && g.dcfs[i].slots == 0
    case TxStart(duration) => g.medium.rxing ==> now - g.medium.rxStart <= g.medium.sifs
    case Switching(duration) =>
      g.medium.txStart + g.medium.txDuration <= now && g.medium.switchingStart + g.medium.switchingDuration <= now
    case NavStart(duration) => g.medium.navStart <= now
    case AckTimeoutStart(duration) => g.medium.ackTimeoutEnd < now
    case _ => true
  }

  /** RequestAccess, up to the point where grants are considered. */
  ghost function Requested(g: Manager, now: int, i: nat, draw: nat): (g': Manager)
    requires Configured(g.medium) && i < |g.dcfs|
    ensures g'.medium == g.medium && |g'.dcfs| == |g.dcfs| && g'.sleeping == g.sleeping && g'.timer == g.timer
  {
    var g1 := UpdateAll(g, now);
    var d := g1.dcfs[i].(requested := true);
    g1.(dcfs := g1.dcfs[i := if d.slots == 0 && IsBusy(g.medium, now) then Started(d, draw, now) else d])
  }

  ghost function AfterRequest(g: Manager, now: int, i: nat, draw: nat, tx: Transmission, draws: seq<nat>): (g': Manager)
    requires Configured(g.medium) && i < |g.dcfs| == |draws|
    ensures SameSetting(g, g')
  {
    if g.sleeping then g else Restart(GrantPass(Requested(g, now, i, draw), now, tx, draws), now)
  }

  ghost function AfterTimeout(g: Manager, now: int, tx: Transmission, draws: seq<nat>): (g': Manager)
    requires Configured(g.medium) && |g.dcfs| == |draws|
    ensures SameSetting(g, g')
  {
    Restart(GrantPass(UpdateAll(g.(timer := Off), now), now, tx, draws), now)
  }

  ghost function AfterNavReset(g: Manager, now: int, duration: int): (g': Manager)
    requires Configured(g.medium)
    ensures SameSetting(g, g')
  {
    Restart(UpdateAll(UpdateAll(g, now).(medium := g.medium.(navStart := now, navDuration := duration)), now), now)
  }

  ghost function Step(g: Manager, now: int, ev: Event): (g': Manager)
    requires Configured(g.medium) && Admissible(g, now, ev)
    ensures SameSetting(g, g')
  {
    var m := g.medium;
    match ev
    case RequestAccess(i, draw, tx, draws) => AfterRequest(g, now, i, draw, tx, draws)
    case AccessTimeout(tx, draws) => AfterTimeout(g, now, tx, draws)
    case BeginBackoff(i, n) => g.(dcfs := g.dcfs[i := Started(g.dcfs[i], n, now)])
    case RxStart(duration) => UpdateAll(g, now).(medium := m.(rxStart := now, rxDuration := duration, rxing := true))
    case RxEndOk => g.(medium := m.(rxEnd := now, rxReceivedOk := true, rxing := false))
    case RxEndError => g.(medium := m.(rxEnd := now, rxReceivedOk := false, rxing := false))
    case TxStart(duration) => TxStarted(g, now, duration)
    case CcaBusy(duration) => UpdateAll(g, now).(medium := m.(busyStart := now, busyDuration := duration))
    case Switching(duration) => DroppedAll(g, now).(medium := Switched(m, now, duration), timer := Off)
    case Sleep => g.(sleeping := true, timer := Off)
    case Wakeup => DroppedAll(g, now).(sleeping := false)
    case NavReset(duration) => AfterNavReset(g, now, duration)
    case NavStart(duration) => UpdateAll(g, now).(medium := NavStarted(m, now, duration))
    case AckTimeoutStart(duration) => g.(medium := m.(ackTimeoutEnd := now + duration))
    case AckTimeoutReset => Restart(g.(medium := m.(ackTimeoutEnd := now)), now)
    case CtsTimeoutStart(duration) => g.(medium := m.(ctsTimeoutEnd := now + duration))
    case CtsTimeoutReset => Restart(g.(medium := m.(ctsTimeoutEnd := now)), now)
  }

  ghost function DroppedAll(g: Manager, now: int): (g': Manager)
    ensures g'.medium == g.medium && g'.sleeping == g.sleeping && g'.timer == g.timer && |g'.dcfs| == |g.dcfs|
    ensures forall i :: 0 <= i < |g.dcfs| ==> g'.dcfs[i] == Dropped(g.dcfs[i], now)
  {
    g.(dcfs := seq(|g.dcfs|, i requires 0 <= i < |g.dcfs| => Dropped(g.dcfs[i], now)))
  }
}
