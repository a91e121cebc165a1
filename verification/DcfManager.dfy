/** The channel access manager and its states as objects: each method performs one step. */
module DcfManager {
  import opened Numbers
  import opened DcfTiming
  import opened DcfSteps
  import opened DcfRuns
  import opened DcfTimer

  // ---------------------------------------------------------------------------
  // The contention window.

  function FailedCw(cw: nat, cwMax: nat): nat {
    if 2 * (cw + 1) - 1 < cwMax then 2 * (cw + 1) - 1 else cwMax
  }

  ghost function FailedTimes(cw: nat, cwMax: nat, k: nat): nat {
    if k == 0 then cw else FailedCw(FailedTimes(cw, cwMax, k - 1), cwMax)
  }

  ghost function Doubled(x: nat, k: nat): nat {
    if k == 0 then x else 2 * Doubled(x, k - 1)
  }

  /** After `k` failures the window is 2^k times the smallest one, up to the largest, however the two are set. */
  lemma {:induction false} WindowDoubles(cwMin: nat, cwMax: nat, k: nat)
    requires k == 0 ==> cwMin <= cwMax
    ensures FailedTimes(cwMin, cwMax, k) + 1 ==
              if Doubled(cwMin + 1, k) < cwMax + 1 then Doubled(cwMin + 1, k) else cwMax + 1
  {
    if k == 1 {
      assert FailedTimes(cwMin, cwMax, 0) == cwMin;
      assert Doubled(cwMin + 1, 0) == cwMin + 1;
    } else if k > 1 {
      WindowDoubles(cwMin, cwMax, k - 1);
    }
  }

  // ---------------------------------------------------------------------------

  class DcfState {
    var aifsn: nat
    var backoffSlots: nat
    var backoffStart: int
    var cwMin: nat
    var cwMax: nat
    var cw: nat
    var accessRequested: bool
    ghost var log: Log

    ghost function Value(): Dcf
      reads this
    {
      Dcf(aifsn, backoffSlots, backoffStart, cwMin, cwMax, cw, accessRequested, log)
    }

    constructor ()
      ensures Value() == Dcf(0, 0, 0, 0, 0, 0, false, Log(0, 0, []))
    {
      aifsn, backoffSlots, backoffStart := 0, 0, 0;
      cwMin, cwMax, cw, accessRequested := 0, 0, 0, false;
      log := Log(0, 0, []);
    }

    method SetAifsn(n: nat)
      modifies this
      ensures Value() == old(Value()).(aifsn := n)
    {
      aifsn := n;
    }

    method SetCwMin(minCw: nat)
      modifies this
      ensures Value() == old(Value()).(cwMin := minCw, cw := minCw)
    {
      cwMin := minCw;
      ResetCw();
    }

    method SetCwMax(maxCw: nat)
      modifies this
      ensures Value() == old(Value()).(cwMax := maxCw, cw := cwMin)
    {
      cwMax := maxCw;
      ResetCw();
    }

    method ResetCw()
      modifies this`cw
      ensures Value() == old(Value()).(cw := cwMin)
    {
      cw := cwMin;
    }

    method UpdateFailedCw()
      modifies this`cw
      ensures Value() == old(Value()).(cw := FailedCw(old(cw), cwMax))
    {
      cw := if 2 * (cw + 1) - 1 < cwMax then 2 * (cw + 1) - 1 else cwMax;
    }

    /** Takes `n` slots off; the slots taken are added to the log. */
    method UpdateBackoffSlotsNow(n: nat, bound: int, ghost more: seq<Slot>)
      requires n <= backoffSlots
      modifies this
      ensures Value() == old(Value()).(
                slots := old(backoffSlots) - n, start := bound,
                log := old(log).(counted := old(log).counted + more))
    {
      backoffSlots := backoffSlots - n;
      backoffStart := bound;
      log := log.(counted := log.counted + more);
    }

    method StartBackoffNow(n: nat, now: int)
      requires backoffSlots == 0
      modifies this
      ensures Value() == Started(old(Value()), n, now)
    {
      backoffSlots := n;
      backoffStart := now;
      log := Log(n, now, []);
    }

    method NotifyAccessRequested()
      modifies this`accessRequested
      ensures Value() == old(Value()).(requested := true)
    {
      accessRequested := true;
    }

    method NotifyAccessGranted()
      requires accessRequested
      modifies this`accessRequested
      ensures Value() == old(Value()).(requested := false)
    {
      accessRequested := false;
    }

    /** What channel switching and wake-up do to a state. */
    method Drop(now: int)
      modifies this
      ensures Value() == Dropped(old(Value()), now)
    {
      var remaining := backoffSlots;
      if remaining > 0 {
        UpdateBackoffSlotsNow(remaining, now, []);
        assert backoffSlots == 0;
        log := Log(0, now, []);
      }
      ResetCw();
      accessRequested := false;
    }
  }

  class DcfManager {
    var medium: Medium
    var states: seq<DcfState>
    var sleeping: bool
    var timer: Timer

    ghost predicate Valid()
      reads this
    {
      Configured(medium) && forall i, j :: 0 <= i < j < |states| ==> states[i] != states[j]
    }

    ghost function Values(): (l: seq<Dcf>)
      reads this`states, states
      ensures |l| == |states| && forall i :: 0 <= i < |states| ==> l[i] == states[i].Value()
    {
      var s := states;
      seq(|s|, i requires 0 <= i < |s| reads s => s[i].Value())
    }

    ghost function Value(): Manager
      reads this, states
    {
      Manager(medium, Values(), sleeping, timer)
    }

    /** The manager before any state is added, with its slot time and interframe spaces set. */
    constructor (slotUs: nat, sifs: int, eifsNoDifs: int)
      requires 0 < slotUs < WRAP
      ensures Valid() && states == [] && !sleeping && timer == Off
      ensures medium == Medium(slotUs, sifs, eifsNoDifs, 0, 0, 0, 0, 0, 0, true, 0, false, 0, 0, 0, 0, 0, 0)
      ensures Logged(Value(), 0) && Armed(Value())
    {
      medium := Medium(slotUs, sifs, eifsNoDifs, 0, 0, 0, 0, 0, 0, true, 0, false, 0, 0, 0, 0, 0, 0);
      states, sleeping, timer := [], false, Off;
    }

    /** Later methods assume that no state was added twice. */
    method Add(state: DcfState)
      modifies this`states
      ensures states == old(states) + [state] && medium == old(medium)
      ensures old(Valid()) && state !in old(states) ==> Valid()
      ensures Value() == old(Value()).(dcfs := old(Values()) + [old(state.Value())])
    {
      states := states + [state];
    }

    method UpdateBackoff(now: int)
      requires Valid()
      modifies states
      ensures Valid() && Value() == UpdateAll(old(Value()), now)
    {
      hide Updated, SlotTimes, GrantStart;
      ghost var before := Value();
      for k := 0 to |states|
        invariant Valid()
        invariant forall i :: 0 <= i < k ==> states[i].Value() == Updated(medium, before.dcfs[i], now)
        invariant forall i :: k <= i < |states| ==> states[i].Value() == before.dcfs[i]
      {
        UpdateOne(states[k], now);
      }
      assert Values() == UpdateAll(before, now).dcfs;
    }

    /** One pass of the loop over the states. */
    method UpdateOne(state: DcfState, now: int)
      requires Configured(medium) && state in states
      modifies state
      ensures state.Value() == Updated(medium, old(state.Value()), now)
    {
      hide SlotTimes, GrantStart;
      ghost var d := state.Value();
      var from := Max(state.backoffStart, GrantStart(medium) + SlotTimes(medium, state.aifsn));
      assert from == BackoffStart(medium, d);
      if from <= now {
        var us := Elapsed(from, now) % WRAP;
        var whole := WholeIn(us, medium.slotUs);
        var n := if whole < state.backoffSlots then whole else state.backoffSlots;
        assert n == Counted(medium, d, now);
        state.UpdateBackoffSlotsNow(n, from + SlotTimes(medium, n), SlotsFrom(medium, from, Floor(medium, d), n));
      }
    }

    /** Replaces the medium; the states keep their values. */
    method SetMedium(m: Medium)
      requires Valid() && Configured(m)
      modifies this`medium
      ensures Valid() && Value() == old(Value()).(medium := m)
    {
      medium := m;
      assert Values() == old(Values());
    }

    // -------------------------------------------------------------------------
    // Notifications of the medium.

    method NotifyRxStartNow(now: int, duration: int)
      requires Valid()
      modifies this`medium, states
      ensures Valid() && Value() == Step(old(Value()), now, RxStart(duration))
    {
      UpdateBackoff(now);
      SetMedium(medium.(rxStart := now, rxDuration := duration, rxing := true));
    }

    method NotifyRxEndOkNow(now: int)
      requires Valid()
      modifies this`medium
      ensures Valid() && Value() == Step(old(Value()), now, RxEndOk)
    {
      SetMedium(medium.(rxEnd := now, rxReceivedOk := true, rxing := false));
    }

    method NotifyRxEndErrorNow(now: int)
      requires Valid()
      modifies this`medium
      ensures Valid() && Value() == Step(old(Value()), now, RxEndError)
    {
      SetMedium(medium.(rxEnd := now, rxReceivedOk := false, rxing := false));
    }

    method NotifyTxStartNow(now: int, duration: int)
      requires Valid() && (medium.rxing ==> now - medium.rxStart <= medium.sifs)
      modifies this`medium, states
      ensures Valid() && Value() == TxStarted(old(Value()), now, duration)
    {
      if medium.rxing {
        SetMedium(medium.(rxEnd := now, rxDuration := now - medium.rxStart, rxReceivedOk := true, rxing := false));
      }
      UpdateBackoff(now);
      SetMedium(medium.(txStart := now, txDuration := duration));
    }

    method NotifyMaybeCcaBusyStartNow(now: int, duration: int)
      requires Valid()
      modifies this`medium, states
      ensures Valid() && Value() == Step(old(Value()), now, CcaBusy(duration))
    {
      UpdateBackoff(now);
      SetMedium(medium.(busyStart := now, busyDuration := duration));
    }

    method NotifyNavStartNow(now: int, duration: int)
      requires Valid() && medium.navStart <= now
      modifies this`medium, states
      ensures Valid() && Value() == Step(old(Value()), now, NavStart(duration))
    {
      UpdateBackoff(now);
      var newNavEnd := now + duration;
      var lastNavEnd := medium.navStart + medium.navDuration;
      if newNavEnd > lastNavEnd {
        SetMedium(medium.(navStart := now, navDuration := duration));
      }
    }

    method NotifyAckTimeoutStartNow(now: int, duration: int)
      requires Valid() && medium.ackTimeoutEnd < now
      modifies this`medium
      ensures Valid() && Value() == Step(old(Value()), now, AckTimeoutStart(duration))
    {
      SetMedium(medium.(ackTimeoutEnd := now + duration));
    }

    method NotifyCtsTimeoutStartNow(now: int, duration: int)
      requires Valid()
      modifies this`medium
      ensures Valid() && Value() == Step(old(Value()), now, CtsTimeoutStart(duration))
    {
      SetMedium(medium.(ctsTimeoutEnd := now + duration));
    }

    method NotifyNavResetNow(now: int, duration: int)
      requires Valid()
      modifies this`medium, this`timer, states
      ensures Valid() && Value() == Step(old(Value()), now, NavReset(duration))
    {
      hide UpdateAll, Restart;
      UpdateBackoff(now);
      SetMedium(medium.(navStart := now, navDuration := duration));
      UpdateBackoff(now);
      DoRestartAccessTimeoutIfNeeded(now);
    }

    method NotifyAckTimeoutResetNow(now: int)
      requires Valid()
      modifies this`medium, this`timer
      ensures Valid() && Value() == Step(old(Value()), now, AckTimeoutReset)
    {
      hide Restart;
      SetMedium(medium.(ackTimeoutEnd := now));
      DoRestartAccessTimeoutIfNeeded(now);
    }

    method NotifyCtsTimeoutResetNow(now: int)
      requires Valid()
      modifies this`medium, this`timer
      ensures Valid() && Value() == Step(old(Value()), now, CtsTimeoutReset)
    {
      hide Restart;
      SetMedium(medium.(ctsTimeoutEnd := now));
      DoRestartAccessTimeoutIfNeeded(now);
    }

    method DropAll(now: int)
      requires Valid()
      modifies states
      ensures Valid() && Value() == DroppedAll(old(Value()), now)
    {
      hide Dropped;
      ghost var before := Value();
      for k := 0 to |states|
        invariant Valid()
        invariant forall i :: 0 <= i < k ==> states[i].Value() == Dropped(before.dcfs[i], now)
        invariant forall i :: k <= i < |states| ==> states[i].Value() == before.dcfs[i]
      {
        states[k].Drop(now);
      }
      assert Values() == DroppedAll(before, now).dcfs;
    }

    method NotifySwitchingStartNow(now: int, duration: int)
      requires Valid() && Admissible(Value(), now, Switching(duration))
      modifies this`medium, this`timer, states
      ensures Valid() && Value() == Step(old(Value()), now, Switching(duration))
    {
      hide Switched;
      var m := CutShort(now, duration);
      timer := Off;
      DropAll(now);
      SetMedium(m);
    }

    /** Channel switching ends whatever kept the medium busy. */
    method CutShort(now: int, duration: int) returns (m: Medium)
      ensures m == Switched(medium, now, duration)
    {
      m := medium;
      if m.rxing {
        m := m.(rxEnd := now, rxDuration := now - m.rxStart, rxReceivedOk := true, rxing := false);
      }
      if m.navStart + m.navDuration > now {
        m := m.(navDuration := now - m.navStart);
      }
      if m.busyStart + m.busyDuration > now {
        m := m.(busyDuration := now - m.busyStart);
      }
      if m.ackTimeoutEnd > now {
        m := m.(ackTimeoutEnd := now);
      }
      if m.ctsTimeoutEnd > now {
        m := m.(ctsTimeoutEnd := now);
      }
      m := m.(switchingStart := now, switchingDuration := duration);
    }

    method NotifySleepNow(now: int)
      requires Valid()
      modifies this`sleeping, this`timer
      ensures Valid() && Value() == Step(old(Value()), now, Sleep)
    {
      sleeping := true;
      timer := Off;
      assert Values() == old(Values());
    }

    method NotifyWakeupNow(now: int)
      requires Valid()
      modifies this`sleeping, states
      ensures Valid() && Value() == Step(old(Value()), now, Wakeup)
    {
      sleeping := false;
      DropAll(now);
    }

    // -------------------------------------------------------------------------
    // The timer.

    /** The earliest backoff end ahead, over the requesting states. */
    method ExpectedBackoffEnd(now: int) returns (expected: Earliest)
      requires Valid()
      ensures expected == EarliestEnd(Value(), now, |states|)
    {
      hide BackoffEnd, EarliestEnd;
      expected := Never;
      NoEarliestEnd(Value(), now);
      for k := 0 to |states|
        invariant expected == EarliestEnd(Value(), now, k)
      {
        EarliestEndStep(Value(), now, k);
        if states[k].accessRequested {
          var end := EndOf(states[k]);
          if now < end && (expected.Never? || end < expected.end) {
            expected := Soonest(end);
          }
        }
      }
    }

    lemma NoEarliestEnd(g: Manager, now: int)
      ensures EarliestEnd(g, now, 0) == Never
    {
    }

    lemma EarliestEndStep(g: Manager, now: int, k: nat)
      requires k < |g.dcfs|
      ensures var e, end := EarliestEnd(g, now, k), BackoffEnd(g.medium, g.dcfs[k]);
              EarliestEnd(g, now, k + 1)
              == if g.dcfs[k].requested && now < end && (e.Never? || end < e.end) then Soonest(end) else e
    {
    }

    method DoRestartAccessTimeoutIfNeeded(now: int)
      requires Valid()
      modifies this`timer
      ensures Valid() && Value() == Restart(old(Value()), now)
    {
      hide EarliestEnd;
      var expected := ExpectedBackoffEnd(now);
      if expected.Soonest? {
        if timer.At? && timer.expiry > expected.end {
          timer := Off;
        }
        if timer.Off? {
          timer := At(expected.end);
        }
      }
      assert Values() == old(Values());
    }

    /** GetBackoffEndFor. */
    method EndOf(state: DcfState) returns (end: int)
      ensures end == BackoffEnd(medium, state.Value())
    {
      var from := Max(state.backoffStart, GrantStart(medium) + SlotTimes(medium, state.aifsn));
      end := from + SlotTimes(medium, state.backoffSlots);
    }

    // -------------------------------------------------------------------------
    // Requests and grants.

    method IsEligible(k: nat, now: int) returns (eligible: bool)
      requires k < |states|
      ensures eligible == Eligible(medium, Values()[k], now)
    {
      eligible := false;
      if states[k].accessRequested {
        var end := EndOf(states[k]);
        eligible := end <= now;
      }
    }

    method FindEligible(now: int) returns (i: nat)
      requires Valid()
      ensures i == FirstEligible(Value(), now, 0)
    {
      hide Eligible;
      i := 0;
      while i < |states|
        invariant i <= |states|
        invariant FirstEligible(Value(), now, 0) == FirstEligible(Value(), now, i)
      {
        var eligible := IsEligible(i, now);
        if eligible {
          break;
        }
        i := i + 1;
      }
    }

    /** The states after the granted one that collide with it, found before anything is notified. */
    method InternalCollisions(first: nat, now: int) returns (colliding: seq<nat>)
      requires Valid() && first < |states|
      ensures forall k :: 0 <= k < |states| ==> (k in colliding <==> first < k && Eligible(medium, Values()[k], now))
      ensures forall a, b :: 0 <= a < b < |colliding| ==> colliding[a] < colliding[b]
      ensures forall a :: 0 <= a < |colliding| ==> colliding[a] < |states|
    {
      hide Eligible;
      colliding := [];
      for k := first + 1 to |states|
        invariant forall j :: 0 <= j < |states| ==>
                  (j in colliding <==> first < j < k && Eligible(medium, Values()[j], now))
        invariant forall a, b :: 0 <= a < b < |colliding| ==> colliding[a] < colliding[b]
        invariant forall a :: 0 <= a < |colliding| ==> colliding[a] < k
      {
        var eligible := IsEligible(k, now);
        if eligible {
          colliding := colliding + [k];
        }
      }
    }

    /** What the granted transmit opportunity does at once. */
    method Grant(first: nat, now: int, tx: Transmission)
      requires Valid() && first < |states| && Eligible(medium, Values()[first], now) && Launchable(medium, now, tx)
      modifies this`medium, states
      ensures Valid() && Value() == Transmitted(Granted(old(Value()), first), now, tx)
    {
      hide TxStarted;
      ghost var g := Value();
      states[first].NotifyAccessGranted();
      assert Values() == Granted(g, first).dcfs;
      assert Value() == Granted(g, first);
      if tx.Transmit? {
        AwaitReply(now, tx.reply);
        NotifyTxStartNow(now, tx.duration);
      }
    }

    method AwaitReply(now: int, reply: Reply)
      requires Valid() && (reply.AwaitAck? ==> medium.ackTimeoutEnd < now)
      modifies this`medium
      ensures Valid() && Value() == old(Value()).(medium := ReplyAwaited(old(medium), now, reply))
    {
      match reply
      case NoReply => assert Values() == old(Values());
      case AwaitAck(timeout) => NotifyAckTimeoutStartNow(now, timeout);
      case AwaitCts(timeout) => NotifyCtsTimeoutStartNow(now, timeout);
    }

    /** The pass over the states, under the assertions of the code alone. */
    method DoGrantAccess(now: int, tx: Transmission, draws: seq<nat>)
      requires Valid() && |draws| == |states| && PassAllowed(Value(), now, tx)
      modifies this`medium, states
      ensures Valid() && Value() == GrantPass(old(Value()), now, tx, draws)
    {
      hide Eligible, Transmitted, Granted, Collided, CollideEmpty, Launchable;
      var first := FindEligible(now);
      if first < |states| {
        GrantAndCollide(first, now, tx, draws);
      }
    }

    /** The grant of the first eligible state, and the internal collisions of the later ones. */
    method GrantAndCollide(first: nat, now: int, tx: Transmission, draws: seq<nat>)
      requires Valid() && |draws| == |states| && CollideEmpty(Value(), now) && Launchable(medium, now, tx)
      requires first < |states| && first == FirstEligible(Value(), now, 0)
      modifies this`medium, states
      ensures Valid() && Value() ==
                Collided(old(Value()), Transmitted(Granted(old(Value()), first), now, tx), now, first, draws)
    {
      hide Eligible, Transmitted, Started, Launchable;
      ghost var g := Value();
      var colliding := InternalCollisions(first, now);
      Grant(first, now, tx);
      ghost var after := Value();
      forall k | k in colliding
        ensures k < |states| && states[k].backoffSlots == 0
      {
        TransmissionKeepsEmpty(Granted(g, first), now, tx, k);
        assert after.dcfs[k] == states[k].Value();
      }
      NotifyCollisions(colliding, now, draws);
      assert Values() == Collided(g, after, now, first, draws).dcfs;
    }

    /** Every colliding state starts a new backoff with its own draw. */
    method NotifyCollisions(colliding: seq<nat>, now: int, draws: seq<nat>)
      requires Valid() && |draws| == |states|
      requires forall a, b :: 0 <= a < b < |colliding| ==> colliding[a] < colliding[b]
      requires forall k :: k in colliding ==> k < |states| && states[k].backoffSlots == 0
      modifies states
      ensures Valid()
      ensures forall k :: 0 <= k < |states| ==>
                states[k].Value() ==
                  if k in colliding then Started(old(Values())[k], draws[k], now) else old(Values())[k]
    {
      hide Started;
      ghost var before := Values();
      for c := 0 to |colliding|
        invariant Valid()
        invariant forall k :: 0 <= k < |states| ==>
                    states[k].Value() == if k in colliding[..c] then Started(before[k], draws[k], now) else before[k]
      {
        var k := colliding[c];
        assert k in colliding && k !in colliding[..c];
        assert before[k] == states[k].Value();
        states[k].StartBackoffNow(draws[k], now);
        assert colliding[..c + 1] == colliding[..c] + [k];
      }
      assert colliding[..|colliding|] == colliding;
    }

    /** The access request; `PassAllowedIff` and `RequestCollisionsIff` say when the assertions of its pass hold. */
    method RequestAccess(i: nat, now: int, draw: nat, tx: Transmission, draws: seq<nat>)
      requires Valid() && Admissible(Value(), now, Event.RequestAccess(i, draw, tx, draws))
      requires !sleeping ==> PassAllowed(Requested(Value(), now, i, draw), now, tx)
      modifies this`medium, this`timer, states
      ensures Valid() && Value() == Step(old(Value()), now, Event.RequestAccess(i, draw, tx, draws))
    {
      hide Updated, Restart, GrantPass, PassAllowed;
      if sleeping {
        return;
      }
      ghost var g := Value();
      UpdateBackoff(now);
      states[i].NotifyAccessRequested();
      if states[i].backoffSlots == 0 && IsBusy(medium, now) {
        states[i].StartBackoffNow(draw, now);
      }
      assert Values() == Requested(g, now, i, draw).dcfs;
      DoGrantAccess(now, tx, draws);
      DoRestartAccessTimeoutIfNeeded(now);
    }

    /** The timer fires; `PassAllowedIff` and `TimeoutCollisionsIff` say when the assertions of its pass hold. */
    method AccessTimeout(now: int, tx: Transmission, draws: seq<nat>)
      requires Valid() && Admissible(Value(), now, Event.AccessTimeout(tx, draws))
      requires PassAllowed(UpdateAll(Value().(timer := Off), now), now, tx)
      modifies this`medium, this`timer, states
      ensures Valid() && Value() == Step(old(Value()), now, Event.AccessTimeout(tx, draws))
    {
      hide Updated, Restart, GrantPass, PassAllowed;
      ghost var g := Value();
      timer := Off;
      assert Value() == g.(timer := Off);
      UpdateBackoff(now);
      DoGrantAccess(now, tx, draws);
      DoRestartAccessTimeoutIfNeeded(now);
    }
  }
}
