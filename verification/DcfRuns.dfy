/** What every step of the channel access manager keeps, and what follows for whole runs. */
module DcfRuns {
  import opened Numbers
  import opened DcfTiming
  import opened DcfSteps

  // ---------------------------------------------------------------------------
  // Updates of all states.

  /**
   With no event in between, updating at two times is updating once at the later one if and only if
   no wrap in between hides slots of any state.
   */
  lemma UpdateAllTwice(g: Manager, t1: int, t2: int)
    requires Configured(g.medium) && t1 <= t2
    ensures UpdateAll(UpdateAll(g, t1), t2) == UpdateAll(g, t2) <==>
              forall i :: 0 <= i < |g.dcfs| ==> Covering(g.medium, g.dcfs[i], t1, t2)
  {
    hide Updated, Covering;
    var twice, once := UpdateAll(UpdateAll(g, t1), t2), UpdateAll(g, t2);
    forall i | 0 <= i < |g.dcfs|
      ensures twice.dcfs[i] == once.dcfs[i] <==> Covering(g.medium, g.dcfs[i], t1, t2)
    {
      UpdateTwice(g.medium, g.dcfs[i], t1, t2);
    }
    assert twice == once <==> twice.dcfs == once.dcfs;
  }

  /** While the elapsed times fit their 32 bits, nothing wraps. */
  lemma FreshCovers(m: Medium, d: Dcf, t1: int, t2: int)
    requires Configured(m) && t1 <= t2 && Fresh(m, d, t2)
    ensures Covering(m, d, t1, t2)
  {
    hide BackoffStart;
    if BackoffStart(m, d) <= t1 && d.slots > 0 {
      var us1, us2 := Elapsed(BackoffStart(m, d), t1), Elapsed(BackoffStart(m, d), t2);
      WrapLoses(us1, m.slotUs);
      WrapLoses(us2, m.slotUs);
      QuotientsInOrder(us1, us2, m.slotUs);
    }
  }

  lemma UpdateAllKeepsEnds(g: Manager, now: int, i: nat)
    requires Configured(g.medium) && i < |g.dcfs|
    ensures BackoffEnd(g.medium, UpdateAll(g, now).dcfs[i]) == BackoffEnd(g.medium, g.dcfs[i])
    ensures UpdateAll(g, now).dcfs[i].requested == g.dcfs[i].requested
  {
    UpdateKeepsEnd(g.medium, g.dcfs[i], now);
  }

  // ---------------------------------------------------------------------------
  // Grants.

  /** Nothing is left to count at `now`: every state has just been updated, or its backoff has just begun. */
  ghost predicate UpToDate(g: Manager, now: int)
    requires Configured(g.medium)
  {
    forall i :: 0 <= i < |g.dcfs| ==> Updated(g.medium, g.dcfs[i], now) == g.dcfs[i]
  }

  lemma UpdateBringsUpToDate(g: Manager, now: int)
    requires Configured(g.medium)
    ensures UpToDate(UpdateAll(g, now), now)
  {
    hide Updated;
    forall i | 0 <= i < |g.dcfs|
      ensures Updated(g.medium, UpdateAll(g, now).dcfs[i], now) == UpdateAll(g, now).dcfs[i]
    {
      UpdateIdempotent(g.medium, g.dcfs[i], now);
    }
  }

  lemma FlagIsNotCounted(m: Medium, d: Dcf, now: int, requested: bool)
    requires Configured(m) && Updated(m, d, now) == d
    ensures Updated(m, d.(requested := requested), now) == d.(requested := requested)
  {
    hide SlotTimes, GrantStart;
  }

  /** A backoff that begins now has nothing to count yet. */
  lemma StartedUpToDate(m: Medium, d: Dcf, n: nat, now: int)
    requires Configured(m)
    ensures Updated(m, Started(d, n, now), now) == Started(d, n, now)
  {
    hide GrantStart;
    var e := Started(d, n, now);
    SlotTimesOne(m);
    if BackoffStart(m, e) <= now {
      assert Elapsed(now, now) == 0;
      WrapLoses(0, m.slotUs);
      assert SlotsFrom(m, now, Floor(m, e), 0) == [];
    }
  }

  lemma RequestBringsUpToDate(g: Manager, now: int, i: nat, draw: nat)
    requires Configured(g.medium) && i < |g.dcfs|
    ensures UpToDate(Requested(g, now, i, draw), now)
  {
    hide Updated;
    UpdateBringsUpToDate(g, now);
    var d := UpdateAll(g, now).dcfs[i];
    FlagIsNotCounted(g.medium, d, now, true);
    StartedUpToDate(g.medium, d.(requested := true), draw, now);
  }

  /** A reception does not outlast its announced duration. */
  predicate Timely(m: Medium, now: int) {
    m.rxing ==> now <= m.rxStart + m.rxDuration
  }

  /** Access is never granted while the medium is busy or an answer is awaited. */
  lemma GrantOnlyWhenIdle(m: Medium, d: Dcf, now: int)
    requires Eligible(m, d, now) && 0 < m.sifs && Timely(m, now)
    ensures !IsBusy(m, now) && m.ackTimeoutEnd < now && m.ctsTimeoutEnd < now && GrantStart(m) <= now
  {
    SlotTimesOne(m);
    SlotTimesOrder(m, 0, d.aifsn);
  }

  /**
   What the code asserts when a granted transmission begins: no ACK is awaited, and any reception
   has only just begun.
   */
  predicate Launchable(m: Medium, now: int, tx: Transmission) {
    tx.Transmit? ==>
      && (tx.reply.AwaitAck? ==> m.ackTimeoutEnd < now)
      && (m.rxing ==> now - m.rxStart <= m.sifs)
  }

  /** A transmission leaves a backoff without slots without slots. */
  lemma TransmissionKeepsEmpty(g: Manager, now: int, tx: Transmission, k: nat)
    requires Configured(g.medium) && k < |g.dcfs| && g.dcfs[k].slots == 0
    ensures Transmitted(g, now, tx).dcfs[k].slots == 0
  {
    hide BackoffStart;
  }

  predicate Answerable(tx: Transmission) {
    tx.Transmit? ==>
      0 <= tx.duration && (tx.reply.AwaitAck? ==> 0 <= tx.reply.timeout) &&
          (tx.reply.AwaitCts? ==> 0 <= tx.reply.timeout)
  }

  /** Starting a transmission at once changes no backoff that is up to date. */
  lemma TransmissionKeepsBackoffs(g: Manager, now: int, tx: Transmission)
    requires Configured(g.medium) && UpToDate(g, now) && !g.medium.rxing && 0 < g.medium.sifs && Answerable(tx)
    ensures Transmitted(g, now, tx).dcfs == g.dcfs
  {
    hide Updated;
    if tx.Transmit? {
      var m' := ReplyAwaited(g.medium, now, tx.reply);
      forall i | 0 <= i < |g.dcfs|
        ensures Updated(m', g.dcfs[i], now) == g.dcfs[i]
      {
        if m' != g.medium {
          NotYet(m', g.dcfs[i], now);
        }
      }
    }
  }

  lemma NotYet(m: Medium, d: Dcf, now: int)
    requires Configured(m) && now < GrantStart(m)
    ensures Updated(m, d, now) == d
  {
    hide GrantStart;
    SlotTimesOne(m);
    SlotTimesOrder(m, 0, d.aifsn);
  }

  /** What a pass does to one state: the first eligible one is granted, each later eligible one collides once. */
  ghost predicate PassedOver(g: Manager, g': Manager, now: int, draws: seq<nat>, k: nat)
    requires |g'.dcfs| == |g.dcfs| == |draws| && k < |g.dcfs|
  {
    var first, d := FirstEligible(g, now, 0), g.dcfs[k];
    g'.dcfs[k] == if k == first then d.(requested := false)
                  else if first < k && Eligible(g.medium, d, now) then Started(d, draws[k], now)
                  else d
  }

  lemma PassEffect(g: Manager, now: int, tx: Transmission, draws: seq<nat>, k: nat)
    requires Configured(g.medium) && UpToDate(g, now) && 0 < g.medium.sifs && Timely(g.medium, now) && Answerable(tx)
    requires |draws| == |g.dcfs| && k < |g.dcfs|
    ensures PassedOver(g, GrantPass(g, now, tx, draws), now, draws, k)
  {
    hide Eligible, Updated;
    var first := FirstEligible(g, now, 0);
    if first < |g.dcfs| {
      NotReceivingWhenEligible(g, now, first);
      FlagIsNotCounted(g.medium, g.dcfs[first], now, false);
      TransmissionKeepsBackoffs(Granted(g, first), now, tx);
    }
  }

  lemma NotReceivingWhenEligible(g: Manager, now: int, i: nat)
    requires i < |g.dcfs| && Eligible(g.medium, g.dcfs[i], now) && 0 < g.medium.sifs && Timely(g.medium, now)
    ensures !g.medium.rxing
  {
    GrantOnlyWhenIdle(g.medium, g.dcfs[i], now);
  }

  /**
   One pass after an update grants at most one state, the first eligible one. Every later
   eligible state gets exactly one internal collision, and all others stay as they are. A
   state that is granted or collides has no slot left if and only if its count was exact.
   */
  lemma GrantPassExact(g: Manager, now: int, tx: Transmission, draws: seq<nat>, k: nat)
    requires Configured(g.medium) && 0 < g.medium.sifs && Timely(g.medium, now) && Answerable(tx)
    requires |draws| == |g.dcfs| && k < |g.dcfs|
    ensures var u := UpdateAll(g, now);
            && PassedOver(u, GrantPass(u, now, tx, draws), now, draws, k)
            && (Eligible(u.medium, u.dcfs[k], now) ==> (u.dcfs[k].slots == 0 <==> Exact(g.medium, g.dcfs[k], now)))
  {
    hide Updated, PassedOver, Exact, BackoffEnd;
    UpdateBringsUpToDate(g, now);
    PassEffect(UpdateAll(g, now), now, tx, draws, k);
    UpdateAllKeepsEnds(g, now, k);
    if BackoffEnd(g.medium, g.dcfs[k]) <= now {
      ExpiredHasNoSlots(g.medium, g.dcfs[k], now);
    }
  }

  /** The same for the pass of a request. */
  lemma RequestPassExact(g: Manager, now: int, i: nat, draw: nat, tx: Transmission, draws: seq<nat>, k: nat)
    requires Configured(g.medium) && 0 < g.medium.sifs && Timely(g.medium, now) && Answerable(tx)
    requires |draws| == |g.dcfs| && i < |g.dcfs| && k < |g.dcfs|
    ensures var r := Requested(g, now, i, draw);
            && PassedOver(r, GrantPass(r, now, tx, draws), now, draws, k)
            && (Eligible(r.medium, r.dcfs[k], now) ==> (r.dcfs[k].slots == 0 <==> Exact(g.medium, g.dcfs[k], now)))
  {
    hide Updated, PassedOver, Exact, BackoffEnd;
    RequestBringsUpToDate(g, now, i, draw);
    var r := Requested(g, now, i, draw);
    PassEffect(r, now, tx, draws, k);
    if Eligible(r.medium, r.dcfs[k], now) {
      RequestedEligible(g, now, i, draw, k);
      ExpiredHasNoSlots(g.medium, g.dcfs[k], now);
    }
  }

  /** The request alone, before any slot is counted. */
  ghost function Asked(g: Manager, i: nat): (g': Manager)
    requires i < |g.dcfs|
    ensures |g'.dcfs| == |g.dcfs| && g'.medium == g.medium
  {
    g.(dcfs := g.dcfs[i := g.dcfs[i].(requested := true)])
  }

  /** Counting and the collision of a request on a busy medium do not change who is eligible. */
  lemma RequestedEligible(g: Manager, now: int, i: nat, draw: nat, k: nat)
    requires Configured(g.medium) && 0 < g.medium.sifs && Timely(g.medium, now) && i < |g.dcfs| && k < |g.dcfs|
    ensures var r := Requested(g, now, i, draw);
            && (Eligible(r.medium, r.dcfs[k], now) <==> Eligible(g.medium, Asked(g, i).dcfs[k], now))
            && (Eligible(r.medium, r.dcfs[k], now) ==>
                  BackoffEnd(g.medium, g.dcfs[k]) <= now && r.dcfs[k].slots == UpdateAll(g, now).dcfs[k].slots)
  {
    hide Updated, IsBusy;
    var u, r := UpdateAll(g, now), Requested(g, now, i, draw);
    UpdateAllKeepsEnds(g, now, k);
    FlagKeepsEnd(g.medium, g.dcfs[k]);
    FlagKeepsEnd(g.medium, u.dcfs[k]);
    if Eligible(r.medium, r.dcfs[k], now) {
      GrantOnlyWhenIdle(g.medium, r.dcfs[k], now);
    }
    if Eligible(g.medium, Asked(g, i).dcfs[k], now) {
      GrantOnlyWhenIdle(g.medium, Asked(g, i).dcfs[k], now);
    }
  }

  lemma FlagKeepsEnd(m: Medium, d: Dcf)
    ensures BackoffEnd(m, d.(requested := true)) == BackoffEnd(m, d)
  {
  }

  /** Every state that would collide has an exact count. */
  ghost predicate ExactCollisions(g: Manager, now: int)
    requires Configured(g.medium)
  {
    forall k :: FirstEligible(g, now, 0) < k < |g.dcfs| && Eligible(g.medium, g.dcfs[k], now) ==>
      Exact(g.medium, g.dcfs[k], now)
  }

  /** What the colliding states' next backoffs demand: no slot is left. */
  ghost predicate CollideEmpty(g: Manager, now: int) {
    forall k :: FirstEligible(g, now, 0) < k < |g.dcfs| && Eligible(g.medium, g.dcfs[k], now) ==> g.dcfs[k].slots == 0
  }

  lemma SameFirst(g: Manager, g': Manager, now: int)
    requires |g'.dcfs| == |g.dcfs|
    requires forall k :: 0 <= k < |g.dcfs| ==>
              (Eligible(g.medium, g.dcfs[k], now) <==> Eligible(g'.medium, g'.dcfs[k], now))
    ensures FirstEligible(g, now, 0) == FirstEligible(g', now, 0)
  {
    hide Eligible;
  }

  /** After a timeout's update, every collision may begin a backoff if and only if the colliding counts are exact. */
  lemma TimeoutCollisionsIff(g: Manager, now: int)
    requires Configured(g.medium)
    ensures CollideEmpty(UpdateAll(g, now), now) <==> ExactCollisions(g, now)
  {
    hide Updated, Exact, BackoffEnd;
    var u := UpdateAll(g, now);
    forall k | 0 <= k < |g.dcfs|
      ensures Eligible(g.medium, g.dcfs[k], now) <==> Eligible(u.medium, u.dcfs[k], now)
      ensures Eligible(g.medium, g.dcfs[k], now) ==> (u.dcfs[k].slots == 0 <==> Exact(g.medium, g.dcfs[k], now))
    {
      UpdateAllKeepsEnds(g, now, k);
      if BackoffEnd(g.medium, g.dcfs[k]) <= now {
        ExpiredHasNoSlots(g.medium, g.dcfs[k], now);
      }
    }
    SameFirst(g, u, now);
  }

  /** All the assertions a pass over these states meets. */
  ghost predicate PassAllowed(g: Manager, now: int, tx: Transmission) {
    CollideEmpty(g, now) && (FirstEligible(g, now, 0) < |g.dcfs| ==> Launchable(g.medium, now, tx))
  }

  /**
   With timely receptions and a positive SIFS, a pass that grants finds the medium idle, so only the
   counts matter.
   */
  lemma PassAllowedIff(g: Manager, now: int, tx: Transmission)
    requires 0 < g.medium.sifs && Timely(g.medium, now)
    ensures PassAllowed(g, now, tx) <==> CollideEmpty(g, now)
  {
    hide Eligible, CollideEmpty;
    var first := FirstEligible(g, now, 0);
    if first < |g.dcfs| {
      GrantOnlyWhenIdle(g.medium, g.dcfs[first], now);
      NotReceivingWhenEligible(g, now, first);
    }
  }

  lemma TimerDoesNotCollide(g: Manager, now: int)
    requires Configured(g.medium)
    ensures ExactCollisions(g.(timer := Off), now) <==> ExactCollisions(g, now)
  {
    hide Exact, Eligible;
    SameFirst(g, g.(timer := Off), now);
  }

  /** The same for the pass of a request. */
  lemma RequestCollisionsIff(g: Manager, now: int, i: nat, draw: nat)
    requires Configured(g.medium) && 0 < g.medium.sifs && Timely(g.medium, now) && i < |g.dcfs|
    ensures CollideEmpty(Requested(g, now, i, draw), now) <==> ExactCollisions(Asked(g, i), now)
  {
    hide Updated, Exact, BackoffEnd, Requested;
    var a, r := Asked(g, i), Requested(g, now, i, draw);
    forall k | 0 <= k < |g.dcfs|
      ensures Eligible(a.medium, a.dcfs[k], now) <==> Eligible(r.medium, r.dcfs[k], now)
      ensures Eligible(a.medium, a.dcfs[k], now) ==> (r.dcfs[k].slots == 0 <==> Exact(a.medium, a.dcfs[k], now))
    {
      RequestedEligible(g, now, i, draw, k);
      FlagKeepsExact(g.medium, g.dcfs[k], now);
      if Eligible(a.medium, a.dcfs[k], now) {
        ExpiredHasNoSlots(g.medium, g.dcfs[k], now);
      }
    }
    SameFirst(a, r, now);
  }

  lemma FlagKeepsExact(m: Medium, d: Dcf, now: int)
    requires Configured(m)
    ensures Exact(m, d.(requested := true), now) <==> Exact(m, d, now)
  {
  }

  // ---------------------------------------------------------------------------
  // Logs.

  /** Every backoff has its log in order, up to the last update. */
  ghost predicate Logged(g: Manager, now: int) {
    && Configured(g.medium)
    && forall i :: 0 <= i < |g.dcfs| ==> LogOk(g.medium, g.dcfs[i]) && g.dcfs[i].start <= now
  }

  /** Only the slot time of the medium matters to a log. */
  lemma LogOkElsewhere(m: Medium, m': Medium, d: Dcf)
    requires LogOk(m, d) && m'.slotUs == m.slotUs
    ensures LogOk(m', d)
  {
  }

  lemma SettingKeepsLogs(g: Manager, g': Manager, now: int)
    requires Logged(g, now) && g'.dcfs == g.dcfs && g'.medium.slotUs == g.medium.slotUs
    ensures Logged(g', now)
  {
    hide LogOk;
    forall i | 0 <= i < |g.dcfs|
      ensures LogOk(g'.medium, g'.dcfs[i])
    {
      LogOkElsewhere(g.medium, g'.medium, g.dcfs[i]);
    }
  }

  lemma LaterKeepsLogs(g: Manager, now: int, now': int)
    requires Logged(g, now) && now <= now'
    ensures Logged(g, now')
  {
  }

  lemma UpdateKeepsLogs(g: Manager, now: int)
    requires Logged(g, now)
    ensures Logged(UpdateAll(g, now), now)
  {
    hide LogOk, Updated;
    forall i | 0 <= i < |g.dcfs|
      ensures LogOk(g.medium, UpdateAll(g, now).dcfs[i]) && UpdateAll(g, now).dcfs[i].start <= now
    {
      UpdateKeepsLog(g.medium, g.dcfs[i], now);
    }
  }

  lemma StartedLog(m: Medium, d: Dcf, n: nat, now: int)
    ensures LogOk(m, Started(d, n, now)) && Started(d, n, now).start <= now
  {
  }

  lemma DroppedLog(m: Medium, d: Dcf, now: int)
    requires LogOk(m, d) && d.start <= now
    ensures LogOk(m, Dropped(d, now)) && Dropped(d, now).start <= now
  {
  }

  lemma FlagLog(m: Medium, d: Dcf, requested: bool)
    requires LogOk(m, d)
    ensures LogOk(m, d.(requested := requested))
  {
  }

  lemma OneKeepsLogs(g: Manager, now: int, i: nat, d: Dcf)
    requires Logged(g, now) && i < |g.dcfs| && LogOk(g.medium, d) && d.start <= now
    ensures Logged(g.(dcfs := g.dcfs[i := d]), now)
  {
  }

  lemma TxStartKeepsLogs(g: Manager, now: int, duration: int)
    requires Logged(g, now)
    ensures Logged(TxStarted(g, now, duration), now)
  {
    hide LogOk;
    var cut := g.(medium := RxCut(g.medium, now));
    SettingKeepsLogs(g, cut, now);
    UpdateKeepsLogs(cut, now);
    SettingKeepsLogs(UpdateAll(cut, now), TxStarted(g, now, duration), now);
  }

  lemma TransmittedKeepsLogs(g: Manager, now: int, tx: Transmission)
    requires Logged(g, now)
    ensures Logged(Transmitted(g, now, tx), now)
  {
    hide LogOk;
    if tx.Transmit? {
      var waiting := g.(medium := ReplyAwaited(g.medium, now, tx.reply));
      SettingKeepsLogs(g, waiting, now);
      TxStartKeepsLogs(waiting, now, tx.duration);
    }
  }

  lemma CollidedKeepsLogs(before: Manager, after: Manager, now: int, i: nat, draws: seq<nat>)
    requires Logged(after, now) && |after.dcfs| == |before.dcfs| == |draws|
    ensures Logged(Collided(before, after, now, i, draws), now)
  {
    hide LogOk, Eligible, Started;
    forall k | 0 <= k < |after.dcfs|
      ensures LogOk(after.medium, Collided(before, after, now, i, draws).dcfs[k])
      ensures Collided(before, after, now, i, draws).dcfs[k].start <= now
    {
      StartedLog(after.medium, after.dcfs[k], draws[k], now);
    }
  }

  lemma GrantKeepsLogs(g: Manager, now: int, tx: Transmission, draws: seq<nat>)
    requires Logged(g, now) && |draws| == |g.dcfs|
    ensures Logged(GrantPass(g, now, tx, draws), now)
  {
    hide LogOk, Eligible, Transmitted, Collided;
    var i := FirstEligible(g, now, 0);
    if i < |g.dcfs| {
      FlagLog(g.medium, g.dcfs[i], false);
      OneKeepsLogs(g, now, i, g.dcfs[i].(requested := false));
      TransmittedKeepsLogs(Granted(g, i), now, tx);
      CollidedKeepsLogs(g, Transmitted(Granted(g, i), now, tx), now, i, draws);
    }
  }

  lemma RequestKeepsLogs(g: Manager, now: int, i: nat, draw: nat)
    requires Logged(g, now) && i < |g.dcfs|
    ensures Logged(Requested(g, now, i, draw), now)
  {
    hide LogOk, Updated, IsBusy, Started;
    UpdateKeepsLogs(g, now);
    var g1 := UpdateAll(g, now);
    FlagLog(g.medium, g1.dcfs[i], true);
    StartedLog(g.medium, g1.dcfs[i].(requested := true), draw, now);
    OneKeepsLogs(g1, now, i, Requested(g, now, i, draw).dcfs[i]);
  }

  lemma DropKeepsLogs(g: Manager, now: int)
    requires Logged(g, now)
    ensures Logged(DroppedAll(g, now), now)
  {
    hide LogOk, Dropped;
    forall i | 0 <= i < |g.dcfs|
      ensures LogOk(g.medium, DroppedAll(g, now).dcfs[i]) && DroppedAll(g, now).dcfs[i].start <= now
    {
      DroppedLog(g.medium, g.dcfs[i], now);
    }
  }

  lemma NavResetKeepsLogs(g: Manager, now: int, duration: int)
    requires Logged(g, now)
    ensures Logged(AfterNavReset(g, now, duration), now)
  {
    hide LogOk, Restart;
    UpdateKeepsLogs(g, now);
    var reset := UpdateAll(g, now).(medium := g.medium.(navStart := now, navDuration := duration));
    SettingKeepsLogs(UpdateAll(g, now), reset, now);
    UpdateKeepsLogs(reset, now);
    SettingKeepsLogs(UpdateAll(reset, now), AfterNavReset(g, now, duration), now);
  }

  /** Every step keeps every log in order. */
  lemma StepKeepsLogs(g: Manager, now: int, ev: Event)
    requires Logged(g, now) && Admissible(g, now, ev)
    ensures Logged(Step(g, now, ev), now)
  {
    hide LogOk, UpdateAll, GrantPass, Restart, Requested, DroppedAll, TxStarted, Started, AfterNavReset;
    var g' := Step(g, now, ev);
    match ev
    case RequestAccess(i, draw, tx, draws) =>
      if !g.sleeping {
        var r := Requested(g, now, i, draw);
        RequestKeepsLogs(g, now, i, draw);
        GrantKeepsLogs(r, now, tx, draws);
        SettingKeepsLogs(GrantPass(r, now, tx, draws), g', now);
      }
    case AccessTimeout(tx, draws) =>
      var off := g.(timer := Off);
      SettingKeepsLogs(g, off, now);
      UpdateKeepsLogs(off, now);
      GrantKeepsLogs(UpdateAll(off, now), now, tx, draws);
      SettingKeepsLogs(GrantPass(UpdateAll(off, now), now, tx, draws), g', now);
    case BeginBackoff(i, n) =>
      StartedLog(g.medium, g.dcfs[i], n, now);
      OneKeepsLogs(g, now, i, Started(g.dcfs[i], n, now));
    case TxStart(duration) => TxStartKeepsLogs(g, now, duration);
    case Switching(duration) => DropKeepsLogs(g, now); SettingKeepsLogs(DroppedAll(g, now), g', now);
    case Wakeup => DropKeepsLogs(g, now); SettingKeepsLogs(DroppedAll(g, now), g', now);
    case NavReset(duration) => NavResetKeepsLogs(g, now, duration);
    case RxStart(duration) => UpdateKeepsLogs(g, now); SettingKeepsLogs(UpdateAll(g, now), g', now);
    case CcaBusy(duration) => UpdateKeepsLogs(g, now); SettingKeepsLogs(UpdateAll(g, now), g', now);
    case NavStart(duration) => UpdateKeepsLogs(g, now); SettingKeepsLogs(UpdateAll(g, now), g', now);
    case _ => SettingKeepsLogs(g, g', now);
  }

  /** The states among which an event looks for one to grant, if it does. */
  ghost function BeforeGrant(g: Manager, now: int, ev: Event): Manager
    requires Configured(g.medium) && Admissible(g, now, ev)
  {
    match ev
    case RequestAccess(i, draw, tx, draws) => Requested(g, now, i, draw)
    case AccessTimeout(tx, draws) => UpdateAll(g.(timer := Off), now)
    case _ => g
  }

  ghost predicate Grants(g: Manager, now: int, ev: Event, k: nat)
    requires Configured(g.medium) && Admissible(g, now, ev)
  {
    && (ev.AccessTimeout? || (ev.RequestAccess? && !g.sleeping))
    && k < |g.dcfs| && k == FirstEligible(BeforeGrant(g, now, ev), now, 0)
  }

  lemma BeforeGrantLogged(g: Manager, now: int, ev: Event)
    requires Logged(g, now) && Admissible(g, now, ev) && (ev.RequestAccess? || ev.AccessTimeout?)
    ensures Logged(BeforeGrant(g, now, ev), now)
    ensures |BeforeGrant(g, now, ev).dcfs| == |g.dcfs| && BeforeGrant(g, now, ev).medium == g.medium
  {
    hide LogOk, UpdateAll, Requested;
    match ev
    case RequestAccess(i, draw, tx, draws) => RequestKeepsLogs(g, now, i, draw);
    case AccessTimeout(tx, draws) =>
      var off := g.(timer := Off);
      SettingKeepsLogs(g, off, now);
      UpdateKeepsLogs(off, now);
  }

  /**
   A state is granted only when all slots of its backoff have been counted or have elapsed:
   with the elapsed ones added to its record, it holds as many slots as the backoff had, whole
   and disjoint, in order between its beginning and now, each one begun no earlier than the
   access grant start plus AIFSN slots then in force.
   */
  lemma GrantedAfterWholeBackoff(g: Manager, now: int, ev: Event, k: nat)
    requires Logged(g, now) && Admissible(g, now, ev) && Grants(g, now, ev, k)
    ensures var d := BeforeGrant(g, now, ev).dcfs[k];
            var whole := Advanced(g.medium, d, d.slots).log;
            && d.requested && d.log.counted <= whole.counted && |whole.counted| == d.log.total
            && InOrder(g.medium, whole.counted, d.log.begun, now)
  {
    hide UpdateAll, Requested, InOrder, SlotTimes, SlotsFrom;
    BeforeGrantLogged(g, now, ev);
    var d := BeforeGrant(g, now, ev).dcfs[k];
    var e := Advanced(g.medium, d, d.slots);
    AppendLog(g.medium, d, d.slots);
    LaterEnd(g.medium, e.log.counted, e.log.begun, e.start, now);
  }

  /** All of them have been counted if and only if the count was exact. */
  lemma GrantedAllCountedIff(g: Manager, now: int, ev: Event, k: nat)
    requires Logged(g, now) && Admissible(g, now, ev) && Grants(g, now, ev, k) && 0 < g.medium.sifs &&
              Timely(g.medium, now)
    ensures var d := BeforeGrant(g, now, ev).dcfs[k];
            |d.log.counted| == d.log.total <==> Exact(g.medium, g.dcfs[k], now)
  {
    hide UpdateAll, Requested, InOrder, Exact, Updated, BackoffEnd;
    BeforeGrantLogged(g, now, ev);
    match ev
    case RequestAccess(i, draw, tx, draws) =>
      RequestedEligible(g, now, i, draw, k);
      ExpiredHasNoSlots(g.medium, g.dcfs[k], now);
    case AccessTimeout(tx, draws) =>
      UpdateAllKeepsEnds(g.(timer := Off), now, k);
      ExpiredHasNoSlots(g.medium, g.dcfs[k], now);
  }

  // ---------------------------------------------------------------------------
  // Runs.

  datatype Timed = Timed(now: int, ev: Event)

  /** Events in time order, each admissible in the state it meets. */
  ghost predicate Run(g: Manager, now: int, steps: seq<Timed>)
    decreases |steps|
  {
    steps != [] ==>
      && Configured(g.medium) && now <= steps[0].now && Admissible(g, steps[0].now, steps[0].ev)
      && Run(Step(g, steps[0].now, steps[0].ev), steps[0].now, steps[1..])
  }

  ghost function After(g: Manager, now: int, steps: seq<Timed>): Manager
    requires Run(g, now, steps)
    decreases |steps|
  {
    if steps == [] then g else After(Step(g, steps[0].now, steps[0].ev), steps[0].now, steps[1..])
  }

  ghost function TimeAfter(now: int, steps: seq<Timed>): int {
    if steps == [] then now else steps[|steps| - 1].now
  }

  /** Over any run, every log stays in order. */
  lemma {:induction false} RunKeepsLogs(g: Manager, now: int, steps: seq<Timed>)
    requires Logged(g, now) && Run(g, now, steps)
    ensures Logged(After(g, now, steps), TimeAfter(now, steps))
    decreases |steps|
  {
    hide Logged, Step, Admissible;
    if steps != [] {
      var t, ev := steps[0].now, steps[0].ev;
      LaterKeepsLogs(g, now, t);
      StepKeepsLogs(g, t, ev);
      RunKeepsLogs(Step(g, t, ev), t, steps[1..]);
    }
  }

  // ---------------------------------------------------------------------------
  // Extra updates.

  /** The events that begin by updating every backoff under the medium they find. */
  predicate UpdatesFirst(g: Manager, ev: Event) {
    || (ev.RequestAccess? && !g.sleeping) || ev.AccessTimeout?
    || ev.RxStart? || ev.CcaBusy? || ev.NavReset? || ev.NavStart?
    || (ev.TxStart? && !g.medium.rxing)
  }

  ghost predicate AllCovering(g: Manager, s: int, t: int)
    requires Configured(g.medium) && s <= t
  {
    forall i :: 0 <= i < |g.dcfs| ==> Covering(g.medium, g.dcfs[i], s, t)
  }

  /** An extra update some time before such an event changes nothing. */
  lemma UpdateBeforeStep(g: Manager, s: int, t: int, ev: Event)
    requires Configured(g.medium) && s <= t && UpdatesFirst(g, ev) && Admissible(g, t, ev) && AllCovering(g, s, t)
    ensures Admissible(UpdateAll(g, s), t, ev)
    ensures Step(UpdateAll(g, s), t, ev) == Step(g, t, ev)
  {
    hide Updated, Covering, GrantPass, Restart;
    var h := UpdateAll(g, s);
    UpdateAllTwice(g, s, t);
    assert UpdateAll(h, t) == UpdateAll(g, t);
    UpdatedAdmits(g, s, t, ev);
    match ev
    case AccessTimeout(tx, draws) => UpdateWithoutTimer(g, s, t);
    case TxStart(duration) => assert RxCut(g.medium, t) == g.medium && h.(medium := g.medium) == h &&
        g.(medium := g.medium) == g;
    case _ =>
  }

  lemma UpdatedAdmits(g: Manager, s: int, t: int, ev: Event)
    requires Configured(g.medium) && Admissible(g, t, ev) && UpdatesFirst(g, ev)
    ensures Admissible(UpdateAll(g, s), t, ev)
  {
    if ev.RequestAccess? {
      UpdateAllKeepsEnds(g, s, ev.i);
    }
  }

  lemma UpdateWithoutTimer(g: Manager, s: int, t: int)
    requires Configured(g.medium) && UpdateAll(UpdateAll(g, s), t) == UpdateAll(g, t)
    ensures UpdateAll(UpdateAll(g, s).(timer := Off), t) == UpdateAll(g.(timer := Off), t)
  {
    hide Updated;
    assert UpdateAll(UpdateAll(g, s).(timer := Off), t).dcfs == UpdateAll(UpdateAll(g, s), t).dcfs;
    assert UpdateAll(g.(timer := Off), t).dcfs == UpdateAll(g, t).dcfs;
  }

  /** A run is its beginning followed by its rest. */
  lemma {:induction false} RunSplits(g: Manager, now: int, steps: seq<Timed>, p: nat)
    requires Run(g, now, steps) && p <= |steps|
    ensures Run(g, now, steps[..p])
    ensures Run(After(g, now, steps[..p]), TimeAfter(now, steps[..p]), steps[p..])
    ensures After(After(g, now, steps[..p]), TimeAfter(now, steps[..p]), steps[p..]) == After(g, now, steps)
    decreases p
  {
    hide Step, Admissible;
    if p == 0 {
      assert steps[..0] == [] && steps[0..] == steps;
    } else {
      RunSplits(Step(g, steps[0].now, steps[0].ev), steps[0].now, steps[1..], p - 1);
      assert steps[..p][1..] == steps[1..][..p - 1] && steps[1..][p - 1..] == steps[p..];
      assert TimeAfter(now, steps[..p]) == TimeAfter(steps[0].now, steps[1..][..p - 1]);
    }
  }

  /**
   How the PHY and the MAC use the events that do not update first: a reception ends by its
   announced time, a timeout is reset by its end, and one starts outside a grant only a SIFS
   after a frame, so not after the access grant start, with AIFSN slots still to come.
   */
  ghost predicate Disciplined(g: Manager, now: int, ev: Event) {
    || ((ev.RxEndOk? || ev.RxEndError? || ev.TxStart?) && g.medium.rxing && Timely(g.medium, now))
    || (ev.AckTimeoutReset? && now <= g.medium.ackTimeoutEnd)
    || (ev.CtsTimeoutReset? && now <= g.medium.ctsTimeoutEnd)
    || ((ev.AckTimeoutStart? || ev.CtsTimeoutStart?) && now <= GrantStart(g.medium)
        && forall i :: 0 <= i < |g.dcfs| ==> 0 < g.dcfs[i].aifsn)
  }

  /** A SIFS after a frame, received or sent, is not after the access grant start. */
  lemma SifsAfterFrame(m: Medium, now: int)
    requires (!m.rxing && now <= m.rxEnd + m.sifs && 0 <= m.eifsNoDifs) || now <= m.txStart + m.txDuration + m.sifs
    ensures now <= GrantStart(m)
  {
  }

  /** Before a disciplined event no backoff has begun, so there is nothing to count. */
  lemma DisciplinedIsEarly(g: Manager, s: int, now: int, ev: Event)
    requires Configured(g.medium) && 0 < g.medium.sifs && s <= now && Disciplined(g, now, ev)
    ensures UpdateAll(g, s) == g
  {
    hide GrantStart;
    forall i | 0 <= i < |g.dcfs|
      ensures Updated(g.medium, g.dcfs[i], s) == g.dcfs[i]
    {
      SlotTimesOne(g.medium);
      if 0 < g.dcfs[i].aifsn {
        SlotTimesStrict(g.medium, 0, g.dcfs[i].aifsn);
      }
    }
    assert UpdateAll(g, s).dcfs == g.dcfs;
  }

  /** An update at `s` makes no difference to the event at `t`. */
  ghost predicate Absorbed(g: Manager, s: int, t: int, ev: Event)
    requires Configured(g.medium) && s <= t
  {
    (UpdatesFirst(g, ev) && AllCovering(g, s, t)) || (0 < g.medium.sifs && Disciplined(g, t, ev))
  }

  lemma UpdateAbsorbed(g: Manager, s: int, t: int, ev: Event)
    requires Configured(g.medium) && s <= t && Admissible(g, t, ev) && Absorbed(g, s, t, ev)
    ensures Admissible(UpdateAll(g, s), t, ev)
    ensures Step(UpdateAll(g, s), t, ev) == Step(g, t, ev)
  {
    hide Step, Admissible, UpdatesFirst, AllCovering, Disciplined;
    if UpdatesFirst(g, ev) && AllCovering(g, s, t) {
      UpdateBeforeStep(g, s, t, ev);
    } else {
      DisciplinedIsEarly(g, s, t, ev);
    }
  }

  /** An extra update anywhere in a run leaves the end of the run unchanged, if the next event absorbs it. */
  lemma ExtraUpdateInvisible(g: Manager, now: int, steps: seq<Timed>, p: nat, s: int)
    requires Run(g, now, steps) && p < |steps| && TimeAfter(now, steps[..p]) <= s <= steps[p].now
    requires Run(g, now, steps[..p]) && Configured(After(g, now, steps[..p]).medium)
    requires Absorbed(After(g, now, steps[..p]), s, steps[p].now, steps[p].ev)
    ensures var updated := UpdateAll(After(g, now, steps[..p]), s);
            Run(updated, s, steps[p..]) && After(updated, s, steps[p..]) == After(g, now, steps)
  {
    hide Step, Admissible, Absorbed;
    RunSplits(g, now, steps, p);
    assert steps[p..][0] == steps[p];
    UpdateAbsorbed(After(g, now, steps[..p]), s, steps[p].now, steps[p].ev);
  }

  /**
   Before an event that changes the medium without updating first, an extra update keeps the
   end of a backoff if and only if the backoff had not begun, or the event leaves its start
   where it was, or puts it off before the first slot.
   */
  lemma ExtraUpdateKeepsEndIff(m: Medium, m': Medium, d: Dcf, s: int)
    requires Configured(m) && m'.slotUs == m.slotUs
    ensures BackoffEnd(m', Updated(m, d, s)) == BackoffEnd(m', d) <==>
              || s < BackoffStart(m, d)
              || BackoffStart(m', d) == BackoffStart(m, d)
              || (BackoffStart(m', d) > BackoffStart(m, d) && Counted(m, d, s) == 0)
  {
    hide GrantStart, Counted;
    var a := Counted(m, d, s);
    SlotTimesOne(m);
    SlotTimesAdd(m, a, d.slots - a);
    if a > 0 {
      SlotTimesStrict(m, 0, a);
    }
  }

  /**
   Why timeouts must start with that discipline: outside it, two slots that have passed would
   be lost unless something else updates first.
   */
  lemma TimeoutStartDiscardsSlots()
    ensures var m := Medium(9, 10000, 0, 0, 0, 0, 0, 0, 0, true, 0, false, 0, 0, 0, 0, 0, 0);
            var g := Manager(m, [Dcf(0, 5, 0, 15, 1023, 15, false, Log(5, 0, []))], false, Off);
            var lazy, eager := Step(g, 28000, AckTimeoutStart(100000)),
                Step(UpdateAll(g, 28000), 28000, AckTimeoutStart(100000));
            BackoffEnd(lazy.medium, lazy.dcfs[0]) == BackoffEnd(eager.medium, eager.dcfs[0]) + 2 * SlotTime(m)
  {
    var m := Medium(9, 10000, 0, 0, 0, 0, 0, 0, 0, true, 0, false, 0, 0, 0, 0, 0, 0);
    var d := Dcf(0, 5, 0, 15, 1023, 15, false, Log(5, 0, []));
    var m' := m.(ackTimeoutEnd := 128000);
    assert GrantStart(m) == 10000 && GrantStart(m') == 138000;
    assert Counted(m, d, 28000) == 2;
    assert BackoffEnd(m', d) == 183000 && BackoffEnd(m', Updated(m, d, 28000)) == 165000;
  }

  // ---------------------------------------------------------------------------
  // Requests after a wrap.

  /**
   A collision can meet slots that are left: state 1 has waited for 2^32 microseconds and two
   slots when it requests access, at the instant the backoff of state 0 ends. Three of its
   five slots are still not counted, although all have passed.
   */
  lemma CollisionAfterWrap()
    ensures var m := Medium(9, 10000, 0, 0, 0, 0, 0, 0, 0, true, 0, false, 0, 0, 0, 0, 0, 0);
            var start := 10000 + MICROSECOND * WRAP;
            var g := Manager(m, [Dcf(0, 2, start, 15, 1023, 15, true, Log(2, start, [])),
                                 Dcf(0, 5, 0, 15, 1023, 15, false, Log(5, 0, []))], false, At(start + 18000));
            && Logged(g, start + 18000) && Admissible(g, start + 18000, RequestAccess(1, 0, Idle, [0, 0]))
            && !CollideEmpty(Requested(g, start + 18000, 1, 0), start + 18000)
  {
    var m := Medium(9, 10000, 0, 0, 0, 0, 0, 0, 0, true, 0, false, 0, 0, 0, 0, 0, 0);
    var start := 10000 + MICROSECOND * WRAP;
    var d0, d1 := Dcf(0, 2, start, 15, 1023, 15, true, Log(2, start, [])),
        Dcf(0, 5, 0, 15, 1023, 15, false, Log(5, 0, []));
    var now := start + 18000;
    assert GrantStart(m) == 10000 && BackoffEnd(m, d0) == now && BackoffEnd(m, d1) == 55000;
    assert Elapsed(BackoffStart(m, d1), now) == WRAP + 18 && !Exact(m, d1, now);
    hide Requested, CollideEmpty, GrantStart;
    CollisionMeetsSlots(m, d0, d1, now);
  }

  lemma CollisionMeetsSlots(m: Medium, d0: Dcf, d1: Dcf, now: int)
    requires Configured(m) && 0 < m.sifs && Timely(m, now)
    requires Eligible(m, d0, now) && BackoffEnd(m, d1) <= now && !Exact(m, d1, now)
    ensures !CollideEmpty(Requested(Manager(m, [d0, d1], false, At(now)), now, 1, 0), now)
  {
    hide Exact, BackoffEnd, Requested, CollideEmpty, GrantStart;
    var g := Manager(m, [d0, d1], false, At(now));
    var a := Asked(g, 1);
    assert a.dcfs[0] == d0 && a.dcfs[1] == d1.(requested := true);
    FlagKeepsEnd(m, d1);
    FlagKeepsExact(m, d1, now);
    assert FirstEligible(a, now, 0) == 0 && Eligible(a.medium, a.dcfs[1], now);
    RequestCollisionsIff(g, now, 1, 0);
  }
}
