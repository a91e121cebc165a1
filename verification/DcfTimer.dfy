/** The access timer: no requesting state is left without one that fires in time. */
module DcfTimer {
  import opened Numbers
  import opened DcfTiming
  import opened DcfSteps
  import opened DcfRuns

  // ---------------------------------------------------------------------------
  // No lost wake-up.

  /** The timer fires no later than the end of this state's backoff. */
  ghost predicate TimerBy(g: Manager, i: nat)
    requires i < |g.dcfs|
  {
    g.timer.At? && g.timer.expiry <= BackoffEnd(g.medium, g.dcfs[i])
  }

  /** While awake, every requesting state is covered by the timer. */
  ghost predicate Armed(g: Manager) {
    !g.sleeping ==> forall i :: 0 <= i < |g.dcfs| && g.dcfs[i].requested ==> TimerBy(g, i)
  }

  /** No requesting state has an expired backoff. */
  ghost predicate NoneExpired(g: Manager, now: int) {
    forall i :: 0 <= i < |g.dcfs| && g.dcfs[i].requested ==> now < BackoffEnd(g.medium, g.dcfs[i])
  }

  /** Re-arming covers every requesting state if none has an expired backoff. */
  lemma RestartArms(g: Manager, now: int)
    requires NoneExpired(g, now)
    ensures Armed(Restart(g, now))
  {
    hide BackoffEnd;
  }

  /** From a timer that is not due yet, re-arming covers every requesting state only if none has expired. */
  lemma RestartArmsOnlyThen(g: Manager, now: int)
    requires (g.timer.Off? || now < g.timer.expiry) && !g.sleeping && Armed(Restart(g, now))
    ensures NoneExpired(g, now)
  {
    hide BackoffEnd;
    var r := Restart(g, now);
    forall i | 0 <= i < |g.dcfs| && g.dcfs[i].requested
      ensures now < BackoffEnd(g.medium, g.dcfs[i])
    {
      assert TimerBy(r, i);
    }
  }

  lemma EndGrows(m: Medium, m': Medium, d: Dcf)
    requires GrantStart(m) <= GrantStart(m') && m'.slotUs == m.slotUs
    ensures BackoffEnd(m, d) <= BackoffEnd(m', d)
  {
    hide GrantStart;
  }

  /** A busier medium only moves backoff ends later, which an early timer survives. */
  lemma BusierStaysArmed(g: Manager, g': Manager)
    requires Armed(g) && g'.dcfs == g.dcfs && g'.timer == g.timer && g'.sleeping == g.sleeping
    requires GrantStart(g.medium) <= GrantStart(g'.medium) && g'.medium.slotUs == g.medium.slotUs
    ensures Armed(g')
  {
    hide GrantStart, BackoffEnd;
    forall i | !g'.sleeping && 0 <= i < |g'.dcfs| && g'.dcfs[i].requested
      ensures TimerBy(g', i)
    {
      assert TimerBy(g, i);
      EndGrows(g.medium, g'.medium, g.dcfs[i]);
    }
  }

  lemma UpdateStaysArmed(g: Manager, now: int)
    requires Armed(g) && Configured(g.medium)
    ensures Armed(UpdateAll(g, now))
  {
    hide BackoffEnd, Updated;
    var g' := UpdateAll(g, now);
    forall i | !g'.sleeping && 0 <= i < |g'.dcfs| && g'.dcfs[i].requested
      ensures TimerBy(g', i)
    {
      UpdateAllKeepsEnds(g, now, i);
      assert TimerBy(g, i);
    }
  }

  /** With the medium not free before a later time, no backoff has expired. */
  lemma BusyNoneExpired(g: Manager, now: int)
    requires now < GrantStart(g.medium)
    ensures NoneExpired(g, now)
  {
    hide GrantStart;
    forall i | 0 <= i < |g.dcfs| && g.dcfs[i].requested
      ensures now < BackoffEnd(g.medium, g.dcfs[i])
    {
      EndAfterGrantStart(g.medium, g.dcfs[i]);
    }
  }

  lemma EndAfterGrantStart(m: Medium, d: Dcf)
    ensures GrantStart(m) <= BackoffEnd(m, d)
  {
    hide GrantStart;
    SlotTimesOne(m);
    SlotTimesOrder(m, 0, d.aifsn);
  }

  /** When a grant starts a transmission, no requesting state is left with an expired backoff. */
  lemma TransmissionLeavesNoneExpired(g: Manager, now: int, tx: Transmission, draws: seq<nat>)
    requires Configured(g.medium) && 0 < g.medium.sifs && |draws| == |g.dcfs| && tx.Transmit? && 0 <= tx.duration
    ensures NoneExpired(GrantPass(g, now, tx, draws), now)
  {
    hide GrantStart, BackoffEnd;
    var i := FirstEligible(g, now, 0);
    if i < |g.dcfs| {
      var t := Transmitted(Granted(g, i), now, tx);
      assert t.medium.txStart == now && t.medium.txDuration == tx.duration;
      TxRaisesGrantStart(t.medium);
      BusyNoneExpired(GrantPass(g, now, tx, draws), now);
    }
  }

  /** A collision drawn at a time when the medium is free ends now exactly when it draws no slot. */
  lemma CollisionEnd(m: Medium, d: Dcf, draw: nat, now: int)
    requires Configured(m) && Eligible(m, d, now)
    ensures now < BackoffEnd(m, Started(d, draw, now)) <==> draw > 0
  {
    hide GrantStart;
    SlotTimesOne(m);
    if draw > 0 {
      SlotTimesStrict(m, 0, draw);
    }
  }

  /** The grant starts a transmission, or every state that collides with it draws at least one slot. */
  ghost predicate Clears(g: Manager, now: int, tx: Transmission, draws: seq<nat>)
    requires |draws| == |g.dcfs|
  {
    tx.Transmit? || forall k :: FirstEligible(g, now, 0) < k < |g.dcfs| && Eligible(g.medium, g.dcfs[k], now) ==>
        draws[k] > 0
  }

  /** A pass leaves no requesting state with an expired backoff exactly when it clears. */
  lemma PassClearsIff(g: Manager, now: int, tx: Transmission, draws: seq<nat>)
    requires Configured(g.medium) && 0 < g.medium.sifs && |draws| == |g.dcfs| && (tx.Transmit? ==> 0 <= tx.duration)
    ensures NoneExpired(GrantPass(g, now, tx, draws), now) <==> Clears(g, now, tx, draws)
  {
    hide GrantStart, BackoffEnd, Started;
    if tx.Transmit? {
      TransmissionLeavesNoneExpired(g, now, tx, draws);
    } else {
      var first := FirstEligible(g, now, 0);
      var g' := GrantPass(g, now, tx, draws);
      forall k | 0 <= k < |g.dcfs|
        ensures (g'.dcfs[k].requested ==> now < BackoffEnd(g'.medium, g'.dcfs[k])) <==>
                  (first < k && Eligible(g.medium, g.dcfs[k], now) ==> draws[k] > 0)
      {
        if first < k && Eligible(g.medium, g.dcfs[k], now) {
          CollisionEnd(g.medium, g.dcfs[k], draws[k], now);
          StartedFlag(g.dcfs[k], draws[k], now);
        }
      }
    }
  }

  lemma StartedFlag(d: Dcf, n: nat, now: int)
    ensures Started(d, n, now).requested == d.requested
  {
  }

  /** Re-arming after a pass covers all requesting states if and only if the pass cleared. */
  lemma PassArmsIff(b: Manager, now: int, tx: Transmission, draws: seq<nat>)
    requires Configured(b.medium) && 0 < b.medium.sifs && |draws| == |b.dcfs| && (tx.Transmit? ==> 0 <= tx.duration)
    requires !b.sleeping && (b.timer.Off? || now < b.timer.expiry)
    ensures Armed(Restart(GrantPass(b, now, tx, draws), now)) <==> Clears(b, now, tx, draws)
  {
    hide GrantStart, BackoffEnd, Started, Updated;
    PassClearsIff(b, now, tx, draws);
    var p := GrantPass(b, now, tx, draws);
    if NoneExpired(p, now) {
      RestartArms(p, now);
    }
    if Armed(Restart(p, now)) {
      RestartArmsOnlyThen(p, now);
    }
  }

  /** After the timer fires, all requesting states are covered again if and only if the pass cleared. */
  lemma TimeoutArmsIff(g: Manager, now: int, tx: Transmission, draws: seq<nat>)
    requires Configured(g.medium) && 0 < g.medium.sifs && |draws| == |g.dcfs| && (tx.Transmit? ==> 0 <= tx.duration)
    requires !g.sleeping
    ensures Armed(AfterTimeout(g, now, tx, draws)) <==> Clears(UpdateAll(g.(timer := Off), now), now, tx, draws)
  {
    hide GrantPass, Restart, Armed, Clears;
    PassArmsIff(UpdateAll(g.(timer := Off), now), now, tx, draws);
  }

  /** After a request, with no timer due, all requesting states are covered if and only if the pass cleared. */
  lemma RequestArmsIff(g: Manager, now: int, i: nat, draw: nat, tx: Transmission, draws: seq<nat>)
    requires Configured(g.medium) && 0 < g.medium.sifs && |draws| == |g.dcfs| && (tx.Transmit? ==> 0 <= tx.duration)
    requires !g.sleeping && i < |g.dcfs| && (g.timer.Off? || now < g.timer.expiry)
    ensures Armed(AfterRequest(g, now, i, draw, tx, draws)) <==> Clears(Requested(g, now, i, draw), now, tx, draws)
  {
    hide GrantPass, Restart, Armed, Clears;
    PassArmsIff(Requested(g, now, i, draw), now, tx, draws);
  }

  /**
   A pass that does not clear: two states are due when the timer fires, the first has nothing
   to send and the second draws no slot. The second is left requesting, expired and without a timer.
   */
  lemma ZeroDrawLosesWakeUp()
    ensures var m := Medium(9, 10000, 0, 0, 0, 0, 0, 0, 0, true, 0, false, 0, 0, 0, 0, 0, 0);
            var d := Dcf(2, 0, 0, 15, 1023, 15, true, Log(0, 0, []));
            var g := Manager(m, [d, d], false, At(28000));
            var ev := AccessTimeout(Idle, [0, 0]);
            && Logged(g, 28000) && Armed(g) && Admissible(g, 28000, ev)
            && !Armed(Step(g, 28000, ev))
  {
    hide Armed, Step;
    var m := Medium(9, 10000, 0, 0, 0, 0, 0, 0, 0, true, 0, false, 0, 0, 0, 0, 0, 0);
    var d := Dcf(2, 0, 0, 15, 1023, 15, true, Log(0, 0, []));
    assert GrantStart(m) == 10000 && BackoffEnd(m, d) == 28000;
    TwoDue(m, d, 28000);
  }

  lemma TwoDue(m: Medium, d: Dcf, now: int)
    requires Configured(m) && 0 < m.sifs && d.requested && BackoffEnd(m, d) == now
    ensures var g, ev := Manager(m, [d, d], false, At(now)), AccessTimeout(Idle, [0, 0]);
            Armed(g) && Admissible(g, now, ev) && !Armed(Step(g, now, ev))
  {
    hide BackoffEnd, Updated, GrantStart;
    var g := Manager(m, [d, d], false, At(now));
    var u := UpdateAll(g.(timer := Off), now);
    UpdateKeepsEnd(m, d, now);
    assert u.dcfs[0] == Updated(m, d, now) && u.dcfs[1] == Updated(m, d, now);
    assert FirstEligible(u, now, 0) == 0 && Eligible(u.medium, u.dcfs[1], now);
    TimeoutArmsIff(g, now, Idle, [0, 0]);
  }

  lemma TxRaisesGrantStart(m: Medium)
    ensures GrantStart(m) >= m.txStart + m.txDuration + m.sifs
  {
  }

  lemma ResetRaisesGrantStart(m: Medium)
    ensures GrantStart(m) >= m.navStart + m.navDuration + m.sifs
    ensures GrantStart(m) >= m.ackTimeoutEnd + m.sifs
    ensures GrantStart(m) >= m.ctsTimeoutEnd + m.sifs
  {
  }

  /** The events by which the medium alone decides when it is free again. */
  predicate OfMedium(ev: Event) {
    ev.RxStart? || ev.RxEndOk? || ev.RxEndError? || ev.TxStart? || ev.CcaBusy? || ev.AckTimeoutStart? ||
        ev.CtsTimeoutStart?
  }

  ghost function MediumAfter(m: Medium, now: int, ev: Event): Medium
    requires OfMedium(ev)
  {
    match ev
    case RxStart(duration) => m.(rxStart := now, rxDuration := duration, rxing := true)
    case RxEndOk => m.(rxEnd := now, rxReceivedOk := true, rxing := false)
    case RxEndError => m.(rxEnd := now, rxReceivedOk := false, rxing := false)
    case TxStart(duration) => RxCut(m, now).(txStart := now, txDuration := duration)
    case CcaBusy(duration) => m.(busyStart := now, busyDuration := duration)
    case AckTimeoutStart(duration) => m.(ackTimeoutEnd := now + duration)
    case CtsTimeoutStart(duration) => m.(ctsTimeoutEnd := now + duration)
  }

  lemma StepMedium(g: Manager, now: int, ev: Event)
    requires Configured(g.medium) && Admissible(g, now, ev) && OfMedium(ev)
    ensures Step(g, now, ev).medium == MediumAfter(g.medium, now, ev)
    ensures Step(g, now, ev).timer == g.timer && Step(g, now, ev).sleeping == g.sleeping
  {
  }

  /**
   The environment of a step: durations are not negative, every grant starts a transmission
   or collides only with states that draw a slot, and no event of the medium lets it be free
   earlier than announced before.
   */
  ghost predicate Orderly(g: Manager, now: int, ev: Event)
    requires Configured(g.medium) && Admissible(g, now, ev)
  {
    && 0 < g.medium.sifs
    && ((ev.RequestAccess? && !g.sleeping) || ev.AccessTimeout? ==>
          (ev.tx.Transmit? ==> 0 <= ev.tx.duration) && Clears(BeforeGrant(g, now, ev), now, ev.tx, ev.draws))
    && (ev.NavReset? ==> 0 <= ev.duration)
    && (OfMedium(ev) ==> GrantStart(g.medium) <= GrantStart(MediumAfter(g.medium, now, ev)))
  }

  lemma NavStartOnlyExtends(m: Medium, now: int, duration: int)
    ensures GrantStart(m) <= GrantStart(NavStarted(m, now, duration))
  {
  }

  lemma BeginStaysArmed(g: Manager, now: int, i: nat, n: nat)
    requires Armed(g) && i < |g.dcfs| && g.dcfs[i].slots == 0 && g.dcfs[i].start <= now
    ensures Armed(g.(dcfs := g.dcfs[i := Started(g.dcfs[i], n, now)]))
  {
    hide GrantStart;
    var d := g.dcfs[i];
    SlotTimesOne(g.medium);
    SlotTimesOrder(g.medium, 0, n);
    assert BackoffEnd(g.medium, d) <= BackoffEnd(g.medium, Started(d, n, now));
    var g' := g.(dcfs := g.dcfs[i := Started(d, n, now)]);
    forall k | !g'.sleeping && 0 <= k < |g'.dcfs| && g'.dcfs[k].requested
      ensures TimerBy(g', k)
    {
      assert TimerBy(g, k);
    }
  }

  lemma TxStartStaysArmed(g: Manager, now: int, duration: int)
    requires Configured(g.medium) && Armed(g) && 0 < g.medium.sifs
    requires GrantStart(g.medium) <= GrantStart(TxStarted(g, now, duration).medium)
    ensures Armed(TxStarted(g, now, duration))
  {
    hide GrantStart, Updated, BackoffEnd;
    var cut := g.(medium := RxCut(g.medium, now));
    if g.medium.rxing {
      CutRaisesGrantStart(cut.medium);
      forall i | 0 <= i < |g.dcfs|
        ensures Updated(cut.medium, g.dcfs[i], now) == g.dcfs[i]
      {
        NotYet(cut.medium, g.dcfs[i], now);
      }
      assert UpdateAll(cut, now).dcfs == g.dcfs;
      BusierStaysArmed(g, TxStarted(g, now, duration));
    } else {
      UpdateStaysArmed(g, now);
      BusierStaysArmed(UpdateAll(g, now), TxStarted(g, now, duration));
    }
  }

  lemma CutRaisesGrantStart(m: Medium)
    requires !m.rxing && m.rxReceivedOk
    ensures GrantStart(m) >= m.rxEnd + m.sifs
  {
  }

  lemma NothingRequestedIsArmed(g: Manager)
    requires forall i :: 0 <= i < |g.dcfs| ==> !g.dcfs[i].requested
    ensures Armed(g)
  {
  }

  lemma DroppedRequestsNothing(g: Manager, now: int)
    ensures forall i :: 0 <= i < |g.dcfs| ==> !DroppedAll(g, now).dcfs[i].requested
  {
  }

  /** A pass that clears, followed by re-arming, covers every requesting state. */
  lemma GrantStaysArmed(b: Manager, now: int, tx: Transmission, draws: seq<nat>)
    requires Configured(b.medium) && 0 < b.medium.sifs && |draws| == |b.dcfs|
    requires (tx.Transmit? ==> 0 <= tx.duration) && Clears(b, now, tx, draws)
    ensures Armed(Restart(GrantPass(b, now, tx, draws), now))
  {
    hide Armed, NoneExpired, Clears, Restart, GrantPass;
    PassClearsIff(b, now, tx, draws);
    RestartArms(GrantPass(b, now, tx, draws), now);
  }

  /** A reset that leaves the medium busy beyond now, followed by re-arming. */
  lemma ResetStaysArmed(g: Manager, now: int)
    requires now < GrantStart(g.medium)
    ensures Armed(Restart(g, now))
  {
    hide Armed, NoneExpired, Restart, GrantStart;
    BusyNoneExpired(g, now);
    RestartArms(g, now);
  }

  /** An event of the medium that does not let it be free earlier. */
  lemma MediumStepStaysArmed(g: Manager, now: int, ev: Event)
    requires Configured(g.medium) && Armed(g) && Admissible(g, now, ev) && OfMedium(ev) &&
              (ev.TxStart? ==> 0 < g.medium.sifs)
    requires GrantStart(g.medium) <= GrantStart(MediumAfter(g.medium, now, ev))
    ensures Armed(Step(g, now, ev))
  {
    hide GrantStart, UpdateAll, TxStarted, Armed;
    StepMedium(g, now, ev);
    var g' := Step(g, now, ev);
    match ev
    case TxStart(duration) => TxStartStaysArmed(g, now, duration);
    case RxStart(duration) => UpdateStaysArmed(g, now); BusierStaysArmed(UpdateAll(g, now), g');
    case CcaBusy(duration) => UpdateStaysArmed(g, now); BusierStaysArmed(UpdateAll(g, now), g');
    case _ => BusierStaysArmed(g, g');
  }

  /** Every orderly step keeps all requesting states covered by the timer: no wake-up is lost. */
  lemma StepStaysArmed(g: Manager, now: int, ev: Event)
    requires Logged(g, now) && Armed(g) && Admissible(g, now, ev) && Orderly(g, now, ev)
    ensures Armed(Step(g, now, ev))
  {
    hide GrantStart, UpdateAll, GrantPass, Restart, Requested, DroppedAll, TxStarted, Started, Armed, Clears;
    var g' := Step(g, now, ev);
    match ev
    case RequestAccess(i, draw, tx, draws) =>
      if !g.sleeping {
        GrantStaysArmed(Requested(g, now, i, draw), now, tx, draws);
      }
    case AccessTimeout(tx, draws) => GrantStaysArmed(UpdateAll(g.(timer := Off), now), now, tx, draws);
    case BeginBackoff(i, n) => BeginStaysArmed(g, now, i, n);
    case Switching(duration) =>
      DroppedRequestsNothing(g, now);
      NothingRequestedIsArmed(g');
    case Sleep => AsleepIsArmed(g');
    case Wakeup =>
      DroppedRequestsNothing(g, now);
      NothingRequestedIsArmed(g');
    case NavReset(duration) =>
      var reset := UpdateAll(UpdateAll(g, now).(medium := g.medium.(navStart := now, navDuration := duration)), now);
      ResetRaisesGrantStart(reset.medium);
      ResetStaysArmed(reset, now);
    case AckTimeoutReset =>
      var reset := g.(medium := g.medium.(ackTimeoutEnd := now));
      ResetRaisesGrantStart(reset.medium);
      ResetStaysArmed(reset, now);
    case CtsTimeoutReset =>
      var reset := g.(medium := g.medium.(ctsTimeoutEnd := now));
      ResetRaisesGrantStart(reset.medium);
      ResetStaysArmed(reset, now);
    case NavStart(duration) =>
      UpdateStaysArmed(g, now);
      NavStartOnlyExtends(g.medium, now, duration);
      BusierStaysArmed(UpdateAll(g, now), g');
    case _ => MediumStepStaysArmed(g, now, ev);
  }

  lemma AsleepIsArmed(g: Manager)
    requires g.sleeping
    ensures Armed(g)
  {
  }

  ghost predicate OrderlyRun(g: Manager, now: int, steps: seq<Timed>)
    requires Run(g, now, steps)
    decreases |steps|
  {
    steps != [] ==>
      && Orderly(g, steps[0].now, steps[0].ev)
      && OrderlyRun(Step(g, steps[0].now, steps[0].ev), steps[0].now, steps[1..])
  }

  /** Over any orderly run no wake-up is lost. */
  lemma {:induction false} RunStaysArmed(g: Manager, now: int, steps: seq<Timed>)
    requires Logged(g, now) && Armed(g) && Run(g, now, steps) && OrderlyRun(g, now, steps)
    ensures Armed(After(g, now, steps))
    decreases |steps|
  {
    hide Armed, Step, Admissible, Orderly, LogOk;
    if steps != [] {
      LaterKeepsLogs(g, now, steps[0].now);
      StepKeepsLogs(g, steps[0].now, steps[0].ev);
      StepStaysArmed(g, steps[0].now, steps[0].ev);
      RunStaysArmed(Step(g, steps[0].now, steps[0].ev), steps[0].now, steps[1..]);
    }
  }

  // ---------------------------------------------------------------------------
  // The condition on events of the medium is exact.

  ghost predicate KeepsArmed(g: Manager, now: int, ev: Event)
    requires Configured(g.medium)
  {
    Admissible(g, now, ev) ==> Armed(Step(g, now, ev))
  }

  /** A manager in which nothing happens but this event, to ask whether the medium admits it. */
  ghost predicate Admits(m: Medium, now: int, ev: Event) {
    Admissible(Manager(m, [], false, Off), now, ev)
  }

  /**
   An event of the medium loses no wake-up of any manager if and only if it does not let the medium
   be free earlier.
   */
  lemma MediumEventSafeIff(m: Medium, now: int, ev: Event)
    requires Configured(m) && OfMedium(ev) && Admits(m, now, ev) && (ev.TxStart? ==> 0 < m.sifs)
    ensures (forall g: Manager :: g.medium == m && Logged(g, now) && Armed(g) ==> KeepsArmed(g, now, ev))
       <==> GrantStart(m) <= GrantStart(MediumAfter(m, now, ev))
  {
    hide GrantStart, Armed, Logged, MediumAfter, Admissible;
    if GrantStart(m) <= GrantStart(MediumAfter(m, now, ev)) {
      forall g: Manager | g.medium == m && Logged(g, now) && Armed(g)
        ensures KeepsArmed(g, now, ev)
      {
        if Admissible(g, now, ev) {
          MediumStepStaysArmed(g, now, ev);
        }
      }
    } else {
      var g := Outrun(m, now, ev);
      assert !KeepsArmed(g, now, ev);
    }
  }

  /** If the medium is free earlier, a state that waits long enough after it ends before its timer. */
  lemma Outrun(m: Medium, now: int, ev: Event) returns (g: Manager)
    requires Configured(m) && OfMedium(ev) && Admits(m, now, ev) && (ev.TxStart? ==> 0 < m.sifs)
    requires GrantStart(MediumAfter(m, now, ev)) < GrantStart(m)
    ensures g.medium == m && Logged(g, now) && Armed(g) && Admissible(g, now, ev) && !Armed(Step(g, now, ev))
  {
    hide GrantStart, MediumAfter;
    var m' := MediumAfter(m, now, ev);
    var n: nat := Max(0, now - GrantStart(m)) + 1;
    WaitsBeyond(m, n);
    var start := Min(now, GrantStart(m'));
    var d := Dcf(n, 0, start, 15, 1023, 15, true, Log(0, start, []));
    var end := GrantStart(m) + SlotTimes(m, n);
    g := Manager(m, [d], false, At(end));
    WaitingEnds(m, d);
    WaitingEnds(m', d);
    WaitingIsKept(g, now, ev);
    StepMedium(g, now, ev);
    assert TimerBy(g, 0) && !TimerBy(Step(g, now, ev), 0);
  }

  lemma WaitsBeyond(m: Medium, n: nat)
    requires Configured(m)
    ensures n <= SlotTimes(m, n)
  {
    assert n <= n * m.slotUs;
  }

  lemma WaitingEnds(m: Medium, d: Dcf)
    requires d.slots == 0 && d.start <= GrantStart(m)
    ensures BackoffEnd(m, d) == GrantStart(m) + SlotTimes(m, d.aifsn)
  {
    hide GrantStart;
    SlotTimesOne(m);
  }

  /** A state whose AIFSN slots are not over is left alone by an event of the medium. */
  lemma WaitingIsKept(g: Manager, now: int, ev: Event)
    requires Configured(g.medium) && Admissible(g, now, ev) && OfMedium(ev) && (ev.TxStart? ==> 0 < g.medium.sifs)
    requires |g.dcfs| == 1 && now < GrantStart(g.medium) + SlotTimes(g.medium, g.dcfs[0].aifsn)
    ensures Step(g, now, ev).dcfs == g.dcfs
  {
    hide GrantStart, SlotTimes;
    var d := g.dcfs[0];
    assert Updated(g.medium, d, now) == d;
    assert UpdateAll(g, now).dcfs == g.dcfs;
    if ev.TxStart? && g.medium.rxing {
      var cut := RxCut(g.medium, now);
      CutRaisesGrantStart(cut);
      NotYet(cut, d, now);
      assert UpdateAll(g.(medium := cut), now).dcfs == g.dcfs;
    }
  }

  /**
   An event that is not safe: after a reception with errors, a short new reception of 44
   microseconds replaces the long wait, and the backoff ends long before the timer fires.
   */
  lemma ShortReceptionOutrunsTimer()
    ensures var m := Medium(9, 10000, 300000, 0, 0, 0, 0, 0, 0, false, 0, false, 0, 0, 0, 0, 0, 0);
            var d := Dcf(2, 0, 0, 15, 1023, 15, true, Log(0, 0, []));
            var g := Manager(m, [d], false, At(328000));
            Logged(g, 20000) && Armed(g) && !Armed(Step(g, 20000, RxStart(44000)))
  {
    var m := Medium(9, 10000, 300000, 0, 0, 0, 0, 0, 0, false, 0, false, 0, 0, 0, 0, 0, 0);
    var d := Dcf(2, 0, 0, 15, 1023, 15, true, Log(0, 0, []));
    var g := Manager(m, [d], false, At(328000));
    var m' := m.(rxStart := 20000, rxDuration := 44000, rxing := true);
    var g' := Step(g, 20000, RxStart(44000));
    assert GrantStart(m) == 310000 && GrantStart(m') == 74000;
    assert Updated(m, d, 20000) == d;
    assert g'.dcfs[0] == d && g'.medium == m' && g'.dcfs[0].requested;
    assert BackoffEnd(m, d) == 328000 && BackoffEnd(m', d) == 92000;
    assert TimerBy(g, 0) && !TimerBy(g', 0);
  }

  // ---------------------------------------------------------------------------
  // What an armed timer means for the counts.

  /** Backoffs whose whole length fits the 32 bits of the elapsed time. */
  predicate Short(g: Manager) {
    forall i :: 0 <= i < |g.dcfs| ==> g.dcfs[i].slots * g.medium.slotUs < WRAP
  }

  /** A requesting state covered by a timer that is not overdue has an exact count when it expires. */
  lemma CoveredIsExact(g: Manager, now: int, k: nat)
    requires Configured(g.medium) && Armed(g) && !g.sleeping && (g.timer.At? ==> now <= g.timer.expiry) && Short(g)
    requires k < |g.dcfs| && Eligible(g.medium, g.dcfs[k], now)
    ensures Exact(g.medium, g.dcfs[k], now)
  {
    hide GrantStart;
    assert TimerBy(g, k);
    assert now == BackoffEnd(g.medium, g.dcfs[k]);
  }

  /** While every requesting state is covered, a firing timer never meets a colliding state with slots left. */
  lemma TimeoutsNeverMeetSlots(g: Manager, now: int)
    requires Configured(g.medium) && Armed(g) && !g.sleeping && g.timer == At(now) && Short(g)
    ensures CollideEmpty(UpdateAll(g.(timer := Off), now), now)
  {
    hide Exact, Armed, Eligible, Updated;
    forall k | FirstEligible(g, now, 0) < k < |g.dcfs| && Eligible(g.medium, g.dcfs[k], now)
      ensures Exact(g.medium, g.dcfs[k], now)
    {
      CoveredIsExact(g, now, k);
    }
    TimerDoesNotCollide(g, now);
    TimeoutCollisionsIff(g.(timer := Off), now);
  }

  /** A request meets none if its own count is exact. */
  lemma RequestsMeetNoSlots(g: Manager, now: int, i: nat, draw: nat)
    requires Configured(g.medium) && Armed(g) && !g.sleeping && (g.timer.At? ==> now <= g.timer.expiry) && Short(g)
    requires i < |g.dcfs| && Exact(g.medium, g.dcfs[i], now) && 0 < g.medium.sifs && Timely(g.medium, now)
    ensures CollideEmpty(Requested(g, now, i, draw), now)
  {
    hide Exact, Armed, Eligible, Requested;
    var a := Asked(g, i);
    forall k | FirstEligible(a, now, 0) < k < |g.dcfs| && Eligible(a.medium, a.dcfs[k], now)
      ensures Exact(a.medium, a.dcfs[k], now)
    {
      if k == i {
        FlagKeepsExact(g.medium, g.dcfs[i], now);
      } else {
        CoveredIsExact(g, now, k);
      }
    }
    RequestCollisionsIff(g, now, i, draw);
  }
}
