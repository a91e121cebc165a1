/**
 Backoff slots are quiet: over a run, no slot that a state counts holds an instant at which
 the medium was busy, as far as the manager itself knew at that instant.
 */
module DcfQuiet {
  import opened Numbers
  import opened DcfTiming
  import opened DcfSteps
  import opened DcfRuns
  import opened DcfTimer

  // ---------------------------------------------------------------------------
  // Busy instants.

  /** The last end of what is known to keep the medium: transmissions, NAV, CCA, switching, awaited answers. */
  function BusyUntil(m: Medium): int {
    Max(Max(Max(m.txStart + m.txDuration, m.navStart + m.navDuration), m.busyStart + m.busyDuration),
        Max(Max(m.ackTimeoutEnd, m.ctsTimeoutEnd), m.switchingStart + m.switchingDuration))
  }

  predicate BusyAt(m: Medium, t: int) {
    m.rxing || t < BusyUntil(m)
  }

  datatype Stretch = Stretch(from: int, to: int)

  /** The busy part of the time from `t0` to `t1`, in which no event changed the medium. */
  function During(m: Medium, t0: int, t1: int): Stretch {
    Stretch(t0, if m.rxing then t1 else Min(t1, BusyUntil(m)))
  }

  lemma DuringExact(m: Medium, t0: int, t1: int, t: int)
    requires t0 <= t < t1
    ensures BusyAt(m, t) <==> During(m, t0, t1).from <= t < During(m, t0, t1).to
  {
  }

  /** Every slot is over before the stretch or begins after it. */
  ghost predicate Avoids(m: Medium, l: seq<Slot>, h: Stretch) {
    forall k :: 0 <= k < |l| ==> l[k].start + SlotTime(m) <= h.from || h.to <= l[k].start
  }

  ghost predicate AvoidsAll(m: Medium, l: seq<Slot>, busy: set<Stretch>) {
    forall h :: h in busy ==> Avoids(m, l, h)
  }

  /** All stretches are over, and none reaches beyond the access grant start. */
  ghost predicate Over(m: Medium, now: int, busy: set<Stretch>) {
    forall h :: h in busy ==> h.to <= now && h.to <= GrantStart(m)
  }

  ghost predicate Quiet(g: Manager, now: int, busy: set<Stretch>) {
    && Over(g.medium, now, busy)
    && forall i :: 0 <= i < |g.dcfs| ==> AvoidsAll(g.medium, g.dcfs[i].log.counted, busy)
  }

  // ---------------------------------------------------------------------------
  // One backoff.

  lemma {:induction false} SlotsFromLate(m: Medium, from: int, floor: int, n: nat)
    ensures forall k :: 0 <= k < n ==> from <= SlotsFrom(m, from, floor, n)[k].start
  {
    hide SlotTimes;
    if n > 0 {
      SlotsFromLate(m, from, floor, n - 1);
    }
  }

  /** Slots counted now begin no earlier than the access grant start, so after every stretch. */
  lemma AdvancedAvoids(m: Medium, d: Dcf, n: nat, now: int, busy: set<Stretch>)
    requires n <= d.slots && Over(m, now, busy) && AvoidsAll(m, d.log.counted, busy)
    ensures AvoidsAll(m, Advanced(m, d, n).log.counted, busy)
  {
    hide GrantStart, SlotTime;
    SlotTimesOne(m);
    SlotTimesOrder(m, 0, d.aifsn);
    var from := BackoffStart(m, d);
    SlotsFromLate(m, from, Floor(m, d), n);
  }

  lemma UpdatedAvoids(m: Medium, d: Dcf, t: int, now: int, busy: set<Stretch>)
    requires Configured(m) && Over(m, now, busy) && AvoidsAll(m, d.log.counted, busy)
    ensures AvoidsAll(m, Updated(m, d, t).log.counted, busy)
  {
    hide Advanced, AvoidsAll, Over, Counted, BackoffStart;
    AdvancedAvoids(m, d, Counted(m, d, t), now, busy);
  }

  /** Slots counted before a stretch begins are over by then. */
  lemma CountedBefore(m: Medium, d: Dcf, now: int, h: Stretch)
    requires LogOk(m, d) && d.start <= now && h.from == now
    ensures Avoids(m, d.log.counted, h)
  {
  }

  lemma AvoidsElsewhere(m: Medium, m': Medium, l: seq<Slot>, busy: set<Stretch>)
    requires AvoidsAll(m, l, busy) && m'.slotUs == m.slotUs
    ensures AvoidsAll(m', l, busy)
  {
    forall h | h in busy
      ensures Avoids(m', l, h)
    {
      assert Avoids(m, l, h);
    }
  }

  lemma NoSlotsAvoid(m: Medium, busy: set<Stretch>)
    ensures AvoidsAll(m, [], busy)
  {
  }

  // ---------------------------------------------------------------------------
  // Steps.

  /** Time passes: what kept the medium busy meanwhile becomes one more stretch. */
  lemma TimePasses(g: Manager, now: int, t: int, busy: set<Stretch>)
    requires Logged(g, now) && Quiet(g, now, busy) && now <= t && Timely(g.medium, t) && 0 <= g.medium.sifs
    ensures Quiet(g, t, busy + {During(g.medium, now, t)})
  {
    hide LogOk, Avoids, GrantStart;
    var h := During(g.medium, now, t);
    forall i | 0 <= i < |g.dcfs|
      ensures AvoidsAll(g.medium, g.dcfs[i].log.counted, busy + {h})
    {
      CountedBefore(g.medium, g.dcfs[i], now, h);
    }
  }

  lemma UpdateStaysQuiet(g: Manager, now: int, busy: set<Stretch>)
    requires Configured(g.medium) && Quiet(g, now, busy)
    ensures Quiet(UpdateAll(g, now), now, busy)
  {
    hide Updated, AvoidsAll, Over;
    forall i | 0 <= i < |g.dcfs|
      ensures AvoidsAll(g.medium, UpdateAll(g, now).dcfs[i].log.counted, busy)
    {
      UpdatedAvoids(g.medium, g.dcfs[i], now, now, busy);
    }
  }

  /** A medium that is not free before now, or not earlier than it was, keeps all stretches behind its grant start. */
  lemma MediumStaysQuiet(g: Manager, g': Manager, now: int, busy: set<Stretch>)
    requires Quiet(g, now, busy) && g'.dcfs == g.dcfs && g'.medium.slotUs == g.medium.slotUs
    requires now <= GrantStart(g'.medium) || GrantStart(g.medium) <= GrantStart(g'.medium)
    ensures Quiet(g', now, busy)
  {
    hide GrantStart, AvoidsAll;
    forall i | 0 <= i < |g.dcfs|
      ensures AvoidsAll(g'.medium, g'.dcfs[i].log.counted, busy)
    {
      AvoidsElsewhere(g.medium, g'.medium, g.dcfs[i].log.counted, busy);
    }
  }

  lemma OneStaysQuiet(g: Manager, now: int, busy: set<Stretch>, i: nat, d: Dcf)
    requires Quiet(g, now, busy) && i < |g.dcfs| && AvoidsAll(g.medium, d.log.counted, busy)
    ensures Quiet(g.(dcfs := g.dcfs[i := d]), now, busy)
  {
    hide AvoidsAll, Over;
  }

  lemma TxStartStaysQuiet(g: Manager, now: int, duration: int, busy: set<Stretch>)
    requires Configured(g.medium) && Quiet(g, now, busy) && 0 <= g.medium.sifs && 0 <= duration
    ensures Quiet(TxStarted(g, now, duration), now, busy)
  {
    hide Quiet, GrantStart, UpdateAll;
    var cut := g.(medium := RxCut(g.medium, now));
    if g.medium.rxing {
      CutRaisesGrantStart(cut.medium);
    }
    MediumStaysQuiet(g, cut, now, busy);
    UpdateStaysQuiet(cut, now, busy);
    MediumStaysQuiet(UpdateAll(cut, now), TxStarted(g, now, duration), now, busy);
  }

  lemma TransmittedStaysQuiet(g: Manager, now: int, tx: Transmission, busy: set<Stretch>)
    requires Configured(g.medium) && Quiet(g, now, busy) && 0 <= g.medium.sifs && Answerable(tx)
    ensures Quiet(Transmitted(g, now, tx), now, busy)
  {
    hide Quiet, GrantStart, TxStarted;
    if tx.Transmit? {
      var waiting := g.(medium := ReplyAwaited(g.medium, now, tx.reply));
      assert tx.reply.NoReply? ==> waiting == g;
      MediumStaysQuiet(g, waiting, now, busy);
      TxStartStaysQuiet(waiting, now, tx.duration, busy);
    }
  }

  lemma CollidedStaysQuiet(before: Manager, after: Manager, now: int, i: nat, draws: seq<nat>, busy: set<Stretch>)
    requires Quiet(after, now, busy) && |after.dcfs| == |before.dcfs| == |draws|
    ensures Quiet(Collided(before, after, now, i, draws), now, busy)
  {
    hide AvoidsAll, Over, Eligible;
    NoSlotsAvoid(after.medium, busy);
  }

  lemma GrantStaysQuiet(g: Manager, now: int, tx: Transmission, draws: seq<nat>, busy: set<Stretch>)
    requires Configured(g.medium) && Quiet(g, now, busy) && |draws| == |g.dcfs| && 0 <= g.medium.sifs && Answerable(tx)
    ensures Quiet(GrantPass(g, now, tx, draws), now, busy)
  {
    hide Eligible, Transmitted, Collided, AvoidsAll, Over;
    var i := FirstEligible(g, now, 0);
    if i < |g.dcfs| {
      OneStaysQuiet(g, now, busy, i, g.dcfs[i].(requested := false));
      TransmittedStaysQuiet(Granted(g, i), now, tx, busy);
      CollidedStaysQuiet(g, Transmitted(Granted(g, i), now, tx), now, i, draws, busy);
    }
  }

  lemma RequestStaysQuiet(g: Manager, now: int, i: nat, draw: nat, busy: set<Stretch>)
    requires Configured(g.medium) && Quiet(g, now, busy) && i < |g.dcfs|
    ensures Quiet(Requested(g, now, i, draw), now, busy)
  {
    hide AvoidsAll, Over, Updated, IsBusy;
    UpdateStaysQuiet(g, now, busy);
    NoSlotsAvoid(g.medium, busy);
    OneStaysQuiet(UpdateAll(g, now), now, busy, i, Requested(g, now, i, draw).dcfs[i]);
  }

  lemma DropStaysQuiet(g: Manager, now: int, busy: set<Stretch>)
    requires Quiet(g, now, busy)
    ensures Quiet(DroppedAll(g, now), now, busy)
  {
    hide AvoidsAll, Over;
    NoSlotsAvoid(g.medium, busy);
  }

  /** No duration is negative, and receptions end by their announced time. */
  predicate Punctual(m: Medium, now: int, ev: Event) {
    && 0 <= m.sifs && 0 <= m.eifsNoDifs && Timely(m, now)
    && match ev
       case RequestAccess(i, draw, tx, draws) => Answerable(tx)
       case AccessTimeout(tx, draws) => Answerable(tx)
       case RxStart(duration) => 0 <= duration
       case TxStart(duration) => 0 <= duration
       case CcaBusy(duration) => 0 <= duration
       case Switching(duration) => 0 <= duration
       case NavReset(duration) => 0 <= duration
       case AckTimeoutStart(duration) => 0 <= duration
       case CtsTimeoutStart(duration) => 0 <= duration
       case _ => true
  }

  /** An event of the medium never lets it be free before now, although it may be free earlier than announced. */
  lemma NotFreeBefore(m: Medium, now: int, ev: Event)
    requires OfMedium(ev) && Punctual(m, now, ev)
    ensures now <= GrantStart(MediumAfter(m, now, ev))
  {
  }

  lemma NavResetStaysQuiet(g: Manager, now: int, duration: int, busy: set<Stretch>)
    requires Configured(g.medium) && Quiet(g, now, busy) && 0 <= duration && 0 <= g.medium.sifs
    ensures Quiet(AfterNavReset(g, now, duration), now, busy)
  {
    hide Quiet, UpdateAll, Restart, GrantStart;
    UpdateStaysQuiet(g, now, busy);
    var reset := UpdateAll(g, now).(medium := g.medium.(navStart := now, navDuration := duration));
    MediumStaysQuiet(UpdateAll(g, now), reset, now, busy);
    UpdateStaysQuiet(reset, now, busy);
    MediumStaysQuiet(UpdateAll(reset, now), AfterNavReset(g, now, duration), now, busy);
  }

  lemma MediumEventStaysQuiet(g: Manager, now: int, ev: Event, busy: set<Stretch>)
    requires Configured(g.medium) && Quiet(g, now, busy) && Admissible(g, now, ev)
    requires OfMedium(ev) && Punctual(g.medium, now, ev)
    ensures Quiet(Step(g, now, ev), now, busy)
  {
    hide Quiet, UpdateAll, TxStarted, GrantStart, MediumAfter;
    StepMedium(g, now, ev);
    NotFreeBefore(g.medium, now, ev);
    var g' := Step(g, now, ev);
    match ev
    case TxStart(duration) => TxStartStaysQuiet(g, now, duration, busy);
    case RxStart(duration) => UpdateStaysQuiet(g, now, busy); MediumStaysQuiet(UpdateAll(g, now), g', now, busy);
    case CcaBusy(duration) => UpdateStaysQuiet(g, now, busy); MediumStaysQuiet(UpdateAll(g, now), g', now, busy);
    case _ => MediumStaysQuiet(g, g', now, busy);
  }

  /** Every punctual step keeps all counted slots clear of all stretches so far. */
  lemma StepStaysQuiet(g: Manager, now: int, ev: Event, busy: set<Stretch>)
    requires Configured(g.medium) && Quiet(g, now, busy) && Admissible(g, now, ev) && Punctual(g.medium, now, ev)
    ensures Quiet(Step(g, now, ev), now, busy)
  {
    hide Quiet, UpdateAll, GrantPass, Restart, Requested, DroppedAll, Started, AfterNavReset, GrantStart, NavStarted,
         Switched, TxStarted;
    var g' := Step(g, now, ev);
    match ev
    case RequestAccess(i, draw, tx, draws) =>
      if !g.sleeping {
        var r := Requested(g, now, i, draw);
        RequestStaysQuiet(g, now, i, draw, busy);
        GrantStaysQuiet(r, now, tx, draws, busy);
        MediumStaysQuiet(GrantPass(r, now, tx, draws), g', now, busy);
      }
    case AccessTimeout(tx, draws) =>
      var off := g.(timer := Off);
      MediumStaysQuiet(g, off, now, busy);
      UpdateStaysQuiet(off, now, busy);
      GrantStaysQuiet(UpdateAll(off, now), now, tx, draws, busy);
      MediumStaysQuiet(GrantPass(UpdateAll(off, now), now, tx, draws), g', now, busy);
    case BeginBackoff(i, n) => BeginStaysQuiet(g, now, i, n, busy);
    case Switching(duration) =>
      DropStaysQuiet(g, now, busy);
      SwitchedGrantStart(g.medium, now, duration);
      MediumStaysQuiet(DroppedAll(g, now), g', now, busy);
    case Wakeup => DropStaysQuiet(g, now, busy); MediumStaysQuiet(DroppedAll(g, now), g', now, busy);
    case Sleep => MediumStaysQuiet(g, g', now, busy);
    case NavReset(duration) => NavResetStaysQuiet(g, now, duration, busy);
    case NavStart(duration) =>
      UpdateStaysQuiet(g, now, busy);
      NavStartOnlyExtends(g.medium, now, duration);
      MediumStaysQuiet(UpdateAll(g, now), g', now, busy);
    case AckTimeoutReset => MediumStaysQuiet(g, g', now, busy);
    case CtsTimeoutReset => MediumStaysQuiet(g, g', now, busy);
    case _ => MediumEventStaysQuiet(g, now, ev, busy);
  }

  lemma BeginStaysQuiet(g: Manager, now: int, i: nat, n: nat, busy: set<Stretch>)
    requires Quiet(g, now, busy) && i < |g.dcfs|
    ensures Quiet(g.(dcfs := g.dcfs[i := Started(g.dcfs[i], n, now)]), now, busy)
  {
    hide Quiet;
    NoSlotsAvoid(g.medium, busy);
    OneStaysQuiet(g, now, busy, i, Started(g.dcfs[i], n, now));
  }

  lemma SwitchedGrantStart(m: Medium, now: int, duration: int)
    requires 0 <= duration && 0 <= m.sifs
    ensures now <= GrantStart(Switched(m, now, duration))
  {
    hide GrantStart;
  }

  // ---------------------------------------------------------------------------
  // Runs.

  ghost predicate PunctualRun(g: Manager, now: int, steps: seq<Timed>)
    requires Run(g, now, steps)
    decreases |steps|
  {
    steps != [] ==>
      && Punctual(g.medium, steps[0].now, steps[0].ev)
      && PunctualRun(Step(g, steps[0].now, steps[0].ev), steps[0].now, steps[1..])
  }

  /** The busy stretches of a run, one between each event and the next. */
  ghost function BusyStretches(g: Manager, now: int, steps: seq<Timed>): set<Stretch>
    requires Run(g, now, steps)
    decreases |steps|
  {
    if steps == [] then {}
    else
      {During(g.medium, now, steps[0].now)}
      + BusyStretches(Step(g, steps[0].now, steps[0].ev), steps[0].now, steps[1..])
  }

  /** Over any punctual run, no counted slot meets a busy instant. */
  lemma {:induction false} RunStaysQuiet(g: Manager, now: int, steps: seq<Timed>, busy: set<Stretch>)
    requires Logged(g, now) && Quiet(g, now, busy) && Run(g, now, steps) && PunctualRun(g, now, steps)
    ensures Quiet(After(g, now, steps), TimeAfter(now, steps), busy + BusyStretches(g, now, steps))
    decreases |steps|
  {
    hide Quiet, Step, Admissible, LogOk, During;
    if steps == [] {
      assert busy + BusyStretches(g, now, steps) == busy;
    } else {
      var t, ev, h := steps[0].now, steps[0].ev, During(g.medium, now, steps[0].now);
      TimePasses(g, now, t, busy);
      LaterKeepsLogs(g, now, t);
      StepKeepsLogs(g, t, ev);
      StepStaysQuiet(g, t, ev, busy + {h});
      RunStaysQuiet(Step(g, t, ev), t, steps[1..], busy + {h});
      assert busy + {h} + BusyStretches(Step(g, t, ev), t, steps[1..]) == busy + BusyStretches(g, now, steps);
    }
  }

  lemma NothingBusyYet(g: Manager, now: int)
    ensures Quiet(g, now, {})
  {
  }

  /**
   A state granted at the end of any punctual run has waited through its whole backoff in
   slots none of which holds an instant at which the medium was busy.
   */
  lemma GrantedAfterQuietSlots(g: Manager, now: int, steps: seq<Timed>, t: int, ev: Event, k: nat)
    requires Logged(g, now) && Run(g, now, steps) && PunctualRun(g, now, steps) && TimeAfter(now, steps) <= t
    requires var e := After(g, now, steps);
             Configured(e.medium) && Admissible(e, t, ev) && Punctual(e.medium, t, ev) && Grants(e, t, ev, k)
    ensures var e := After(g, now, steps);
            var d := BeforeGrant(e, t, ev).dcfs[k];
            var whole := Advanced(e.medium, d, d.slots).log;
            && |whole.counted| == d.log.total
            && AvoidsAll(e.medium, whole.counted,
                BusyStretches(g, now, steps) + {During(e.medium, TimeAfter(now, steps), t)})
  {
    hide Quiet, Step, Admissible, LogOk, During, AvoidsAll, Advanced, Grants, BeforeGrant;
    NothingBusyYet(g, now);
    RunStaysQuiet(g, now, steps, {});
    RunKeepsLogs(g, now, steps);
    var e, last := After(g, now, steps), TimeAfter(now, steps);
    var busy := BusyStretches(g, now, steps);
    assert {} + busy == busy;
    TimePasses(e, last, t, busy);
    LaterKeepsLogs(e, last, t);
    GrantedQuiet(e, t, ev, k, busy + {During(e.medium, last, t)});
  }

  lemma GrantedQuiet(g: Manager, now: int, ev: Event, k: nat, busy: set<Stretch>)
    requires Logged(g, now) && Quiet(g, now, busy) && Admissible(g, now, ev) && Grants(g, now, ev, k)
    ensures var d := BeforeGrant(g, now, ev).dcfs[k];
            var whole := Advanced(g.medium, d, d.slots).log;
            |whole.counted| == d.log.total && AvoidsAll(g.medium, whole.counted, busy)
  {
    hide AvoidsAll, Over, Advanced, UpdateAll, Requested;
    GrantedAfterWholeBackoff(g, now, ev, k);
    if ev.RequestAccess? {
      RequestStaysQuiet(g, now, ev.i, ev.draw, busy);
    } else {
      MediumStaysQuiet(g, g.(timer := Off), now, busy);
      UpdateStaysQuiet(g.(timer := Off), now, busy);
    }
    var d := BeforeGrant(g, now, ev).dcfs[k];
    AdvancedAvoids(g.medium, d, d.slots, now, busy);
  }
}
