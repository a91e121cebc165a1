/**
 What each event does, stated on the ends of busy times, on slots and on the timer, and not
 on the functions that compute the steps.
 */
module DcfEvents {
  import opened Numbers
  import opened DcfTiming
  import opened DcfSteps
  import opened DcfRuns
  import opened DcfTimer

  // ---------------------------------------------------------------------------
  // When access is possible.

  function TxEnd(m: Medium): int {
    m.txStart + m.txDuration
  }

  function NavEnd(m: Medium): int {
    m.navStart + m.navDuration
  }

  function CcaEnd(m: Medium): int {
    m.busyStart + m.busyDuration
  }

  function SwitchingEnd(m: Medium): int {
    m.switchingStart + m.switchingDuration
  }

  /**
   `wait` after the medium has been left alone for a SIFS, or longer after a reception with errors,
   is not over at `t`.
   */
  predicate Clear(m: Medium, wait: int, t: int) {
    && (if m.rxing then m.rxStart + m.rxDuration + m.sifs + wait <= t
        else if m.rxReceivedOk then m.rxEnd + m.sifs + wait <= t
        else m.rxEnd + m.eifsNoDifs + m.sifs + wait <= t)
    && CcaEnd(m) + m.sifs + wait <= t && TxEnd(m) + m.sifs + wait <= t && NavEnd(m) + m.sifs + wait <= t
    && m.ackTimeoutEnd + m.sifs + wait <= t && m.ctsTimeoutEnd + m.sifs + wait <= t
    && SwitchingEnd(m) + m.sifs + wait <= t
  }

  /** The access grant start, exactly. */
  lemma GrantStartIff(m: Medium, t: int)
    ensures GrantStart(m) <= t <==> Clear(m, 0, t)
  {
  }

  /**
   A state may be granted exactly when it is requesting, its slots have passed since its backoff
   began, and its AIFSN slots and its slots have passed since a SIFS after every busy time.
   */
  lemma EligibleIff(m: Medium, d: Dcf, t: int)
    ensures var slots, aifs := MICROSECOND * (d.slots * m.slotUs), MICROSECOND * (d.aifsn * m.slotUs);
            Eligible(m, d, t) <==> d.requested && d.start + slots <= t && Clear(m, aifs + slots, t)
  {
    hide GrantStart;
    var slots, aifs := SlotTimes(m, d.slots), SlotTimes(m, d.aifsn);
    GrantStartIff(m, t - aifs - slots);
  }

  // ---------------------------------------------------------------------------
  // The medium.

  /** The transmission with which the event answers a grant, if it grants one that transmits. */
  ghost predicate Sends(g: Manager, now: int, ev: Event)
    requires Configured(g.medium) && Admissible(g, now, ev)
  {
    && (ev.AccessTimeout? || (ev.RequestAccess? && !g.sleeping))
    && FirstEligible(BeforeGrant(g, now, ev), now, 0) < |g.dcfs|
    && ev.tx.Transmit?
  }

  lemma NoPassWithoutGrant(g: Manager, now: int, ev: Event)
    requires Configured(g.medium) && Admissible(g, now, ev) && (ev.AccessTimeout? || ev.RequestAccess?)
    ensures !Sends(g, now, ev) ==> Step(g, now, ev).medium == g.medium
    ensures Sends(g, now, ev) ==>
              Step(g, now, ev).medium ==
                RxCut(ReplyAwaited(g.medium, now, ev.tx.reply), now).(txStart := now, txDuration := ev.tx.duration)
  {
    hide UpdateAll, Eligible, Restart;
  }

  /** Transmissions end as announced by the last one begun. */
  lemma TxEndAfter(g: Manager, now: int, ev: Event)
    requires Configured(g.medium) && Admissible(g, now, ev)
    ensures TxEnd(Step(g, now, ev).medium) ==
              if Sends(g, now, ev) then now + ev.tx.duration
              else if ev.TxStart? then now + ev.duration
              else TxEnd(g.medium)
  {
    hide Sends, UpdateAll, Restart, AfterRequest, AfterTimeout;
    if ev.AccessTimeout? || ev.RequestAccess? {
      NoPassWithoutGrant(g, now, ev);
    } else {
      DoesNotSend(g, now, ev);
    }
  }

  lemma DoesNotSend(g: Manager, now: int, ev: Event)
    requires Configured(g.medium) && Admissible(g, now, ev) && !ev.AccessTimeout? && !ev.RequestAccess?
    ensures !Sends(g, now, ev)
  {
  }

  /** The NAV is set by a reset, only ever extended by a start, and cut by channel switching. */
  lemma NavEndAfter(g: Manager, now: int, ev: Event)
    requires Configured(g.medium) && Admissible(g, now, ev)
    ensures NavEnd(Step(g, now, ev).medium) ==
              if ev.NavReset? then now + ev.duration
              else if ev.NavStart? then Max(NavEnd(g.medium), now + ev.duration)
              else if ev.Switching? then Min(NavEnd(g.medium), now)
              else NavEnd(g.medium)
  {
    hide Sends, UpdateAll, Restart, AfterRequest, AfterTimeout;
    if ev.AccessTimeout? || ev.RequestAccess? {
      NoPassWithoutGrant(g, now, ev);
    }
  }

  lemma CcaEndAfter(g: Manager, now: int, ev: Event)
    requires Configured(g.medium) && Admissible(g, now, ev)
    ensures CcaEnd(Step(g, now, ev).medium) ==
              if ev.CcaBusy? then now + ev.duration
              else if ev.Switching? then Min(CcaEnd(g.medium), now)
              else CcaEnd(g.medium)
    ensures SwitchingEnd(Step(g, now, ev).medium) ==
              if ev.Switching? then now + ev.duration else SwitchingEnd(g.medium)
  {
    hide Sends, UpdateAll, Restart, AfterRequest, AfterTimeout;
    if ev.AccessTimeout? || ev.RequestAccess? {
      NoPassWithoutGrant(g, now, ev);
    }
  }

  /** Answers are awaited until the announced timeout, a reset, or channel switching. */
  lemma TimeoutEndsAfter(g: Manager, now: int, ev: Event)
    requires Configured(g.medium) && Admissible(g, now, ev)
    ensures Step(g, now, ev).medium.ackTimeoutEnd ==
              if Sends(g, now, ev) && ev.tx.reply.AwaitAck? then now + ev.tx.reply.timeout
              else if ev.AckTimeoutStart? then now + ev.duration
              else if ev.AckTimeoutReset? then now
              else if ev.Switching? then Min(g.medium.ackTimeoutEnd, now)
              else g.medium.ackTimeoutEnd
    ensures Step(g, now, ev).medium.ctsTimeoutEnd ==
              if Sends(g, now, ev) && ev.tx.reply.AwaitCts? then now + ev.tx.reply.timeout
              else if ev.CtsTimeoutStart? then now + ev.duration
              else if ev.CtsTimeoutReset? then now
              else if ev.Switching? then Min(g.medium.ctsTimeoutEnd, now)
              else g.medium.ctsTimeoutEnd
  {
    hide BeforeGrant, FirstEligible, UpdateAll, Restart, AfterRequest, AfterTimeout;
    if ev.AccessTimeout? || ev.RequestAccess? {
      NoPassWithoutGrant(g, now, ev);
    } else {
      DoesNotSend(g, now, ev);
    }
  }

  /**
   A reception is on from its start until its end, a transmission or channel switching, which count
   as correct ends.
   */
  lemma ReceptionAfter(g: Manager, now: int, ev: Event)
    requires Configured(g.medium) && Admissible(g, now, ev)
    ensures var m, m' := g.medium, Step(g, now, ev).medium;
            var cut := m.rxing && (ev.TxStart? || ev.Switching? || Sends(g, now, ev));
            && m'.rxing == (ev.RxStart? || (m.rxing && !ev.RxEndOk? && !ev.RxEndError? && !cut))
            && (m'.rxing ==>
                  m'.rxStart + m'.rxDuration == if ev.RxStart? then now + ev.duration else m.rxStart + m.rxDuration)
            && (!m'.rxing ==>
                  && m'.rxEnd == (if ev.RxEndOk? || ev.RxEndError? || cut then now else m.rxEnd)
                  && m'.rxReceivedOk ==
                      if ev.RxEndOk? || cut then true else if ev.RxEndError? then false else m.rxReceivedOk)
  {
    hide Sends, UpdateAll, Restart, AfterRequest, AfterTimeout;
    if ev.AccessTimeout? || ev.RequestAccess? {
      NoPassWithoutGrant(g, now, ev);
    } else {
      DoesNotSend(g, now, ev);
    }
  }

  /** After a NAV start no request is served before the announced end of the NAV. */
  lemma NavIsObeyed(g: Manager, now: int, duration: int, i: nat, t: int)
    requires Configured(g.medium) && Admissible(g, now, NavStart(duration)) && i < |g.dcfs| && 0 <= g.medium.sifs
    requires var g' := Step(g, now, NavStart(duration)); Eligible(g'.medium, g'.dcfs[i], t)
    ensures now + duration <= t && NavEnd(g.medium) <= t
  {
    hide UpdateAll, Step;
    NavEndAfter(g, now, NavStart(duration));
    var g' := Step(g, now, NavStart(duration));
    EligibleIff(g'.medium, g'.dcfs[i], t);
    SlotTimesOrder(g'.medium, 0, g'.dcfs[i].aifsn);
  }

  // ---------------------------------------------------------------------------
  // The backoffs.

  /** The events that leave every backoff alone. */
  predicate LeavesBackoffs(ev: Event) {
    || ev.RxEndOk? || ev.RxEndError? || ev.Sleep? || ev.AckTimeoutStart? || ev.AckTimeoutReset?
    || ev.CtsTimeoutStart? || ev.CtsTimeoutReset?
  }

  lemma BackoffsLeftAlone(g: Manager, now: int, ev: Event)
    requires Configured(g.medium) && Admissible(g, now, ev) && LeavesBackoffs(ev)
    ensures Step(g, now, ev).dcfs == g.dcfs
  {
    hide Restart;
  }

  /** Events of the medium that update count what has passed under the medium they found, and nothing else. */
  lemma BackoffsCounted(g: Manager, now: int, ev: Event)
    requires Configured(g.medium) && Admissible(g, now, ev)
    requires ev.RxStart? || ev.CcaBusy? || ev.NavStart? || (ev.TxStart? && !g.medium.rxing)
    ensures Step(g, now, ev).dcfs == UpdateAll(g, now).dcfs
  {
    hide UpdateAll;
    assert ev.TxStart? ==> g.(medium := g.medium) == g && RxCut(g.medium, now) == g.medium;
  }

  /** A new backoff of one state begins now with all its slots. */
  lemma BackoffBegins(g: Manager, now: int, i: nat, n: nat, k: nat)
    requires Configured(g.medium) && Admissible(g, now, BeginBackoff(i, n)) && k < |g.dcfs|
    ensures var d, d' := g.dcfs[k], Step(g, now, BeginBackoff(i, n)).dcfs[k];
            if k == i then d'.slots == n && d'.start == now && d'.log == Log(n, now, []) && d'.requested == d.requested
            else d' == d
  {
  }

  /** Channel switching and wake-up leave no slot and no request, and the smallest window. */
  lemma BackoffsDropped(g: Manager, now: int, ev: Event, k: nat)
    requires Configured(g.medium) && Admissible(g, now, ev) && (ev.Switching? || ev.Wakeup?) && k < |g.dcfs|
    ensures var d, d' := g.dcfs[k], Step(g, now, ev).dcfs[k];
            && d'.slots == 0 && !d'.requested && d'.cw == d.cwMin
            && d'.cwMin == d.cwMin && d'.cwMax == d.cwMax && d'.aifsn == d.aifsn
            && d'.start == if d.slots > 0 then now else d.start
    ensures ev.Wakeup? ==> !Step(g, now, ev).sleeping
    ensures ev.Switching? ==> Step(g, now, ev).timer == Off
  {
  }

  /** Whether something on the medium makes a request collide. */
  predicate OnAir(m: Medium, now: int) {
    m.rxing || now < TxEnd(m) || now < NavEnd(m)
  }

  /** Some state before `i` is served first. */
  ghost predicate ServedBefore(g: Manager, now: int, i: nat)
    requires i < |g.dcfs|
  {
    exists j :: 0 <= j < i && Eligible(g.medium, g.dcfs[j], now)
  }

  /**
   The backoff of a state after its request. With no slots left and the medium busy, it is a
   new one of as many slots as were drawn; if the state is due at once but another one is
   served first, it is a new one of the other draw; otherwise it is what the update left.
   */
  lemma RequestBackoff(g: Manager, now: int, i: nat, draw: nat, tx: Transmission, draws: seq<nat>)
    requires Configured(g.medium) && !g.sleeping && 0 < g.medium.sifs && Timely(g.medium, now) && Answerable(tx)
    requires i < |g.dcfs| == |draws|
    ensures var u, d := UpdateAll(g, now).dcfs[i], AfterRequest(g, now, i, draw, tx, draws).dcfs[i];
            if u.slots == 0 && OnAir(g.medium, now) then
              d.slots == draw && d.start == now && d.log == Log(draw, now, []) && d.requested
            else if ServedBefore(g, now, i) && BackoffEnd(g.medium, g.dcfs[i]) <= now then
              d.slots == draws[i] && d.start == now && d.log == Log(draws[i], now, []) && d.requested
            else
              && d.slots == u.slots && d.start == u.start && d.log == u.log
              && d.requested == (now < BackoffEnd(g.medium, g.dcfs[i]))
  {
    hide Updated, Eligible, BackoffEnd, GrantPass, Exact, Restart;
    var r := Requested(g, now, i, draw);
    RequestPassExact(g, now, i, draw, tx, draws, i);
    OnAirIsBusy(g.medium, now);
    forall k: nat | k < |g.dcfs|
      ensures Eligible(r.medium, r.dcfs[k], now) <==> Eligible(g.medium, Asked(g, i).dcfs[k], now)
    {
      RequestedEligible(g, now, i, draw, k);
    }
    AskedEligible(g, now, i);
    BusyMeansNobody(g, now, i);
    var first := FirstEligible(r, now, 0);
    assert first < i <==> ServedBefore(g, now, i);
  }

  lemma OnAirIsBusy(m: Medium, now: int)
    ensures OnAir(m, now) <==> IsBusy(m, now)
  {
  }

  lemma AskedEligible(g: Manager, now: int, i: nat)
    requires i < |g.dcfs|
    ensures Eligible(g.medium, Asked(g, i).dcfs[i], now) <==> BackoffEnd(g.medium, g.dcfs[i]) <= now
    ensures forall k :: 0 <= k < |g.dcfs| && k != i ==> Asked(g, i).dcfs[k] == g.dcfs[k]
  {
    FlagKeepsEnd(g.medium, g.dcfs[i]);
  }

  lemma BusyMeansNobody(g: Manager, now: int, i: nat)
    requires i < |g.dcfs| && 0 < g.medium.sifs && Timely(g.medium, now)
    ensures OnAir(g.medium, now) ==> forall k :: 0 <= k < |g.dcfs| ==> !Eligible(g.medium, Asked(g, i).dcfs[k], now)
  {
    hide Eligible;
    forall k | 0 <= k < |g.dcfs| && OnAir(g.medium, now)
      ensures !Eligible(g.medium, Asked(g, i).dcfs[k], now)
    {
      if Eligible(g.medium, Asked(g, i).dcfs[k], now) {
        GrantOnlyWhenIdle(g.medium, Asked(g, i).dcfs[k], now);
        OnAirIsBusy(g.medium, now);
      }
    }
  }

  /** So a request on a busy medium is not served before the slots it drew have passed. */
  lemma CollisionWaits(g: Manager, now: int, i: nat, draw: nat, tx: Transmission, draws: seq<nat>, m: Medium, t: int)
    requires Configured(g.medium) && !g.sleeping && 0 < g.medium.sifs && Timely(g.medium, now) && Answerable(tx)
    requires i < |g.dcfs| == |draws| && UpdateAll(g, now).dcfs[i].slots == 0 && OnAir(g.medium, now)
    requires m.slotUs == g.medium.slotUs && Eligible(m, AfterRequest(g, now, i, draw, tx, draws).dcfs[i], t)
    ensures now + MICROSECOND * (draw * g.medium.slotUs) <= t
  {
    hide AfterRequest, Updated, Clear, Eligible, GrantStart;
    RequestBackoff(g, now, i, draw, tx, draws);
    EligibleIff(m, AfterRequest(g, now, i, draw, tx, draws).dcfs[i], t);
  }

  // ---------------------------------------------------------------------------
  // The timer.

  /** A requesting state whose backoff ends later. */
  ghost predicate Ahead(g: Manager, now: int, i: nat) {
    i < |g.dcfs| && g.dcfs[i].requested && now < BackoffEnd(g.medium, g.dcfs[i])
  }

  /** `timer` is the earlier of `before` and the first backoff end ahead. */
  ghost predicate Rearmed(g: Manager, now: int, before: Timer, timer: Timer) {
    if forall i: nat :: !Ahead(g, now, i) then timer == before
    else
      && timer.At? && (before.At? ==> timer.expiry <= before.expiry)
      && (forall i: nat :: Ahead(g, now, i) ==> timer.expiry <= BackoffEnd(g.medium, g.dcfs[i]))
      && (timer == before || exists i: nat :: Ahead(g, now, i) && timer.expiry == BackoffEnd(g.medium, g.dcfs[i]))
  }

  /** Re-arming leaves the earlier of the old timer and the first backoff end ahead. */
  lemma RestartExact(g: Manager, now: int)
    ensures Rearmed(g, now, g.timer, Restart(g, now).timer)
  {
    hide BackoffEnd, EarliestEnd;
    EarliestIsReached(g, now, |g.dcfs|);
    var e := EarliestEnd(g, now, |g.dcfs|);
    assert forall i: nat :: Ahead(g, now, i) ==> e.Soonest? && e.end <= BackoffEnd(g.medium, g.dcfs[i]);
  }

  lemma {:induction false} EarliestIsReached(g: Manager, now: int, n: nat)
    requires n <= |g.dcfs|
    ensures var e := EarliestEnd(g, now, n);
            e.Soonest? ==> exists i: nat :: i < n && Ahead(g, now, i) && e.end == BackoffEnd(g.medium, g.dcfs[i])
  {
    hide BackoffEnd;
    if n > 0 {
      EarliestIsReached(g, now, n - 1);
      assert Ahead(g, now, n - 1) <==> g.dcfs[n - 1].requested && now < BackoffEnd(g.medium, g.dcfs[n - 1]);
    }
  }

  /**
   The timer after an event: re-armed by what may change a wait for the shorter or serve a
   request, off in sleep and during channel switching, and otherwise as it was.
   */
  lemma TimerAfter(g: Manager, now: int, ev: Event)
    requires Configured(g.medium) && Admissible(g, now, ev)
    ensures var g' := Step(g, now, ev);
            && g'.sleeping == (ev.Sleep? || (g.sleeping && !ev.Wakeup?))
            && if ev.Sleep? || ev.Switching? then g'.timer == Off
               else if ev.AccessTimeout? then Rearmed(g', now, Off, g'.timer)
               else if
                 (ev.RequestAccess? && !g.sleeping) || ev.NavReset? || ev.AckTimeoutReset? || ev.CtsTimeoutReset?
               then
                 Rearmed(g', now, g.timer, g'.timer)
               else g'.timer == g.timer
  {
    hide Restart, UpdateAll, Requested, BackoffEnd, Collided, Transmitted, Eligible;
    match ev
    case RequestAccess(i, draw, tx, draws) =>
      if !g.sleeping {
        RestartRearms(GrantPass(Requested(g, now, i, draw), now, tx, draws), now);
        PassKeepsTimer(Requested(g, now, i, draw), now, tx, draws);
      }
    case AccessTimeout(tx, draws) =>
      RestartRearms(GrantPass(UpdateAll(g.(timer := Off), now), now, tx, draws), now);
      PassKeepsTimer(UpdateAll(g.(timer := Off), now), now, tx, draws);
    case NavReset(duration) =>
      var g' := UpdateAll(g, now).(medium := g.medium.(navStart := now, navDuration := duration));
      RestartRearms(UpdateAll(g', now), now);
    case AckTimeoutReset => RestartRearms(g.(medium := g.medium.(ackTimeoutEnd := now)), now);
    case CtsTimeoutReset => RestartRearms(g.(medium := g.medium.(ctsTimeoutEnd := now)), now);
    case _ =>
  }

  lemma PassKeepsTimer(g: Manager, now: int, tx: Transmission, draws: seq<nat>)
    requires Configured(g.medium) && |draws| == |g.dcfs|
    ensures GrantPass(g, now, tx, draws).timer == g.timer && GrantPass(g, now, tx, draws).sleeping == g.sleeping
  {
    hide UpdateAll, Eligible;
  }

  lemma RestartRearms(g: Manager, now: int)
    ensures Rearmed(Restart(g, now), now, g.timer, Restart(g, now).timer)
  {
    hide Restart, BackoffEnd;
    RestartExact(g, now);
    var r := Restart(g, now);
    assert forall i: nat :: Ahead(r, now, i) <==> Ahead(g, now, i);
  }
}
