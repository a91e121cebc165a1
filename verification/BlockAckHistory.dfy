/**
 Behind the window: the array still holds the record of numbers received up to one lap ago,
 and an old block ack request is answered from it.
 */
module BlockAckHistory {
  import opened IndexSums
  import opened Scoreboard
  import opened BlockAckResponse

  /** A request beyond the window moves it without clearing what lies in between. */
  ghost function SkippedBy(b: Board, e: Event): set<nat> {
    match e
    case Mpdu(u, f) => {}
    case Bar(u) => All(u) - All(b.start + b.size)
  }

  ghost function SkippedRun(b: Board, events: seq<Event>): set<nat> {
    if events == [] then {}
    else
      var k := |events| - 1;
      SkippedRun(b, events[..k]) + SkippedBy(BoardRun(b, events[..k]), events[k])
  }

  /**
   What the entry of `x` holds: its own fragments, or, if a request jumped over `x`, whatever
   the number one lap before left there.
   */
  ghost function Entry(b: Board, skipped: set<nat>, x: int): Word
    decreases if x < 0 then 0 else x + 1
  {
    if x < 0 then {}
    else if x !in skipped then Fragments(b, x)
    else Entry(b, skipped, x - MODULUS)
  }

  /** The whole array stands for the record: one entry for each of the last 4096 numbers up to the window's end. */
  ghost predicate Stands(c: Cache, b: Board, skipped: set<nat>)
    requires Shape(c)
  {
    && (forall x :: x in skipped ==> x < b.start)
    && (forall x: int :: x < b.start + b.size <= x + MODULUS ==> c.bitmap[x % MODULUS] == Entry(b, skipped, x))
  }

  lemma InitialStands(start: nat, winSize: nat)
    requires 1 <= winSize
    ensures var size := if winSize <= 64 then winSize else 64;
            Stands(Initial(Wrapped(start), winSize), Board(start, size, {}), {})
  {
  }

  /** The entry comes from the latest number of its residue that was not jumped over, if there is one. */
  lemma {:induction false} EntryFrom(b: Board, skipped: set<nat>, x: int) returns (y: int)
    ensures y <= x && y % MODULUS == x % MODULUS && (y < 0 || y !in skipped)
    ensures forall z: nat :: y < z <= x && z % MODULUS == x % MODULUS ==> z in skipped
    ensures Entry(b, skipped, x) == if y < 0 then {} else Fragments(b, y)
    decreases if x < 0 then 0 else x + 1
  {
    y := x;
    if x >= 0 && x in skipped {
      y := EntryFrom(b, skipped, x - MODULUS);
      LapBefore(x);
      forall z: nat | y < z <= x && z % MODULUS == x % MODULUS
        ensures z in skipped
      {
        if x - MODULUS < z {
          SameResidue(z, x);
        }
      }
    }
  }

  lemma LapBefore(x: int)
    ensures (x - MODULUS) % MODULUS == x % MODULUS
  {
  }

  lemma SameResidue(z: int, x: int)
    requires x - MODULUS < z <= x && z % MODULUS == x % MODULUS
    ensures z == x
  {
  }

  /** Numbers less than a lap apart have different entries. */
  lemma DifferentResidues(x: int, y: int)
    requires x != y && x < y + MODULUS && y < x + MODULUS
    ensures x % MODULUS != y % MODULUS
  {
    if x % MODULUS == y % MODULUS {
      if x < y {
        SameResidue(x, y);
      } else {
        SameResidue(y, x);
      }
    }
  }

  /** Clearing an interval of numbers, as seen from any number of the lap that ends with it. */
  lemma ResetInLap(bitmap: seq<Word>, from: nat, to: nat, x: int)
    requires |bitmap| == MODULUS && from <= to < from + MODULUS && x <= to < x + MODULUS
    ensures ResetPortion(bitmap, Wrapped(from), Wrapped(to))[x % MODULUS] ==
              if from <= x then {} else bitmap[x % MODULUS]
  {
    hide ResetPortion;
    ResetEntry(bitmap, from + MODULUS, to + MODULUS, to + 1, x + MODULUS);
    NextLap(from);
    NextLap(to);
    NextLap(x);
  }

  lemma NextLap(x: int)
    ensures (x + MODULUS) % MODULUS == x % MODULUS
  {
  }

  // ---------------------------------------------------------------------------
  // Entries and records.

  lemma {:induction false} EntryDependsOnGot(a: Board, b: Board, skipped: set<nat>, x: int)
    requires a.got == b.got
    ensures Entry(a, skipped, x) == Entry(b, skipped, x)
    decreases if x < 0 then 0 else x + 1
  {
    if x >= 0 {
      FragmentsDependOnGot(a, b, x);
      EntryDependsOnGot(a, b, skipped, x - MODULUS);
    }
  }

  /** An MPDU does not touch the entries of other numbers up to a lap later. */
  lemma {:induction false} EntryOfOther(b: Board, skipped: set<nat>, u: nat, f: nat, x: int)
    requires b.start <= u && x != u && x < u + MODULUS
    ensures Entry(BoardMpdu(b, u, f), skipped, x) == Entry(b, skipped, x)
    decreases if x < 0 then 0 else x + 1
  {
    hide Fragments;
    if x >= 0 {
      BoardMpduFragments(b, u, f, x);
      EntryOfOther(b, skipped, u, f, x - MODULUS);
    }
  }

  /** Numbers jumped over later do not matter to earlier entries. */
  lemma {:induction false} EntryBefore(b: Board, skipped: set<nat>, more: set<nat>, x: int)
    requires forall y :: y in more ==> x < y
    ensures Entry(b, skipped + more, x) == Entry(b, skipped, x)
    decreases if x < 0 then 0 else x + 1
  {
    hide Fragments;
    if x >= 0 {
      EntryBefore(b, skipped, more, x - MODULUS);
    }
  }

  // ---------------------------------------------------------------------------
  // Each operation keeps the array standing for the record.

  lemma MpduStands(c: Cache, b: Board, skipped: set<nat>, u: nat, f: nat)
    requires Agrees(c, b) && Stands(c, b, skipped) && HalfRange(b, u)
    requires Agrees(CacheStep(c, Mpdu(u, f)), BoardMpdu(b, u, f))
    ensures Stands(CacheStep(c, Mpdu(u, f)), BoardMpdu(b, u, f), skipped)
  {
    hide Fragments, ResetPortion, IsOld, IsInWindow, Slide;
    OldIffBefore(c, b, u);
    if u >= b.start {
      var c', b' := CacheStep(c, Mpdu(u, f)), BoardMpdu(b, u, f);
      forall x: int | x < b'.start + b'.size <= x + MODULUS
        ensures c'.bitmap[x % MODULUS] == Entry(b', skipped, x)
      {
        if x == u {
          assert InWindow(b', u) && c'.bitmap[Wrapped(u)] == Fragments(b', u);
        } else {
          DifferentResidues(x, u);
          EntryOfOther(b, skipped, u, f, x);
          if !InWindow(b, u) {
            SlideStands(c, b, skipped, u, x);
          }
        }
      }
    }
  }

  lemma SlideStands(c: Cache, b: Board, skipped: set<nat>, u: nat, x: int)
    requires Agrees(c, b) && Stands(c, b, skipped) && b.start + b.size <= u < b.start + 2048 && x < u < x + MODULUS
    ensures Slide(c, Wrapped(u)).bitmap[x % MODULUS] == Entry(b, skipped, x)
  {
    hide Wrapped, ResetPortion, Slide, Fragments;
    SlideClears(c, b, u);
    var end := b.start + b.size - 1;
    if u - end > 1 {
      ResetInLap(c.bitmap, end + 1, u - 1, x);
    }
    if x > end {
      NeverGot(b, x);
    }
  }

  lemma BarStands(c: Cache, b: Board, skipped: set<nat>, u: nat)
    requires Agrees(c, b) && Stands(c, b, skipped) && HalfRange(b, u)
    ensures Stands(CacheStep(c, Bar(u)), BoardBar(b, u), skipped + SkippedBy(b, Bar(u)))
  {
    hide Wrapped, Fragments, ResetPortion, IsOld, IsInWindow, AfterBar;
    BarKeeps(c, b, u);
    if u > b.start {
      forall x: int | x < u + b.size <= x + MODULUS
        ensures CacheStep(c, Bar(u)).bitmap[x % MODULUS] == Entry(BoardBar(b, u), skipped + SkippedBy(b, Bar(u)), x)
      {
        BarEntryStands(c, b, skipped, u, x);
      }
    } else {
      assert skipped + SkippedBy(b, Bar(u)) == skipped;
    }
  }

  lemma BarEntryStands(c: Cache, b: Board, skipped: set<nat>, u: nat, x: int)
    requires Agrees(c, b) && Stands(c, b, skipped) && HalfRange(b, u) && b.start < u && x < u + b.size <= x + MODULUS
    ensures CacheStep(c, Bar(u)).bitmap[x % MODULUS] == Entry(BoardBar(b, u), skipped + SkippedBy(b, Bar(u)), x)
  {
    hide Wrapped, Fragments, ResetPortion, IsOld, IsInWindow, AfterBar;
    var end, more := b.start + b.size, SkippedBy(b, Bar(u));
    BarClears(c, b, u);
    ResetInLap(c.bitmap, if InWindow(b, u) then end else u, u + b.size - 1, x);
    EntryDependsOnGot(BoardBar(b, u), b, skipped + more, x);
    if x < end {
      EntryBefore(b, skipped, more, x);
    } else if x in more {
      EntryBefore(b, skipped, more, x - MODULUS);
      LapBefore(x);
    } else {
      NeverGot(b, x);
    }
  }

  /** A request that is old, or for the window's own start, changes nothing. */
  lemma BarKeeps(c: Cache, b: Board, u: nat)
    requires Agrees(c, b) && HalfRange(b, u)
    ensures u <= b.start ==> AfterBar(c, Wrapped(u)) == c && BoardBar(b, u) == b
  {
    hide ResetPortion;
    OldIffBefore(c, b, u);
  }

  /** Over any unfragmented run the whole array stands for the record. */
  lemma {:induction false} RunStands(c: Cache, b: Board, events: seq<Event>)
    requires Agrees(c, b) && OnlyFirstFragments(c) && Stands(c, b, {})
    requires Unfragmented(events) && Placeable(b, events)
    ensures Agrees(CacheRun(c, events), BoardRun(b, events))
    ensures Stands(CacheRun(c, events), BoardRun(b, events), SkippedRun(b, events))
  {
    hide AfterMpdu, AfterBar, Stands, OnlyFirstFragments;
    UnfragmentedRunAgrees(c, b, events);
    if events != [] {
      var k := |events| - 1;
      RunStands(c, b, events[..k]);
      var ck, bk, skipped := CacheRun(c, events[..k]), BoardRun(b, events[..k]), SkippedRun(b, events[..k]);
      match events[k]
      case Mpdu(u, f) =>
        MpduStands(ck, bk, skipped, u, f);
        assert skipped + SkippedBy(bk, events[k]) == skipped;
      case Bar(u) => BarStands(ck, bk, skipped, u);
    }
  }

  /** A skipped number lies behind the window for good, and is never received. */
  lemma {:induction false} SkippedNeverReceived(b: Board, events: seq<Event>, x: nat)
    requires forall p :: p in b.got ==> p.0 < b.start + b.size
    requires x in SkippedRun(b, events)
    ensures x < BoardRun(b, events).start && Fragments(BoardRun(b, events), x) == {}
  {
    hide Fragments;
    var k := |events| - 1;
    var bk := BoardRun(b, events[..k]);
    FragmentsDependOnGot(BoardBar(bk, events[k].u), bk, x);
    if x in SkippedRun(b, events[..k]) {
      SkippedNeverReceived(b, events[..k], x);
      if events[k].Mpdu? && bk.start <= events[k].u {
        BoardMpduFragments(bk, events[k].u, events[k].f, x);
      }
    } else {
      GotBelowEnd(b, events[..k]);
      NeverGot(bk, x);
    }
  }

  lemma {:induction false} GotBelowEnd(b: Board, events: seq<Event>)
    requires forall p :: p in b.got ==> p.0 < b.start + b.size
    ensures forall p :: p in BoardRun(b, events).got ==> p.0 < BoardRun(b, events).start + BoardRun(b, events).size
  {
    if events != [] {
      GotBelowEnd(b, events[..|events| - 1]);
    }
  }

  // ---------------------------------------------------------------------------
  // Requests, old or not.

  /** An old request changes nothing and is answered from the entries as they are. */
  lemma OldResponse(c: Cache, b: Board, u: nat, x: nat)
    requires Agrees(c, b) && HalfRange(b, u) && u < b.start && u <= x < u + MODULUS
    ensures IsPacketReceived(Filled(CacheStep(c, Bar(u)), Response(Wrapped(u), {})), Wrapped(x)) <==>
              x < u + b.size && c.bitmap[Wrapped(x)] == {0}
  {
    hide AfterBar;
    BarKeeps(c, b, u);
    FilledExact(c, Wrapped(u), Wrapped(x));
    ModDistance(u, x);
  }

  /**
   The answer to any request after any unfragmented run, in terms of what was received: the
   acknowledged numbers are those of the request whose entry holds a whole packet, their own
   or, for a number jumped over, one from a lap before.
   */
  lemma ResponseFromHistory(c: Cache, b: Board, events: seq<Event>, u: nat, x: nat)
    requires Agrees(c, b) && OnlyFirstFragments(c) && Stands(c, b, {})
    requires Unfragmented(events) && Placeable(b, events)
    requires HalfRange(BoardRun(b, events), u) && u <= x < u + MODULUS
    ensures var bk := BoardRun(b, events);
            IsPacketReceived(ResponseTo(c, events, u), Wrapped(x)) <==>
              x < u + bk.size && Entry(bk, SkippedRun(b, events), x) == {0}
  {
    hide Filled, IsPacketReceived, OnlyFirstFragments, Fragments, Unfragmented, Placeable, SkippedRun;
    var ck, bk := CacheRun(c, events), BoardRun(b, events);
    RunStands(c, b, events);
    if u < bk.start {
      OldResponse(ck, bk, u, x);
    } else {
      ResponseExact(ck, bk, u, x);
    }
  }

  /**
   The answer is right about a number if and only if no request jumped over it, or it lies
   outside this request, or nothing was received in the laps before that its entry still holds.
   */
  lemma ResponseRightIff(c: Cache, b: Board, events: seq<Event>, u: nat, x: nat)
    requires Agrees(c, b) && OnlyFirstFragments(c) && Stands(c, b, {})
    requires Unfragmented(events) && Placeable(b, events)
    requires HalfRange(BoardRun(b, events), u) && u <= x < u + MODULUS
    ensures var bk, skipped := BoardRun(b, events), SkippedRun(b, events);
            (IsPacketReceived(ResponseTo(c, events, u), Wrapped(x)) <==> x < u + bk.size && Fragments(bk, x) == {0})
            <==> (x !in skipped || u + bk.size <= x || Entry(bk, skipped, x - MODULUS) != {0})
  {
    hide Filled, IsPacketReceived, OnlyFirstFragments, Fragments, Wrapped, Stands;
    ResponseFromHistory(c, b, events, u, x);
    if x in SkippedRun(b, events) {
      SkippedNeverReceived(b, events, x);
    }
  }

  /**
   End to end for any request within half the space, old or not, and for every queued packet:
   what the originator drops, in terms of what was received.
   */
  lemma DroppedFromHistory(c: Cache, b: Board, events: seq<Event>, u: nat, queue: seq<Packet>, numbers: seq<nat>,
                           i: nat)
    requires Agrees(c, b) && OnlyFirstFragments(c) && Stands(c, b, {})
    requires Unfragmented(events) && Placeable(b, events) && HalfRange(BoardRun(b, events), u)
    requires Queued(queue, numbers, u) && Numbered(queue) && i < |queue|
    ensures var bk := BoardRun(b, events);
            queue[i] !in Lost(queue, ResponseTo(c, events, u)) <==>
              numbers[i] < u + bk.size && Entry(bk, SkippedRun(b, events), numbers[i]) == {0}
  {
    hide Filled, IsPacketReceived, Lost, OnlyFirstFragments, Stands, Wrapped, Unfragmented, Placeable, SkippedRun;
    ResponseFromHistory(c, b, events, u, numbers[i]);
    LostExact(queue, ResponseTo(c, events, u), queue[i]);
  }

  /**
   A packet is dropped although it was not received exactly when its number was jumped over and its
   entry is left from before.
   */
  lemma DroppedUnreceivedIff(c: Cache, b: Board, events: seq<Event>, u: nat, queue: seq<Packet>, numbers: seq<nat>,
                             i: nat)
    requires Agrees(c, b) && OnlyFirstFragments(c) && Stands(c, b, {}) && b.got == {}
    requires Unfragmented(events) && Placeable(b, events) && HalfRange(BoardRun(b, events), u)
    requires Queued(queue, numbers, u) && Numbered(queue) && i < |queue|
    ensures var bk, skipped, x := BoardRun(b, events), SkippedRun(b, events), numbers[i];
            queue[i] !in Lost(queue, ResponseTo(c, events, u)) && (x, 0) !in bk.got <==>
              x in skipped && x < u + bk.size && Entry(bk, skipped, x - MODULUS) == {0}
  {
    hide Filled, IsPacketReceived, Lost, OnlyFirstFragments, Stands, Wrapped, Placeable, SkippedRun, Fragments;
    var x := numbers[i];
    DroppedFromHistory(c, b, events, u, queue, numbers, i);
    OnlyZero(b, events, x);
    if x in SkippedRun(b, events) {
      SkippedNeverReceived(b, events, x);
    }
  }

  /**
   A skipped number acknowledged: 5 is received, the window moves on to 3900, a request jumps
   to 4200, and an old request for 4101 is then told that 4101 has arrived.
   */
  lemma SkippedAcknowledged()
    ensures var c, b := Initial(0, 64), Board(0, 64, {});
            var events := [Mpdu(5, 0), Mpdu(2000, 0), Mpdu(3900, 0), Bar(4200)];
            && Unfragmented(events) && Placeable(b, events)
            && HalfRange(BoardRun(b, events), 4101) && BoardRun(b, events).got == {(5, 0), (2000, 0), (3900, 0)}
            && IsPacketReceived(ResponseTo(c, events, 4101), Wrapped(4101))
  {
    hide Filled, IsPacketReceived, CacheStep, Initial, CacheRun, Placeable, BoardRun;
    OneLap();
    var c, b := Initial(0, 64), Board(0, 64, {});
    var lap := [Mpdu(5, 0), Mpdu(2000, 0), Mpdu(3900, 0)];
    RunExtends(c, b, lap, Bar(4200));
    assert lap + [Bar(4200)] == [Mpdu(5, 0), Mpdu(2000, 0), Mpdu(3900, 0), Bar(4200)];
    JumpKeepsEntry(CacheRun(c, lap), BoardRun(b, lap));
  }

  /** Three numbers carry the window almost once around; the entry of 5 stays. */
  lemma OneLap()
    ensures var c, b := Initial(0, 64), Board(0, 64, {});
            var lap := [Mpdu(5, 0), Mpdu(2000, 0), Mpdu(3900, 0)];
            && Unfragmented(lap) && Placeable(b, lap) && Agrees(CacheRun(c, lap), BoardRun(b, lap))
            && BoardRun(b, lap) == Board(3837, 64, {(5, 0), (2000, 0), (3900, 0)})
            && CacheRun(c, lap).bitmap[5] == {0}
  {
    hide CacheStep, Agrees, Initial, CacheRun;
    var c, b := Initial(0, 64), Board(0, 64, {});
    RunOfNone(c, b);
    RunExtends(c, b, [], Mpdu(5, 0));
    RunExtends(c, b, [Mpdu(5, 0)], Mpdu(2000, 0));
    RunExtends(c, b, [Mpdu(5, 0), Mpdu(2000, 0)], Mpdu(3900, 0));
    assert [] + [Mpdu(5, 0)] == [Mpdu(5, 0)];
    assert [Mpdu(5, 0)] + [Mpdu(2000, 0)] == [Mpdu(5, 0), Mpdu(2000, 0)];
    assert [Mpdu(5, 0), Mpdu(2000, 0)] + [Mpdu(3900, 0)] == [Mpdu(5, 0), Mpdu(2000, 0), Mpdu(3900, 0)];
    assert BoardMpdu(b, 5, 0) == Board(0, 64, {(5, 0)});
    assert BoardMpdu(Board(0, 64, {(5, 0)}), 2000, 0) == Board(1937, 64, {(5, 0), (2000, 0)});
    assert BoardMpdu(Board(1937, 64, {(5, 0), (2000, 0)}), 3900, 0) == Board(3837, 64, {(5, 0), (2000, 0), (3900, 0)});
    LapSteps(c, b);
  }

  lemma RunOfNone(c: Cache, b: Board)
    requires Shape(c)
    ensures CacheRun(c, []) == c && BoardRun(b, []) == b && Placeable(b, [])
  {
  }

  lemma RunExtends(c: Cache, b: Board, events: seq<Event>, e: Event)
    requires Shape(c)
    ensures CacheRun(c, events + [e]) == CacheStep(CacheRun(c, events), e)
    ensures BoardRun(b, events + [e]) == BoardStep(BoardRun(b, events), e)
    ensures Placeable(b, events + [e]) <==> Placeable(b, events) && HalfRange(BoardRun(b, events), e.u)
  {
    assert (events + [e])[..|events|] == events;
  }

  lemma LapSteps(c: Cache, b: Board)
    requires c == Initial(0, 64) && b == Board(0, 64, {})
    ensures var c3 := CacheStep(CacheStep(CacheStep(c, Mpdu(5, 0)), Mpdu(2000, 0)), Mpdu(3900, 0));
            && Agrees(c3, Board(3837, 64, {(5, 0), (2000, 0), (3900, 0)})) && c3.bitmap[5] == {0}
  {
    hide Slide, Ahead, Agrees, Fragments, IsOld;
    StartAgrees(0, 64);
    OldIffBefore(c, b, 5);
    MpduFollows(c, b, 5, 0);
    var c1, b1 := AfterMpdu(c, 5, 0), Board(0, 64, {(5, 0)});
    assert BoardMpdu(b, 5, 0) == b1;
    assert c1.bitmap == c.bitmap[5 := {} + {0}];
    hide AfterMpdu;
    LapSlide(c1, b1, 2000);
    var c2, b2 := AfterMpdu(c1, 2000, 0), Board(1937, 64, {(5, 0), (2000, 0)});
    assert BoardMpdu(b1, 2000, 0) == b2;
    LapSlide(c2, b2, 3900);
    assert BoardMpdu(b2, 3900, 0) == Board(3837, 64, {(5, 0), (2000, 0), (3900, 0)});
  }

  /** A request that jumps to 4200 leaves the entry of 4101 alone, and an old request for 4101 is answered from it. */
  lemma JumpKeepsEntry(c: Cache, b: Board)
    requires Agrees(c, b) && b.start == 3837 && b.size == 64 && c.bitmap[5] == {0}
    ensures var c' := CacheStep(c, Bar(4200));
            IsPacketReceived(Filled(CacheStep(c', Bar(4101)), Response(Wrapped(4101), {})), Wrapped(4101))
  {
    hide Filled, IsPacketReceived, AfterBar, ResetPortion, Fragments;
    BarFollows(c, b, 4200);
    BarClears(c, b, 4200);
    ResetEntry(c.bitmap, 4200, 4263, 4101, 4101);
    OldResponse(CacheStep(c, Bar(4200)), BoardBar(b, 4200), 4101, 4101);
  }
}
