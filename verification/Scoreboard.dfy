/**
 The receiver's block ack scoreboard (section 9.21.7.3 of IEEE 802.11-2012): a circular
 array of 4096 fragment bitmaps with a sliding window, and the unbounded record it stands for.
 A 16-bit word is represented by the set of its set bits.
 */
module Scoreboard {
  import opened Numbers

  const MODULUS: nat := 4096

  type Word = set<nat>

  /** The circular distance from `a` forward to `b`. */
  function Ahead(a: nat, b: nat): (d: nat)
    requires a < MODULUS && b < MODULUS
    ensures d == if a <= b then b - a else b + MODULUS - a
  {
    (b - a + MODULUS) % MODULUS
  }

  /** The 12-bit sequence number of an unbounded one. */
  function Wrapped(u: nat): (s: nat)
    ensures s < MODULUS
  {
    u % MODULUS
  }

  function Forward(a: nat, d: nat): (b: nat)
    ensures b < MODULUS
  {
    (a + d) % MODULUS
  }

  /** Numbers in the half range behind the window start are old. */
  predicate IsOld(winStart: nat, s: nat)
    requires winStart < MODULUS && s < MODULUS
  {
    Ahead(winStart, s) >= 2048
  }

  datatype Cache = Cache(winStart: nat, winSize: nat, winEnd: nat, bitmap: seq<Word>)

  /** The shape kept by every operation; the last conjunct is the window-size assertion of the source. */
  ghost predicate Shape(c: Cache) {
    && |c.bitmap| == MODULUS && c.winStart < MODULUS && c.winEnd < MODULUS
    && 1 <= c.winSize <= 64
    && Ahead(c.winStart, c.winEnd) == c.winSize - 1
  }

  ghost function ResetPortion(bitmap: seq<Word>, start: nat, end: nat): (r: seq<Word>)
    requires |bitmap| == MODULUS && start < MODULUS && end < MODULUS
    ensures |r| == MODULUS
    ensures forall i :: 0 <= i < MODULUS ==> r[i] == if Ahead(start, i) <= Ahead(start, end) then {} else bitmap[i]
  {
    seq(MODULUS, i requires 0 <= i < MODULUS => if Ahead(start, i) <= Ahead(start, end) then {} else bitmap[i])
  }

  ghost function Initial(winStart: nat, winSize: nat): (c: Cache)
    requires winStart < MODULUS && 1 <= winSize
    ensures Shape(c)
  {
    var size := if winSize <= 64 then winSize else 64;
    AheadForward(winStart, size - 1);
    Cache(winStart, size, Forward(winStart, size - 1), seq(MODULUS, i => {}))
  }

  predicate IsInWindow(winStart: nat, winSize: nat, s: nat)
    requires winStart < MODULUS && s < MODULUS
  {
    Ahead(winStart, s) < winSize
  }

  /** Making room for a number beyond the window: everything between the old end and it is cleared. */
  ghost function Slide(c: Cache, s: nat): (r: Cache)
    requires Shape(c) && s < MODULUS
    ensures |r.bitmap| == MODULUS
  {
    var delta := Ahead(c.winEnd, s);
    var cleared := if delta > 1 then ResetPortion(c.bitmap, Forward(c.winEnd, 1), Forward(s, MODULUS - 1))
        else c.bitmap;
    Cache(Forward(c.winStart, delta), c.winSize, s, cleared)
  }

  ghost function AfterMpdu(c: Cache, s: nat, f: nat): Cache
    requires Shape(c) && s < MODULUS
  {
    if IsOld(c.winStart, s) then c
    else
      var c' := if IsInWindow(c.winStart, c.winSize, s) then c else Slide(c, s);
      c'.(bitmap := c'.bitmap[s := c'.bitmap[s] + {f}])
  }

  ghost function AfterBar(c: Cache, s: nat): Cache
    requires Shape(c) && s < MODULUS
  {
    if IsOld(c.winStart, s) || s == c.winStart then c
    else
      var end := Forward(s, c.winSize - 1);
      var from := if IsInWindow(c.winStart, c.winSize, s) then Forward(c.winEnd, 1) else s;
      Cache(s, c.winSize, end, ResetPortion(c.bitmap, from, end))
  }

  lemma BarCases(c: Cache, s: nat)
    requires Shape(c) && s < MODULUS
    ensures IsOld(c.winStart, s) || s == c.winStart ==> AfterBar(c, s) == c
    ensures !IsOld(c.winStart, s) && s != c.winStart ==>
              var from := if IsInWindow(c.winStart, c.winSize, s) then Forward(c.winEnd, 1) else s;
              var end := Forward(s, c.winSize - 1);
              AfterBar(c, s) == Cache(s, c.winSize, end, ResetPortion(c.bitmap, from, end))
    ensures s == c.winStart ==> IsInWindow(c.winStart, c.winSize, s)
  {
    hide Forward, ResetPortion, IsOld;
  }

  lemma AheadForward(a: nat, d: nat)
    requires a < MODULUS && d < MODULUS
    ensures Ahead(a, Forward(a, d)) == d
  {
  }

  lemma ForwardAhead(a: nat, b: nat)
    requires a < MODULUS && b < MODULUS
    ensures Forward(a, Ahead(a, b)) == b
  {
  }

  lemma AheadShift(a: nat, b: nat, d: nat)
    requires a < MODULUS && b < MODULUS && d < MODULUS
    ensures Ahead(Forward(a, d), Forward(b, d)) == Ahead(a, b)
  {
  }

  /** The window always spans exactly its size, so the assertions of the source hold. */
  lemma ShapeKept(c: Cache, s: nat, f: nat)
    requires Shape(c) && s < MODULUS
    ensures Shape(AfterMpdu(c, s, f)) && Shape(AfterBar(c, s))
  {
    hide Ahead, Forward;
    var delta := Ahead(c.winEnd, s);
    ForwardAhead(c.winEnd, s);
    AheadShift(c.winStart, c.winEnd, delta);
    AheadForward(s, c.winSize - 1);
  }

  // ---------------------------------------------------------------------------
  // The unbounded record.

  /** Sequence numbers counted without wrap: the window and every fragment accepted so far. */
  datatype Board = Board(start: nat, size: nat, got: set<(nat, nat)>)

  ghost function BoardMpdu(b: Board, u: nat, f: nat): Board {
    if u < b.start then b
    else
      var start := if u < b.start + b.size then b.start else u + 1 - b.size;
      b.(start := start, got := b.got + {(u, f)})
  }

  ghost function BoardBar(b: Board, u: nat): Board {
    if u < b.start then b else b.(start := u)
  }

  /** The fragments accepted for number `u`. */
  ghost function Fragments(b: Board, u: nat): (w: Word)
    ensures forall f :: f in w <==> (u, f) in b.got
  {
    set p | p in b.got && p.0 == u :: p.1
  }

  ghost predicate InWindow(b: Board, u: nat) {
    b.start <= u < b.start + b.size
  }

  /** The cache stands for the record: same window, and inside it every entry holds the accepted fragments. */
  ghost predicate Agrees(c: Cache, b: Board) {
    && Shape(c) && c.winStart == Wrapped(b.start) && c.winSize == b.size
    && (forall p :: p in b.got ==> p.0 < b.start + b.size)
    && (forall u: nat :: InWindow(b, u) ==> c.bitmap[Wrapped(u)] == Fragments(b, u))
  }

  /** A number the receiver can place: within half the space of the window start. */
  ghost predicate HalfRange(b: Board, u: nat) {
    b.start <= u + 2048 && u < b.start + 2048
  }

  lemma ModDistance(x: nat, y: nat)
    requires x <= y < x + MODULUS
    ensures Ahead(Wrapped(x), Wrapped(y)) == y - x
  {
  }

  lemma ModBehind(x: nat, y: nat)
    requires y < x <= y + MODULUS
    ensures Ahead(Wrapped(x), Wrapped(y)) == Wrapped(y + MODULUS - x)
  {
  }

  lemma ModForward(x: nat, d: nat)
    ensures Forward(Wrapped(x), d) == Wrapped(x + d)
  {
  }

  /** Within half the space, a number is old exactly when it lies before the window start. */
  lemma OldIffBefore(c: Cache, b: Board, u: nat)
    requires Agrees(c, b) && HalfRange(b, u)
    ensures IsOld(c.winStart, Wrapped(u)) <==> u < b.start
    ensures IsInWindow(c.winStart, c.winSize, Wrapped(u)) <==> InWindow(b, u)
  {
    if u < b.start {
      ModBehind(b.start, u);
    } else {
      ModDistance(b.start, u);
    }
  }

  lemma EndOfWindow(c: Cache, b: Board)
    requires Agrees(c, b)
    ensures c.winEnd == Wrapped(b.start + b.size - 1)
  {
    ModDistance(b.start, b.start + b.size - 1);
  }

  // ---------------------------------------------------------------------------
  // Each operation follows the record.

  /** Residues of numbers less than 4096 apart are equal only for equal numbers. */
  lemma ResidueUnique(x: nat, y: nat)
    requires Wrapped(x) == Wrapped(y) && x <= y < x + MODULUS
    ensures x == y
  {
  }

  /** A number cleared by an interval of numbers is exactly one in the interval. */
  lemma ClearedIffBetween(x: nat, y: nat, base: nat, u: nat)
    requires base <= x <= y < base + MODULUS && base <= u < base + MODULUS && y < x + MODULUS
    ensures Ahead(Wrapped(x), Wrapped(u)) <= Ahead(Wrapped(x), Wrapped(y)) <==> x <= u <= y
  {
    ModDistance(x, y);
    if x <= u {
      ModDistance(x, u);
    } else {
      ModBehind(x, u);
    }
  }

  lemma ResetEntry(bitmap: seq<Word>, x: nat, y: nat, base: nat, u: nat)
    requires |bitmap| == MODULUS
    requires base <= x <= y < base + MODULUS && base <= u < base + MODULUS && y < x + MODULUS
    ensures ResetPortion(bitmap, Wrapped(x), Wrapped(y))[Wrapped(u)] == if x <= u <= y then {} else bitmap[Wrapped(u)]
  {
    hide Ahead, ResetPortion, Wrapped;
    ClearedIffBetween(x, y, base, u);
  }

  lemma FragmentsAdd(b: Board, u: nat, f: nat, x: nat)
    ensures Fragments(b.(got := b.got + {(u, f)}), x) == Fragments(b, x) + if x == u then {f} else {}
  {
    var b' := b.(got := b.got + {(u, f)});
    assert forall g :: g in Fragments(b', x) <==> g in Fragments(b, x) + if x == u then {f} else {};
  }

  lemma FragmentsDependOnGot(a: Board, b: Board, u: nat)
    requires a.got == b.got
    ensures Fragments(a, u) == Fragments(b, u)
  {
  }

  /** What an MPDU does to the record, as seen from one number. */
  lemma BoardMpduFragments(b: Board, u: nat, f: nat, x: nat)
    requires b.start <= u
    ensures Fragments(BoardMpdu(b, u, f), x) == Fragments(b, x) + if x == u then {f} else {}
  {
    FragmentsAdd(b, u, f, x);
    FragmentsDependOnGot(BoardMpdu(b, u, f), b.(got := b.got + {(u, f)}), x);
  }

  lemma NeverGot(b: Board, x: nat)
    requires forall p :: p in b.got ==> p.0 < b.start + b.size
    requires b.start + b.size <= x
    ensures Fragments(b, x) == {}
  {
  }

  lemma MpduInWindow(c: Cache, b: Board, u: nat, f: nat)
    requires Agrees(c, b) && InWindow(b, u)
    ensures Agrees(AfterMpdu(c, Wrapped(u), f), BoardMpdu(b, u, f))
  {
    OldIffBefore(c, b, u);
    var c', b' := AfterMpdu(c, Wrapped(u), f), BoardMpdu(b, u, f);
    forall x: nat | InWindow(b', x)
      ensures c'.bitmap[Wrapped(x)] == Fragments(b', x)
    {
      BoardMpduFragments(b, u, f, x);
      if Wrapped(x) == Wrapped(u) {
        if x <= u { ResidueUnique(x, u); } else { ResidueUnique(u, x); }
      }
    }
  }

  lemma ModBefore(u: nat)
    requires 0 < u
    ensures Forward(Wrapped(u), MODULUS - 1) == Wrapped(u - 1)
  {
  }

  /** What sliding the window to `u` leaves in each entry of the new window. */
  lemma SlideEntry(c: Cache, b: Board, u: nat, x: nat)
    requires Agrees(c, b) && b.start + b.size <= u < b.start + 2048 && u + 1 - b.size <= x <= u
    ensures Slide(c, Wrapped(u)).bitmap[Wrapped(x)] == if x == u then c.bitmap[Wrapped(u)] else Fragments(b, x)
  {
    hide Ahead, Forward, Wrapped, ResetPortion, Slide;
    var end := b.start + b.size - 1;
    SlideClears(c, b, u);
    if u - end > 1 {
      ResetEntry(c.bitmap, end + 1, u - 1, b.start, x);
    }
    if x > end {
      NeverGot(b, x);
    }
  }

  /** Sliding to `u` clears the numbers between the old end of the window and `u`. */
  lemma SlideClears(c: Cache, b: Board, u: nat)
    requires Agrees(c, b) && b.start + b.size <= u < b.start + 2048
    ensures var end := b.start + b.size - 1;
            Slide(c, Wrapped(u)).bitmap ==
              if u - end > 1 then ResetPortion(c.bitmap, Wrapped(end + 1), Wrapped(u - 1)) else c.bitmap
  {
    hide Ahead, Forward, Wrapped, ResetPortion;
    var end := b.start + b.size - 1;
    EndOfWindow(c, b);
    ModDistance(end, u);
    ModForward(end, 1);
    ModBefore(u);
  }

  lemma SlideWindow(c: Cache, b: Board, u: nat)
    requires Agrees(c, b) && b.start + b.size <= u < b.start + 2048
    ensures Slide(c, Wrapped(u)).winStart == Wrapped(u + 1 - b.size)
  {
    var end := b.start + b.size - 1;
    EndOfWindow(c, b);
    ModDistance(end, u);
    ModForward(b.start, u - end);
  }

  /**
   Beyond the window, the record is followed exactly when the entry about to be reused
   holds no other fragment: that entry is the one number in the new window that is not cleared.
   */
  lemma MpduBeyondWindow(c: Cache, b: Board, u: nat, f: nat)
    requires Agrees(c, b) && b.start + b.size <= u < b.start + 2048
    ensures Agrees(AfterMpdu(c, Wrapped(u), f), BoardMpdu(b, u, f)) <==> c.bitmap[Wrapped(u)] <= {f}
  {
    hide Wrapped, Fragments;
    MpduBeyondShape(c, b, u, f);
    MpduBeyondLast(c, b, u, f);
    var c', b' := AfterMpdu(c, Wrapped(u), f), BoardMpdu(b, u, f);
    hide AfterMpdu, BoardMpdu;
    assert Agrees(c', b') ==> c'.bitmap[Wrapped(u)] == Fragments(b', u);
    if c.bitmap[Wrapped(u)] <= {f} {
      forall x: nat | InWindow(b', x)
        ensures c'.bitmap[Wrapped(x)] == Fragments(b', x)
      {
        MpduBeyondEntry(c, b, u, f, x);
      }
    }
  }

  /** Beyond the window, cache and record move to the same window, the one that ends at `u`. */
  lemma MpduBeyondShape(c: Cache, b: Board, u: nat, f: nat)
    requires Agrees(c, b) && b.start + b.size <= u < b.start + 2048
    ensures var c', b' := AfterMpdu(c, Wrapped(u), f), BoardMpdu(b, u, f);
            && Shape(c') && c'.winStart == Wrapped(b'.start) && c'.winSize == b'.size == b.size
            && b'.start == u + 1 - b.size
            && (forall p :: p in b'.got ==> p.0 < b'.start + b'.size)
  {
    hide Wrapped, Fragments;
    OldIffBefore(c, b, u);
    ShapeKept(c, Wrapped(u), f);
    SlideWindow(c, b, u);
  }

  lemma MpduBeyondLast(c: Cache, b: Board, u: nat, f: nat)
    requires Agrees(c, b) && b.start + b.size <= u < b.start + 2048
    ensures AfterMpdu(c, Wrapped(u), f).bitmap[Wrapped(u)] == c.bitmap[Wrapped(u)] + {f}
    ensures Fragments(BoardMpdu(b, u, f), u) == {f}
  {
    hide Wrapped, Slide, Fragments, IsOld, IsInWindow, BoardMpdu;
    OldIffBefore(c, b, u);
    SlideEntry(c, b, u, u);
    BoardMpduFragments(b, u, f, u);
    NeverGot(b, u);
  }

  lemma MpduBeyondEntry(c: Cache, b: Board, u: nat, f: nat, x: nat)
    requires Agrees(c, b) && b.start + b.size <= u < b.start + 2048 && u + 1 - b.size <= x <= u
    requires c.bitmap[Wrapped(u)] <= {f}
    ensures AfterMpdu(c, Wrapped(u), f).bitmap[Wrapped(x)] == Fragments(BoardMpdu(b, u, f), x)
  {
    hide Wrapped, Slide, Fragments, IsOld, IsInWindow, BoardMpdu;
    OldIffBefore(c, b, u);
    SlideEntry(c, b, u, x);
    BoardMpduFragments(b, u, f, x);
    if x == u {
      NeverGot(b, u);
    } else if Wrapped(x) == Wrapped(u) {
      ResidueUnique(x, u);
    }
  }

  /** An MPDU is followed exactly when it is not one that reuses an entry with stale fragments. */
  lemma MpduFollows(c: Cache, b: Board, u: nat, f: nat)
    requires Agrees(c, b) && HalfRange(b, u)
    ensures Agrees(AfterMpdu(c, Wrapped(u), f), BoardMpdu(b, u, f)) <==>
              IsOld(c.winStart, Wrapped(u)) || IsInWindow(c.winStart, c.winSize, Wrapped(u)) ||
                  c.bitmap[Wrapped(u)] <= {f}
  {
    OldIffBefore(c, b, u);
    if u >= b.start {
      if InWindow(b, u) {
        MpduInWindow(c, b, u, f);
      } else {
        MpduBeyondWindow(c, b, u, f);
      }
    }
  }

  lemma BarEntry(c: Cache, b: Board, u: nat, x: nat)
    requires Agrees(c, b) && b.start < u < b.start + 2048 && u <= x < u + b.size
    ensures AfterBar(c, Wrapped(u)).bitmap[Wrapped(x)] == Fragments(b, x)
  {
    hide Wrapped, ResetPortion, AfterBar;
    BarClears(c, b, u);
    var end := b.start + b.size - 1;
    var from := if InWindow(b, u) then end + 1 else u;
    ResetEntry(c.bitmap, from, u + b.size - 1, b.start, x);
    if x > end {
      NeverGot(b, x);
    }
  }

  /** Moving the window to `u` clears what the new window adds to the old one. */
  lemma BarClears(c: Cache, b: Board, u: nat)
    requires Agrees(c, b) && b.start < u < b.start + 2048
    ensures var from := if InWindow(b, u) then b.start + b.size else u;
            AfterBar(c, Wrapped(u)).bitmap == ResetPortion(c.bitmap, Wrapped(from), Wrapped(u + b.size - 1))
  {
    hide Ahead, Forward, Wrapped, IsOld, IsInWindow, ResetPortion;
    OldIffBefore(c, b, u);
    ModDistance(b.start, u);
    EndOfWindow(c, b);
    ModForward(u, b.size - 1);
    ModForward(b.start + b.size - 1, 1);
  }

  /** A block ack request is always followed. */
  lemma BarFollows(c: Cache, b: Board, u: nat)
    requires Agrees(c, b) && HalfRange(b, u)
    ensures Agrees(AfterBar(c, Wrapped(u)), BoardBar(b, u))
  {
    OldIffBefore(c, b, u);
    if u > b.start {
      ModDistance(b.start, u);
      ShapeKept(c, Wrapped(u), 0);
      var c', b' := AfterBar(c, Wrapped(u)), BoardBar(b, u);
      forall x: nat | InWindow(b', x)
        ensures c'.bitmap[Wrapped(x)] == Fragments(b', x)
      {
        BarEntry(c, b, u, x);
        FragmentsDependOnGot(b, b', x);
      }
    }
  }

  // ---------------------------------------------------------------------------
  // Runs.

  /** What the receiver gets from one originator, by true sequence number. */
  datatype Event = Mpdu(u: nat, f: nat) | Bar(u: nat)

  ghost function CacheStep(c: Cache, e: Event): (c': Cache)
    requires Shape(c)
    ensures Shape(c')
  {
    ShapeKept(c, Wrapped(e.u), if e.Mpdu? then e.f else 0);
    match e
    case Mpdu(u, f) => AfterMpdu(c, Wrapped(u), f)
    case Bar(u) => AfterBar(c, Wrapped(u))
  }

  ghost function BoardStep(b: Board, e: Event): Board {
    match e
    case Mpdu(u, f) => BoardMpdu(b, u, f)
    case Bar(u) => BoardBar(b, u)
  }

  ghost function CacheRun(c: Cache, events: seq<Event>): (c': Cache)
    requires Shape(c)
    ensures Shape(c')
  {
    if events == [] then c else CacheStep(CacheRun(c, events[..|events| - 1]), events[|events| - 1])
  }

  ghost function BoardRun(b: Board, events: seq<Event>): Board {
    if events == [] then b else BoardStep(BoardRun(b, events[..|events| - 1]), events[|events| - 1])
  }

  /** The furthest window start that the events ask for. */
  ghost function Furthest(start: nat, size: nat, events: seq<Event>): int {
    if events == [] then start
    else
      var before, e := Furthest(start, size, events[..|events| - 1]), events[|events| - 1];
      Max(before, if e.Mpdu? then e.u + 1 - size else e.u)
  }

  /** The window of the record is the furthest one asked for: old numbers never move it back. */
  lemma {:induction false} WindowFromEvents(b: Board, events: seq<Event>)
    requires 1 <= b.size
    ensures BoardRun(b, events).start == Furthest(b.start, b.size, events) && BoardRun(b, events).size == b.size
  {
    if events != [] {
      WindowFromEvents(b, events[..|events| - 1]);
    }
  }

  /** Event `k` brings this fragment, at a time when the number is not behind the window. */
  ghost predicate Brings(b: Board, events: seq<Event>, k: nat, x: nat, f: nat) {
    k < |events| && events[k] == Mpdu(x, f) && Furthest(b.start, b.size, events[..k]) <= x
  }

  /** The record holds exactly the fragments that arrived when their number was not behind the window. */
  lemma {:induction false} RecordFromEvents(b: Board, events: seq<Event>, x: nat, f: nat)
    requires 1 <= b.size
    ensures (x, f) in BoardRun(b, events).got <==> (x, f) in b.got || exists k :: Brings(b, events, k, x, f)
  {
    if events != [] {
      var n := |events| - 1;
      RecordFromEvents(b, events[..n], x, f);
      WindowFromEvents(b, events[..n]);
      forall k: nat | k < n
        ensures Brings(b, events, k, x, f) <==> Brings(b, events[..n], k, x, f)
      {
        assert events[..n][..k] == events[..k];
      }
      assert Brings(b, events, n, x, f) <==> events[n] == Mpdu(x, f) && BoardRun(b, events[..n]).start <= x;
    }
  }

  /** Every number arrives within half the space of the window it finds. */
  ghost predicate Placeable(b: Board, events: seq<Event>) {
    events != [] ==>
      && Placeable(b, events[..|events| - 1])
      && HalfRange(BoardRun(b, events[..|events| - 1]), events[|events| - 1].u)
  }

  ghost predicate Unfragmented(events: seq<Event>) {
    forall i :: 0 <= i < |events| && events[i].Mpdu? ==> events[i].f == 0
  }

  ghost predicate OnlyFirstFragments(c: Cache) {
    forall i :: 0 <= i < |c.bitmap| ==> c.bitmap[i] <= {0}
  }

  lemma StartAgrees(start: nat, winSize: nat)
    requires 1 <= winSize
    ensures var size := if winSize <= 64 then winSize else 64;
            Agrees(Initial(Wrapped(start), winSize), Board(start, size, {}))
    ensures OnlyFirstFragments(Initial(Wrapped(start), winSize))
  {
    var size := if winSize <= 64 then winSize else 64;
    AheadForward(Wrapped(start), size - 1);
  }

  /**
   For unfragmented MPDUs and any mix of MPDUs and block ack requests, over any number of
   wraps, the window has its size and each entry in it says exactly whether its number was received.
   */
  lemma {:induction false} UnfragmentedRunAgrees(c: Cache, b: Board, events: seq<Event>)
    requires Agrees(c, b) && OnlyFirstFragments(c)
    requires Unfragmented(events) && Placeable(b, events)
    ensures Agrees(CacheRun(c, events), BoardRun(b, events)) && OnlyFirstFragments(CacheRun(c, events))
  {
    hide AfterMpdu, AfterBar;
    if events != [] {
      var k := |events| - 1;
      UnfragmentedRunAgrees(c, b, events[..k]);
      var ck, bk, e := CacheRun(c, events[..k]), BoardRun(b, events[..k]), events[k];
      FirstFragmentsKept(ck, e);
      match e
      case Mpdu(u, f) => MpduFollows(ck, bk, u, f);
      case Bar(u) => BarFollows(ck, bk, u);
    }
  }

  lemma FirstFragmentsKept(c: Cache, e: Event)
    requires Shape(c) && OnlyFirstFragments(c) && (e.Mpdu? ==> e.f == 0)
    ensures OnlyFirstFragments(CacheStep(c, e))
  {
  }

  /**
   A fragment left from an earlier lap survives. Number 5 arrives as fragment 1, two more
   numbers carry the window once around, and number 4101 then shares its entry.
   */
  lemma StaleFragment()
    ensures var c := CacheStep(CacheStep(CacheStep(Initial(0, 64), Mpdu(5, 1)), Mpdu(2000, 0)), Mpdu(3900, 0));
            var b := BoardMpdu(BoardMpdu(BoardMpdu(Board(0, 64, {}), 5, 1), 2000, 0), 3900, 0);
            && Agrees(c, b) && HalfRange(b, 4101)
            && !Agrees(CacheStep(c, Mpdu(4101, 0)), BoardMpdu(b, 4101, 0))
  {
    var c0, b0 := Initial(0, 64), Board(0, 64, {});
    StartAgrees(0, 64);
    OldIffBefore(c0, b0, 5);
    MpduFollows(c0, b0, 5, 1);
    var c1, b1 := AfterMpdu(c0, 5, 1), BoardMpdu(b0, 5, 1);
    assert c1.bitmap == c0.bitmap[5 := {} + {1}];
    LapSlide(c1, b1, 2000);
    var c2, b2 := AfterMpdu(c1, 2000, 0), BoardMpdu(b1, 2000, 0);
    LapSlide(c2, b2, 3900);
    var c3, b3 := AfterMpdu(c2, 3900, 0), BoardMpdu(b2, 3900, 0);
    OldIffBefore(c3, b3, 4101);
    MpduFollows(c3, b3, 4101, 0);
  }

  /** Moving on within the same lap clears the entries passed over and leaves those behind alone. */
  lemma LapSlide(c: Cache, b: Board, u: nat)
    requires Agrees(c, b) && b.start + b.size <= u < b.start + 2048 && u < MODULUS && 5 < b.start + b.size
    requires c.bitmap[u] == {}
    ensures Agrees(AfterMpdu(c, u, 0), BoardMpdu(b, u, 0))
    ensures AfterMpdu(c, u, 0).bitmap[5] == c.bitmap[5]
    ensures forall i :: u < i < MODULUS ==> AfterMpdu(c, u, 0).bitmap[i] == c.bitmap[i]
  {
    hide Ahead, Forward, IsOld, IsInWindow, Slide;
    OldIffBefore(c, b, u);
    MpduFollows(c, b, u, 0);
    EndWithinLap(c, b, u);
    SlideWithinLap(c, u);
    assert Wrapped(u) == u;
    assert AfterMpdu(c, u, 0).bitmap == Slide(c, u).bitmap[u := Slide(c, u).bitmap[u] + {0}];
  }

  lemma EndWithinLap(c: Cache, b: Board, u: nat)
    requires Agrees(c, b) && b.start + b.size <= u < MODULUS
    ensures c.winEnd == b.start + b.size - 1
  {
    EndOfWindow(c, b);
  }

  lemma SlideWithinLap(c: Cache, u: nat)
    requires Shape(c) && 5 <= c.winEnd < u < MODULUS
    ensures Slide(c, u).bitmap[5] == c.bitmap[5]
    ensures forall i :: u <= i < MODULUS ==> Slide(c, u).bitmap[i] == c.bitmap[i]
  {
    var delta := u - c.winEnd;
    if delta > 1 {
      assert Forward(c.winEnd, 1) == c.winEnd + 1;
      assert Forward(u, MODULUS - 1) == u - 1;
    }
  }

  // ---------------------------------------------------------------------------
  // The array.

  class BlockAckCache {
    var winStart: nat
    var winSize: nat
    var winEnd: nat
    var bitmap: array<Word>

    ghost function State(): Cache
      reads this, bitmap
    {
      Cache(winStart, winSize, winEnd, bitmap[..])
    }

    ghost predicate Valid()
      reads this, bitmap
    {
      bitmap.Length == MODULUS && Shape(State())
    }

    /** A window of no numbers is accepted, but its end then lies before its start, as no operation allows. */
    constructor (winStart: nat, winSize: nat)
      requires winStart < MODULUS
      ensures fresh(bitmap) && bitmap.Length == MODULUS
      ensures 1 <= winSize ==> Valid() && State() == Initial(winStart, winSize)
      ensures winSize == 0 ==>
                && !Valid() && bitmap[..] == seq(MODULUS, i => {}) && this.winStart == winStart && this.winSize == 0
                && winEnd == if winStart == 0 then 0xFFFF else winStart - 1
    {
      var size := if winSize <= 64 then winSize else 64;
      this.winStart := winStart;
      this.winSize := size;
      // the remainder of -1 is -1, which a uint16_t holds as its largest value
      this.winEnd := if winStart + size == 0 then 0xFFFF else (winStart + size - 1) % MODULUS;
      bitmap := new Word[MODULUS](i => {});
      new;
      assert bitmap[..] == seq(MODULUS, i => {});
    }

    /** Clears the entries from `start` forward to `end`. */
    method ResetPortionOfBitmap(start: nat, end: nat)
      requires bitmap.Length == MODULUS && start < MODULUS && end < MODULUS
      modifies bitmap
      ensures bitmap[..] == ResetPortion(old(bitmap[..]), start, end)
    {
      var i: nat := start;
      while i != end
        invariant i < MODULUS && Ahead(start, i) <= Ahead(start, end)
        invariant forall k :: 0 <= k < MODULUS ==>
                  bitmap[k] == if Ahead(start, k) < Ahead(start, i) then {} else old(bitmap[k])
        decreases Ahead(start, end) - Ahead(start, i)
      {
        bitmap[i] := {};
        i := (i + 1) % MODULUS;
      }
      bitmap[i] := {};
    }

    method UpdateWithMpdu(s: nat, fragment: nat)
      requires Valid() && s < MODULUS
      modifies this, bitmap
      ensures Valid() && bitmap == old(bitmap) && State() == AfterMpdu(old(State()), s, fragment)
    {
      ShapeKept(State(), s, fragment);
      hide Ahead, Forward;
      if !IsOld(winStart, s) {
        if !IsInWindow(winStart, winSize, s) {
          var delta := Ahead(winEnd, s);
          if delta > 1 {
            ResetPortionOfBitmap(Forward(winEnd, 1), Forward(s, MODULUS - 1));
          }
          winStart := Forward(winStart, delta);
          winEnd := s;
        }
        bitmap[s] := bitmap[s] + {fragment};
      }
    }

    /** Moves the window to `s`, clearing the entries from `from` forward to its new end. */
    method MoveWindow(s: nat, from: nat)
      requires Valid() && s < MODULUS && from < MODULUS
      modifies this, bitmap
      ensures bitmap == old(bitmap)
      ensures State() == Cache(s, old(winSize), Forward(s, old(winSize) - 1),
                               ResetPortion(old(bitmap[..]), from, Forward(s, old(winSize) - 1)))
    {
      hide Ahead, Forward, ResetPortion;
      winStart := s;
      var newWinEnd := Forward(winStart, winSize - 1);
      ResetPortionOfBitmap(from, newWinEnd);
      winEnd := newWinEnd;
    }

    method UpdateWithBlockAckReq(s: nat)
      requires Valid() && s < MODULUS
      modifies this, bitmap
      ensures Valid() && bitmap == old(bitmap) && State() == AfterBar(old(State()), s)
    {
      hide Ahead, Forward, IsInWindow, IsOld, ResetPortion, AfterBar;
      ghost var c := State();
      ShapeKept(c, s, 0);
      BarCases(c, s);
      if !IsOld(winStart, s) {
        if IsInWindow(winStart, winSize, s) {
          if s != winStart {
            MoveWindow(s, Forward(winEnd, 1));
          }
        } else {
          MoveWindow(s, s);
        }
      }
    }
  }
}
