/**
 The compressed block ack response and the originator's pass over its queue: what the
 receiver's scoreboard says reaches the packets that are kept, dropped and retried.
 */
module BlockAckResponse {
  import opened Scoreboard

  /** A compressed response: its starting sequence number and a 64-bit bitmap. */
  datatype Response = Response(startingSeq: nat, bitmap: Word)

  ghost predicate WellFormed(r: Response) {
    r.startingSeq < MODULUS && forall i :: i in r.bitmap ==> i < 64
  }

  predicate IsInBitmap(startingSeq: nat, s: nat)
    requires startingSeq < MODULUS && s < MODULUS
  {
    Ahead(startingSeq, s) < 64
  }

  /** The bit of a number; it fits in the bitmap for every number that is in it. */
  function IndexInBitmap(startingSeq: nat, s: nat): (index: nat)
    requires startingSeq < MODULUS && s < MODULUS && IsInBitmap(startingSeq, s)
    ensures index <= 63 && index == Ahead(startingSeq, s)
  {
    if s >= startingSeq then s - startingSeq else 4096 - startingSeq + s
  }

  predicate IsPacketReceived(r: Response, s: nat)
    requires r.startingSeq < MODULUS && s < MODULUS
  {
    IsInBitmap(r.startingSeq, s) && IndexInBitmap(r.startingSeq, s) in r.bitmap
  }

  ghost function Acknowledged(r: Response, s: nat): Response
    requires r.startingSeq < MODULUS && s < MODULUS
  {
    if IsInBitmap(r.startingSeq, s) then r.(bitmap := r.bitmap + {IndexInBitmap(r.startingSeq, s)}) else r
  }

  /** The bits set for the first `n` numbers from the starting sequence whose entry is exactly one whole packet. */
  ghost function FilledBits(bitmap: seq<Word>, start: nat, n: nat): Word
    requires |bitmap| == MODULUS && start < MODULUS
  {
    set d: nat | d < n && bitmap[Forward(start, d)] == {0}
  }

  ghost function Filled(c: Cache, r: Response): Response
    requires Shape(c) && r.startingSeq < MODULUS
  {
    r.(bitmap := r.bitmap + FilledBits(c.bitmap, r.startingSeq, c.winSize))
  }

  lemma FilledNext(bitmap: seq<Word>, start: nat, n: nat)
    requires |bitmap| == MODULUS && start < MODULUS
    ensures FilledBits(bitmap, start, n + 1) ==
              FilledBits(bitmap, start, n) + if bitmap[Forward(start, n)] == {0} then {n} else {}
  {
  }

  class BlockAckHeader {
    var startingSeq: nat
    var bitmap: Word

    ghost function State(): Response
      reads this
    {
      Response(startingSeq, bitmap)
    }

    constructor (startingSeq: nat)
      requires startingSeq < MODULUS
      ensures State() == Response(startingSeq, {}) && WellFormed(State())
    {
      this.startingSeq := startingSeq;
      bitmap := {};
    }

    method SetReceivedPacket(s: nat)
      requires WellFormed(State()) && s < MODULUS
      modifies this`bitmap
      ensures State() == Acknowledged(old(State()), s) && WellFormed(State())
    {
      if IsInBitmap(startingSeq, s) {
        bitmap := bitmap + {IndexInBitmap(startingSeq, s)};
      }
    }
  }

  /** Copies the window of the scoreboard that starts at the response's number. */
  method FillBlockAckBitmap(cache: BlockAckCache, header: BlockAckHeader)
    requires cache.Valid() && WellFormed(header.State())
    modifies header`bitmap
    ensures cache.Valid() && header.State() == Filled(cache.State(), old(header.State())) && WellFormed(header.State())
  {
    var start := header.startingSeq;
    var i := start;
    var end := Forward(start, cache.winSize - 1);
    AheadForward(start, cache.winSize - 1);
    ghost var d: nat := 0;
    hide Ahead, Forward, FilledBits;
    FilledNone(cache.bitmap[..], start);
    while i != end
      invariant i == Forward(start, d) && d <= cache.winSize - 1
      invariant header.startingSeq == start && WellFormed(header.State())
      invariant header.bitmap == old(header.bitmap) + FilledBits(cache.bitmap[..], start, d)
      decreases cache.winSize - d
    {
      FillEntry(cache, header, i, start, d);
      FilledNext(cache.bitmap[..], start, d);
      NextEntry(start, i, d);
      i := (i + 1) % MODULUS;
      d := d + 1;
    }
    EndEntry(start, d, cache.winSize);
    FillEntry(cache, header, i, start, d);
    FilledNext(cache.bitmap[..], start, d);
  }

  /** One entry of the copy. */
  method FillEntry(cache: BlockAckCache, header: BlockAckHeader, i: nat, ghost start: nat, ghost d: nat)
    requires cache.Valid() && WellFormed(header.State()) && header.startingSeq == start && d < 64 &&
              i == Forward(start, d)
    modifies header`bitmap
    ensures header.startingSeq == start && WellFormed(header.State())
    ensures header.bitmap == old(header.bitmap) + if cache.bitmap[i] == {0} then {d} else {}
  {
    AheadForward(start, d);
    if cache.bitmap[i] == {0} {
      header.SetReceivedPacket(i);
    }
  }

  lemma FilledNone(bitmap: seq<Word>, start: nat)
    requires |bitmap| == MODULUS && start < MODULUS
    ensures FilledBits(bitmap, start, 0) == {} && Forward(start, 0) == start
  {
  }

  lemma NextEntry(start: nat, i: nat, d: nat)
    requires start < MODULUS && i == Forward(start, d)
    ensures Wrapped(i + 1) == Forward(start, d + 1)
  {
  }

  lemma EndEntry(start: nat, d: nat, size: nat)
    requires start < MODULUS && d < size <= 64 && Forward(start, d) == Forward(start, size - 1)
    ensures d == size - 1
  {
    AheadForward(start, d);
    AheadForward(start, size - 1);
  }

  // ---------------------------------------------------------------------------
  // What a response says.

  /** A fresh response acknowledges exactly the window numbers whose entry is one whole packet. */
  lemma FilledExact(c: Cache, start: nat, s: nat)
    requires Shape(c) && start < MODULUS && s < MODULUS
    ensures IsPacketReceived(Filled(c, Response(start, {})), s) <==> Ahead(start, s) < c.winSize && c.bitmap[s] == {0}
  {
    ForwardAhead(start, s);
  }

  /**
   After a block ack request for `u` that is not old, the response acknowledges number `x`
   exactly when `x` is in the requested window and was received as one unfragmented packet.
   */
  lemma ResponseExact(c: Cache, b: Board, u: nat, x: nat)
    requires Agrees(c, b) && HalfRange(b, u) && b.start <= u && u <= x < u + MODULUS
    ensures IsPacketReceived(Filled(CacheStep(c, Bar(u)), Response(Wrapped(u), {})), Wrapped(x)) <==>
              x < u + b.size && Fragments(b, x) == {0}
  {
    BarFollows(c, b, u);
    var c', b' := CacheStep(c, Bar(u)), BoardBar(b, u);
    FilledExact(c', Wrapped(u), Wrapped(x));
    ModDistance(u, x);
    FragmentsDependOnGot(b, b', x);
    assert x < u + b.size ==> InWindow(b', x);
  }

  // ---------------------------------------------------------------------------
  // The originator's queue.

  datatype Packet = Packet(seqNumber: nat, body: int)

  ghost predicate Numbered(queue: seq<Packet>) {
    forall i :: 0 <= i < |queue| ==> queue[i].seqNumber < MODULUS
  }

  /** The packets the response does not acknowledge, in order. */
  ghost function Lost(queue: seq<Packet>, r: Response): (l: seq<Packet>)
    requires Numbered(queue) && r.startingSeq < MODULUS
    ensures Numbered(l)
  {
    if queue == [] then []
    else
      var rest := Lost(queue[..|queue| - 1], r);
      if IsPacketReceived(r, queue[|queue| - 1].seqNumber) then rest else rest + [queue[|queue| - 1]]
  }

  lemma {:induction false} LostStep(queue: seq<Packet>, r: Response, k: nat)
    requires Numbered(queue) && r.startingSeq < MODULUS && k < |queue|
    ensures Lost(queue[..k + 1], r) ==
              if IsPacketReceived(r, queue[k].seqNumber) then Lost(queue[..k], r) else Lost(queue[..k], r) + [queue[k]]
  {
    assert queue[..k + 1][..k] == queue[..k];
  }

  lemma LostNone(queue: seq<Packet>, r: Response)
    requires Numbered(queue) && r.startingSeq < MODULUS
    ensures Lost(queue[..0], r) == []
  {
  }

  /** The pass goes through the queue in order and looks at each packet on its own. */
  lemma {:induction false} LostOfParts(a: seq<Packet>, b: seq<Packet>, r: Response)
    requires Numbered(a + b) && Numbered(a) && Numbered(b) && r.startingSeq < MODULUS
    ensures Lost(a + b, r) == Lost(a, r) + Lost(b, r)
  {
    if b == [] {
      assert a + b == a;
    } else {
      var k := |b| - 1;
      assert (a + b)[..|a| + k] == a + b[..k];
      LostOfParts(a, b[..k], r);
    }
  }

  lemma LostOfOne(p: Packet, r: Response)
    requires p.seqNumber < MODULUS && r.startingSeq < MODULUS
    ensures Lost([p], r) == if IsPacketReceived(r, p.seqNumber) then [] else [p]
  {
    assert [p][..0] == [];
  }

  /** A packet is lost exactly when it is queued and not acknowledged. */
  lemma {:induction false} LostExact(queue: seq<Packet>, r: Response, p: Packet)
    requires Numbered(queue) && r.startingSeq < MODULUS && p.seqNumber < MODULUS
    ensures p in Lost(queue, r) <==> p in queue && !IsPacketReceived(r, p.seqNumber)
  {
    if queue != [] {
      LostExact(queue[..|queue| - 1], r, p);
    }
  }

  /** One agreement of the originator: its queue, its starting sequence and the retry list. */
  class Originator {
    var queue: seq<Packet>
    var retryPackets: seq<Packet>
    var startingSequence: nat

    constructor (queue: seq<Packet>, startingSequence: nat)
      ensures this.queue == queue && retryPackets == [] && this.startingSequence == startingSequence
    {
      this.queue, retryPackets, this.startingSequence := queue, [], startingSequence;
    }

    /** Erases the packet at `at` and those after it with the same number. */
    method EraseSame(at: nat, ghost all: seq<Packet>, ghost k: nat, ghost r: Response) returns (ghost k': nat)
      requires at < |queue| && Numbered(all) && r.startingSeq < MODULUS && k < |all|
      requires queue[at..] == all[k..] && queue[..at] == Lost(all[..k], r)
      requires IsPacketReceived(r, all[k].seqNumber)
      modifies this`queue
      ensures k < k' <= |all| && at <= |queue| && queue[..at] == old(queue)[..at]
      ensures queue[at..] == all[k'..] && queue[..at] == Lost(all[..k'], r)
    {
      var current := queue[at].seqNumber;
      k' := k;
      assert all[k..][0] == all[k];
      while at < |queue| && queue[at].seqNumber == current
        invariant k <= k' <= |all| && at <= |queue| && queue[..at] == old(queue)[..at]
        invariant queue[at..] == all[k'..] && queue[..at] == Lost(all[..k'], r)
        invariant k' == k ==> at < |queue| && queue[at].seqNumber == current
        invariant current < MODULUS && IsPacketReceived(r, current)
        decreases |all| - k'
      {
        assert queue[at] == queue[at..][0] == all[k'..][0] == all[k'];
        LostStep(all, r, k');
        ghost var before := queue;
        queue := queue[..at] + queue[at + 1..];
        assert queue[at..] == before[at..][1..] == all[k'..][1..] == all[k' + 1..];
        assert queue[..at] == before[..at];
        k' := k' + 1;
      }
    }

    /** The queue pass of NotifyGotBlockAck for a compressed response. */
    method NotifyGotBlockAck(r: Response) returns (foundFirstLost: bool, firstLost: nat)
      requires WellFormed(r) && Numbered(queue)
      modifies this
      ensures queue == Lost(old(queue), r)
      ensures retryPackets == old(retryPackets) + Lost(old(queue), r)
      ensures foundFirstLost <==> Lost(old(queue), r) != []
      ensures startingSequence == if foundFirstLost then Lost(old(queue), r)[0].seqNumber else old(startingSequence)
      ensures foundFirstLost ==> firstLost == startingSequence
    {
      hide IsPacketReceived, Lost;
      LostNone(queue, r);
      ghost var all := queue;
      ghost var k: nat := 0;
      var at := 0;
      foundFirstLost, firstLost := false, 0;
      while at != |queue|
        invariant k <= |all| && at <= |queue|
        invariant queue[at..] == all[k..] && queue[..at] == Lost(all[..k], r)
        invariant retryPackets == old(retryPackets) + queue[..at]
        invariant foundFirstLost <==> at > 0
        invariant startingSequence == if foundFirstLost then queue[0].seqNumber else old(startingSequence)
        invariant foundFirstLost ==> firstLost == startingSequence
        decreases |all| - k
      {
        assert queue[at] == queue[at..][0] == all[k..][0] == all[k];
        if IsPacketReceived(r, queue[at].seqNumber) {
          k := EraseSame(at, all, k, r);
        } else {
          if !foundFirstLost {
            foundFirstLost := true;
            firstLost := queue[at].seqNumber;
            startingSequence := firstLost;
          }
          retryPackets := retryPackets + [queue[at]];
          LostStep(all, r, k);
          assert queue[at + 1..] == queue[at..][1..] == all[k..][1..] == all[k + 1..];
          assert queue[..at + 1] == queue[..at] + [queue[at]];
          at := at + 1;
          k := k + 1;
        }
      }
      assert all[..k] == all;
      assert queue[..at] == queue;
    }
  }

  // ---------------------------------------------------------------------------
  // From the packets received to the packets kept.

  /** Whatever the record holds arrived as an MPDU. */
  lemma {:induction false} GotArrived(b: Board, events: seq<Event>, x: nat, f: nat)
    requires (x, f) in BoardRun(b, events).got && (x, f) !in b.got
    ensures Mpdu(x, f) in events
  {
    if events != [] {
      var k := |events| - 1;
      if (x, f) in BoardRun(b, events[..k]).got {
        GotArrived(b, events[..k], x, f);
      } else {
        assert events[k] == Mpdu(x, f);
      }
    }
  }

  /** The response to a request for `u` after a run of the receiver. */
  ghost function ResponseTo(c: Cache, events: seq<Event>, u: nat): (r: Response)
    requires Shape(c)
    ensures r.startingSeq < MODULUS
  {
    Filled(CacheStep(CacheRun(c, events), Bar(u)), Response(Wrapped(u), {}))
  }

  /** Queued packets with their true sequence numbers, all from the requested number on. */
  ghost predicate Queued(queue: seq<Packet>, numbers: seq<nat>, u: nat) {
    |numbers| == |queue| && forall i :: 0 <= i < |queue| ==>
      queue[i].seqNumber == Wrapped(numbers[i]) && u <= numbers[i] < u + MODULUS
  }

  /**
   End to end: after any unfragmented run of the receiver, answering a request that is not
   old makes the originator drop exactly the queued packets of the requested window that
   were received. In particular no packet that did not arrive is ever dropped.
   */
  lemma DroppedExactlyReceived(c: Cache, b: Board, events: seq<Event>, u: nat, queue: seq<Packet>, numbers: seq<nat>,
                               i: nat)
    requires Agrees(c, b) && OnlyFirstFragments(c) && b.got == {}
    requires Unfragmented(events) && Placeable(b, events)
    requires HalfRange(BoardRun(b, events), u) && BoardRun(b, events).start <= u
    requires Queued(queue, numbers, u) && Numbered(queue) && i < |queue|
    ensures queue[i] !in Lost(queue, ResponseTo(c, events, u)) <==>
              numbers[i] < u + BoardRun(b, events).size && (numbers[i], 0) in BoardRun(b, events).got
    ensures queue[i] !in Lost(queue, ResponseTo(c, events, u)) ==> Mpdu(numbers[i], 0) in events
  {
    hide Filled, IsPacketReceived, Lost, OnlyFirstFragments;
    var x := numbers[i];
    var ck, bk := CacheRun(c, events), BoardRun(b, events);
    UnfragmentedRunAgrees(c, b, events);
    ResponseExact(ck, bk, u, x);
    LostExact(queue, ResponseTo(c, events, u), queue[i]);
    OnlyZero(b, events, x);
    if (x, 0) in bk.got {
      GotArrived(b, events, x, 0);
    }
  }

  lemma OnlyZero(b: Board, events: seq<Event>, x: nat)
    requires b.got == {} && Unfragmented(events)
    ensures Fragments(BoardRun(b, events), x) == {0} <==> (x, 0) in BoardRun(b, events).got
  {
    var w := Fragments(BoardRun(b, events), x);
    forall f | f in w
      ensures f == 0
    {
      GotArrived(b, events, x, f);
    }
    if 0 in w {
      assert w == {0};
    }
  }
}
