/**
 The packet error rate splits the time between two noise changes among the modes of a
 packet: its payload, its PLCP header and, for HT mixed format, the legacy header.
 */
module PacketErrorRate {
  import opened Numbers
  import opened Interference

  datatype Preamble = Long | Short | HtMixed | HtGreenfield

  datatype Mode = Payload | Header | LegacyHeader

  predicate NonHt(p: Preamble) {
    p == Long || p == Short
  }

  /** Where the parts of a packet begin. */
  datatype Layout = Layout(header: int, hsig: int, training: int, payload: int)

  /** The parts follow each other; formats without a part give it no time. */
  ghost predicate Fits(p: Preamble, l: Layout) {
    && l.header <= l.hsig <= l.training <= l.payload
    && (NonHt(p) ==> l.hsig == l.training == l.payload)
    && (p == HtGreenfield ==> l.header == l.hsig)
  }

  /** An interval of a packet received in one mode under one noise power. */
  datatype Chunk = Chunk(from: int, to: int, noise: real, mode: Mode)

  /** The chunks between two changes at `previous` and `current`, in the order they are multiplied. */
  function Chunks(p: Preamble, l: Layout, previous: int, current: int, noise: real): seq<Chunk> {
    if previous >= l.payload then
      [Chunk(previous, current, noise, Payload)]
    else if previous >= l.training then
      if current >= l.payload then [Chunk(l.payload, current, noise, Payload)] else []
    else if previous >= l.hsig then
      if current >= l.payload then
        [Chunk(l.payload, current, noise, Payload), Chunk(previous, l.training, noise, Header)]
      else if current >= l.training then
        [Chunk(previous, l.training, noise, Header)]
      else
        [Chunk(previous, current, noise, Header)]
    else if previous >= l.header then
      if current >= l.payload then
        if NonHt(p) then
          [Chunk(l.payload, current, noise, Payload), Chunk(previous, l.payload, noise, Header)]
        else
          [Chunk(l.payload, current, noise, Payload), Chunk(l.hsig, l.training, noise, Header),
              Chunk(previous, l.hsig, noise, LegacyHeader)]
      else if current >= l.training then
        [Chunk(l.hsig, l.training, noise, Header), Chunk(previous, l.hsig, noise, LegacyHeader)]
      else if current >= l.hsig then
        [Chunk(l.hsig, current, noise, Header), Chunk(previous, l.hsig, noise, LegacyHeader)]
      else if NonHt(p) then
        [Chunk(previous, current, noise, Header)]
      else
        [Chunk(previous, current, noise, LegacyHeader)]
    else
      if current >= l.payload then
        [Chunk(l.payload, current, noise, Payload)] +
        (if NonHt(p) then [Chunk(l.header, l.payload, noise, Header)] else [Chunk(l.hsig, l.training, noise, Header)]) +
        (if p == HtMixed then [Chunk(l.header, l.hsig, noise, LegacyHeader)] else [])
      else if current >= l.training then
        [Chunk(l.hsig, l.training, noise, Header)] +
        (if p == HtMixed then [Chunk(l.header, l.hsig, noise, LegacyHeader)] else [])
      else if current >= l.hsig then
        [Chunk(l.hsig, current, noise, Header)] +
        (if p != HtGreenfield then [Chunk(l.header, l.hsig, noise, LegacyHeader)] else [])
      else if current >= l.header then
        if NonHt(p) then [Chunk(l.header, current, noise, Header)] else [Chunk(l.header, current, noise, LegacyHeader)]
      else []
  }

  // ---------------------------------------------------------------------------
  // What each mode should cover.

  /** Whether instant `t` belongs to the part of the packet sent in mode `m`. */
  ghost predicate Covers(p: Preamble, l: Layout, m: Mode, t: int) {
    match m
    case Payload => l.payload <= t
    case Header => if NonHt(p) then l.header <= t < l.payload else l.hsig <= t < l.training
    case LegacyHeader => p == HtMixed && l.header <= t < l.hsig
  }

  ghost predicate At(c: Chunk, m: Mode, t: int) {
    c.mode == m && c.from <= t < c.to
  }

  /** How many chunks of mode `m` contain instant `t`. */
  ghost function Count(cs: seq<Chunk>, m: Mode, t: int): nat {
    if cs == [] then 0 else (if At(cs[0], m, t) then 1 else 0) + Count(cs[1..], m, t)
  }

  lemma {:induction false} CountConcat(a: seq<Chunk>, b: seq<Chunk>, m: Mode, t: int)
    ensures Count(a + b, m, t) == Count(a, m, t) + Count(b, m, t)
  {
    if a == [] {
      assert a + b == b;
    } else {
      assert (a + b)[0] == a[0] && (a + b)[1..] == a[1..] + b;
      CountConcat(a[1..], b, m, t);
    }
  }

  lemma CountOne(c: Chunk, m: Mode, t: int)
    ensures Count([c], m, t) == if At(c, m, t) then 1 else 0
  {
    assert [c][1..] == [];
  }

  lemma CountTwo(a: Chunk, b: Chunk, m: Mode, t: int)
    ensures Count([a, b], m, t) == (if At(a, m, t) then 1 else 0) + (if At(b, m, t) then 1 else 0)
  {
    assert [a, b][1..] == [b];
    CountOne(b, m, t);
  }

  lemma CountThree(a: Chunk, b: Chunk, c: Chunk, m: Mode, t: int)
    ensures Count([a, b, c], m, t) ==
              (if At(a, m, t) then 1 else 0) + (if At(b, m, t) then 1 else 0) + (if At(c, m, t) then 1 else 0)
  {
    assert [a, b, c][1..] == [b, c];
    CountTwo(b, c, m, t);
  }

  /** At most three chunks: counting them needs no recursion. */
  lemma CountShort(cs: seq<Chunk>, m: Mode, t: int)
    requires |cs| <= 3
    ensures Count(cs, m, t) == (if |cs| > 0 && At(cs[0], m, t) then 1 else 0) +
              (if |cs| > 1 && At(cs[1], m, t) then 1 else 0)
                             + (if |cs| > 2 && At(cs[2], m, t) then 1 else 0)
  {
    if |cs| == 1 {
      assert cs == [cs[0]];
      CountOne(cs[0], m, t);
    } else if |cs| == 2 {
      assert cs == [cs[0], cs[1]];
      CountTwo(cs[0], cs[1], m, t);
    } else if |cs| == 3 {
      assert cs == [cs[0], cs[1], cs[2]];
      CountThree(cs[0], cs[1], cs[2], m, t);
    }
  }

  /** Between two changes, each instant is covered once by the mode it belongs to, and by no other. */
  lemma ChunksExact(p: Preamble, l: Layout, previous: int, current: int, noise: real, m: Mode, t: int)
    requires Fits(p, l) && previous <= current
    ensures Count(Chunks(p, l, previous, current, noise), m, t) ==
              if previous <= t < current && Covers(p, l, m, t) then 1 else 0
    ensures forall c :: c in Chunks(p, l, previous, current, noise) ==> c.noise == noise && c.from <= c.to
  {
    CountShort(Chunks(p, l, previous, current, noise), m, t);
  }

  // ---------------------------------------------------------------------------
  // Whole lists.

  /** The chunks of the changes from `k` on, after a change at `previous` that left this noise. */
  ghost function AllChunks(p: Preamble, l: Layout, ni: seq<NiChange>, k: nat, previous: int, noise: real): seq<Chunk>
    requires k <= |ni|
    decreases |ni| - k
  {
    if k == |ni| then []
    else Chunks(p, l, previous, ni[k].time, noise) + AllChunks(p, l, ni, k + 1, ni[k].time, noise + ni[k].delta)
  }

  ghost function PacketChunks(p: Preamble, l: Layout, ni: seq<NiChange>): seq<Chunk>
    requires ni != []
  {
    AllChunks(p, l, ni, 1, ni[0].time, ni[0].delta)
  }

  lemma {:induction false} AllChunksExact(p: Preamble, l: Layout, ni: seq<NiChange>, k: nat, previous: int, noise: real,
                                          m: Mode, t: int)
    requires Fits(p, l) && Sorted(ni) && k <= |ni| && (k < |ni| ==> previous <= ni[k].time)
    ensures Count(AllChunks(p, l, ni, k, previous, noise), m, t) ==
              if k < |ni| && previous <= t < ni[|ni| - 1].time && Covers(p, l, m, t) then 1 else 0
    decreases |ni| - k
  {
    hide Chunks, Fits;
    if k < |ni| {
      var rest := AllChunks(p, l, ni, k + 1, ni[k].time, noise + ni[k].delta);
      ChunksExact(p, l, previous, ni[k].time, noise, m, t);
      AllChunksExact(p, l, ni, k + 1, ni[k].time, noise + ni[k].delta, m, t);
      CountConcat(Chunks(p, l, previous, ni[k].time, noise), rest, m, t);
    }
  }

  /**
   Every instant of a packet is counted exactly once in the mode it belongs to, and in no
   other, whatever the changes in between.
   */
  lemma EveryInstantOnce(p: Preamble, l: Layout, ni: seq<NiChange>, m: Mode, t: int)
    requires Fits(p, l) && Sorted(ni) && ni != []
    ensures Count(PacketChunks(p, l, ni), m, t) ==
              if ni[0].time <= t < ni[|ni| - 1].time && Covers(p, l, m, t) then 1 else 0
  {
    hide Chunks;
    AllChunksExact(p, l, ni, 1, ni[0].time, ni[0].delta, m, t);
  }

  /** The chunk containing an instant carries the noise of that instant. */
  lemma {:induction false} ChunkNoise(p: Preamble, l: Layout, ni: seq<NiChange>, k: nat, previous: int, noise: real,
                                      c: Chunk, t: int)
    requires Fits(p, l) && Sorted(ni) && 1 <= k <= |ni| && ni[k - 1].time == previous
    requires noise == SumUpTo(ni[..k], previous)
    requires c in AllChunks(p, l, ni, k, previous, noise) && c.from <= t < c.to
    ensures previous <= t && c.noise == SumUpTo(ni, t)
    decreases |ni| - k
  {
    hide Chunks, Fits, SumUpTo;
    var here := Chunks(p, l, previous, ni[k].time, noise);
    if c in here {
      ChunksExact(p, l, previous, ni[k].time, noise, c.mode, t);
      CountPositive(here, c, t);
      NoiseBetween(ni, k, t);
      NoiseBetween(ni, k, previous);
    } else {
      NextNoise(ni, k, previous);
      ChunkNoise(p, l, ni, k + 1, ni[k].time, noise + ni[k].delta, c, t);
    }
  }

  lemma {:induction false} CountPositive(cs: seq<Chunk>, c: Chunk, t: int)
    requires c in cs && c.from <= t < c.to
    ensures Count(cs, c.mode, t) > 0
  {
    if c != cs[0] {
      CountPositive(cs[1..], c, t);
    }
  }

  /** Between two changes the noise is the sum of the changes so far. */
  lemma NoiseBetween(ni: seq<NiChange>, k: nat, t: int)
    requires Sorted(ni) && 1 <= k <= |ni| && ni[k - 1].time <= t && (k < |ni| ==> t < ni[k].time || t == ni[k - 1].time)
    ensures SumUpTo(ni[..k], t) == SumAll(ni[..k])
    ensures k < |ni| && t < ni[k].time ==> SumUpTo(ni, t) == SumUpTo(ni[..k], t)
  {
    SumComplete(ni[..k], t);
    if k < |ni| && t < ni[k].time {
      SumConcat(ni[..k], ni[k..], t);
      assert ni[..k] + ni[k..] == ni;
      SumNothing(ni[k..], t);
    }
  }

  lemma NextNoise(ni: seq<NiChange>, k: nat, previous: int)
    requires Sorted(ni) && 1 <= k < |ni| && ni[k - 1].time == previous
    ensures SumUpTo(ni[..k + 1], ni[k].time) == SumUpTo(ni[..k], previous) + ni[k].delta
  {
    SumComplete(ni[..k], previous);
    SumComplete(ni[..k + 1], ni[k].time);
    assert ni[..k + 1][..k] == ni[..k];
  }

  /**
   For the packet that opened a reception: at every instant of a mode's part of the packet
   exactly one chunk is evaluated, in that mode and under the power of all other events.
   */
  lemma ChunkNoiseIsOtherPower(p: Preamble, l: Layout, r: Record, before: seq<Event>, since: int, e: Event,
                               others: seq<Event>, c: Chunk, t: int)
    requires Fits(p, l) && Represents(r, before, since) && !r.rxing && since <= e.start <= t < e.end &&
              Later(others, e.start)
    requires var end := ReceiveAll(Append(r, e).(rxing := true), others);
             end.changes != [] ==> c in PacketChunks(p, l, NoiseList(end, e)) && c.from <= t < c.to
    ensures c.noise == Present(before, t) + Present(others, t) && Covers(p, l, c.mode, t)
    ensures var end := ReceiveAll(Append(r, e).(rxing := true), others);
            end.changes != [] && Count(PacketChunks(p, l, NoiseList(end, e)), c.mode, t) == 1
  {
    hide Append, NoiseList, Represents, Opened, Chunks, Later, SumUpTo;
    var end := ReceiveAll(Append(r, e).(rxing := true), others);
    NoiseIsOtherPower(r, before, since, e, others, t);
    OpenedChanges(end, e);
    NoiseListSpansPacket(end, e);
    var ni := NoiseList(end, e);
    SumOfFirst(ni);
    ChunkNoise(p, l, ni, 1, ni[0].time, ni[0].delta, c, t);
    EveryInstantOnce(p, l, ni, c.mode, t);
    CountPositive(PacketChunks(p, l, ni), c, t);
  }

  lemma OpenedChanges(r: Record, e: Event)
    requires Opened(r, e)
    ensures r.changes != []
  {
  }

  lemma SumOfFirst(ni: seq<NiChange>)
    requires ni != []
    ensures SumUpTo(ni[..1], ni[0].time) == ni[0].delta
  {
    SumOne(ni[0], ni[0].time);
    assert ni[..1] == [ni[0]];
  }

  // ---------------------------------------------------------------------------
  // Durations.

  ghost function Overlap(a: int, b: int, lo: int, hi: int): int {
    Max(0, Min(b, hi) - Max(a, lo))
  }

  /** How much of the interval from `a` to `b` belongs to the part of the packet sent in mode `m`. */
  ghost function Share(p: Preamble, l: Layout, m: Mode, a: int, b: int): int {
    match m
    case Payload => Overlap(a, b, l.payload, Max(b, l.payload))
    case Header => if NonHt(p) then Overlap(a, b, l.header, l.payload) else Overlap(a, b, l.hsig, l.training)
    case LegacyHeader => if p == HtMixed then Overlap(a, b, l.header, l.hsig) else 0
  }

  /** The total duration passed for mode `m`. */
  ghost function Duration(cs: seq<Chunk>, m: Mode): int {
    if cs == [] then 0 else (if cs[0].mode == m then cs[0].to - cs[0].from else 0) + Duration(cs[1..], m)
  }

  lemma {:induction false} DurationConcat(a: seq<Chunk>, b: seq<Chunk>, m: Mode)
    ensures Duration(a + b, m) == Duration(a, m) + Duration(b, m)
  {
    if a == [] {
      assert a + b == b;
    } else {
      assert (a + b)[0] == a[0] && (a + b)[1..] == a[1..] + b;
      DurationConcat(a[1..], b, m);
    }
  }

  ghost function Length(c: Chunk, m: Mode): int {
    if c.mode == m then c.to - c.from else 0
  }

  lemma DurationShort(cs: seq<Chunk>, m: Mode)
    requires |cs| <= 3
    ensures Duration(cs, m) == (if |cs| > 0 then Length(cs[0], m) else 0) + (if |cs| > 1 then Length(cs[1], m) else 0)
                             + (if |cs| > 2 then Length(cs[2], m) else 0)
  {
    if |cs| > 0 {
      assert Duration(cs, m) == Length(cs[0], m) + Duration(cs[1..], m);
      if |cs| > 1 {
        assert Duration(cs[1..], m) == Length(cs[1], m) + Duration(cs[1..][1..], m);
        if |cs| > 2 {
          assert Duration(cs[1..][1..], m) == Length(cs[2], m) + Duration(cs[1..][1..][1..], m);
        }
      }
    }
  }

  lemma ChunksDuration(p: Preamble, l: Layout, previous: int, current: int, noise: real, m: Mode)
    requires Fits(p, l) && previous <= current
    ensures Duration(Chunks(p, l, previous, current, noise), m) == Share(p, l, m, previous, current)
  {
    DurationShort(Chunks(p, l, previous, current, noise), m);
  }

  lemma ShareAdds(p: Preamble, l: Layout, m: Mode, a: int, b: int, c: int)
    requires Fits(p, l) && a <= b <= c
    ensures Share(p, l, m, a, c) == Share(p, l, m, a, b) + Share(p, l, m, b, c)
  {
  }

  lemma {:induction false} AllChunksDuration(p: Preamble, l: Layout, ni: seq<NiChange>, k: nat, previous: int,
                                             noise: real, m: Mode)
    requires Fits(p, l) && Sorted(ni) && k < |ni| && previous <= ni[k].time
    ensures Duration(AllChunks(p, l, ni, k, previous, noise), m) == Share(p, l, m, previous, ni[|ni| - 1].time)
    decreases |ni| - k
  {
    hide Chunks, Share, Fits;
    var rest := AllChunks(p, l, ni, k + 1, ni[k].time, noise + ni[k].delta);
    ChunksDuration(p, l, previous, ni[k].time, noise, m);
    DurationConcat(Chunks(p, l, previous, ni[k].time, noise), rest, m);
    if k + 1 < |ni| {
      AllChunksDuration(p, l, ni, k + 1, ni[k].time, noise + ni[k].delta, m);
      ShareAdds(p, l, m, previous, ni[k].time, ni[|ni| - 1].time);
    }
  }

  /** The durations passed for a mode add up to its exact share of the packet: extra change points alter nothing. */
  lemma DurationsExact(p: Preamble, l: Layout, ni: seq<NiChange>, m: Mode)
    requires Fits(p, l) && Sorted(ni) && |ni| >= 2
    ensures Duration(PacketChunks(p, l, ni), m) == Share(p, l, m, ni[0].time, ni[|ni| - 1].time)
  {
    AllChunksDuration(p, l, ni, 1, ni[0].time, ni[0].delta, m);
  }

  // ---------------------------------------------------------------------------
  // The durations of the PHY.

  datatype ModulationClass = Ofdm | Ht | ErpOfdm | Dsss

  /** GetPlcpPreambleDurationMicroSeconds. */
  function PreambleDuration(modulation: ModulationClass, bandwidth: nat, p: Preamble): nat {
    match modulation
    case Ofdm => if bandwidth == 10000000 then 32 else if bandwidth == 5000000 then 64 else 16
    case Ht => 16
    case ErpOfdm => 16
    case Dsss => if p == Short then 72 else 144
  }

  /** GetPlcpHeaderDurationMicroSeconds. */
  function HeaderDuration(modulation: ModulationClass, bandwidth: nat, p: Preamble): nat {
    match modulation
    case Ofdm => if bandwidth == 10000000 then 8 else if bandwidth == 5000000 then 16 else 4
    case Ht => if p == HtGreenfield then 0 else 4
    case ErpOfdm => 4
    case Dsss => if p == Short then 24 else 48
  }

  /** GetPlcpHtSigHeaderDurationMicroSeconds. */
  function HtSigDuration(p: Preamble): nat {
    if p == HtMixed || p == HtGreenfield then 8 else 0
  }

  /** GetPlcpHtTrainingSymbolDurationMicroSeconds, for the numbers of spatial and extension streams. */
  function TrainingDuration(p: Preamble, nss: nat, ness: nat): nat {
    match p
    case HtMixed => 4 + 4 * nss
    case HtGreenfield => 4 * nss + 4 * ness
    case _ => 0
  }

  /** The boundaries CalculatePer computes for a packet that starts at `start`. */
  function LayoutOf(modulation: ModulationClass, bandwidth: nat, p: Preamble, nss: nat, ness: nat, start: int): Layout {
    var header := start + MICROSECOND * PreambleDuration(modulation, bandwidth, p);
    var hsig := header + MICROSECOND * HeaderDuration(modulation, bandwidth, p);
    var training := hsig + MICROSECOND * HtSigDuration(p);
    Layout(header, hsig, training, training + MICROSECOND * TrainingDuration(p, nss, ness))
  }

  /**
   Where the payload begins, in microseconds: the PLCP lengths of IEEE 802.11-2012, 20, 40 or 80
   for OFDM by bandwidth, 96 or 192 for DSSS, and the HT fields with their training symbols.
   */
  lemma PayloadOffset(modulation: ModulationClass, bandwidth: nat, p: Preamble, nss: nat, ness: nat, start: int)
    ensures var payload := LayoutOf(modulation, bandwidth, p, nss, ness, start).payload;
            && (modulation == Ofdm && NonHt(p) ==>
                  payload == start + MICROSECOND *
                    if bandwidth == 10000000 then 40 else if bandwidth == 5000000 then 80 else 20)
            && (modulation == ErpOfdm && NonHt(p) ==> payload == start + MICROSECOND * 20)
            && (modulation == Dsss && NonHt(p) ==> payload == start + MICROSECOND * if p == Short then 96 else 192)
            && (modulation == Ht && p == HtMixed ==> payload == start + MICROSECOND * (32 + 4 * nss))
            && (modulation == Ht && p == HtGreenfield ==> payload == start + MICROSECOND * (24 + 4 * nss + 4 * ness))
  {
  }

  /** The layout fits its format unless a greenfield preamble carries a payload that is not HT. */
  lemma LayoutFits(modulation: ModulationClass, bandwidth: nat, p: Preamble, nss: nat, ness: nat, start: int)
    ensures Fits(p, LayoutOf(modulation, bandwidth, p, nss, ness, start)) <==> (p == HtGreenfield ==> modulation == Ht)
  {
  }

  /**
   With a greenfield preamble and time left for a legacy header, an extra change of power
   zero alters the durations: the split then is not exact, so the condition is needed.
   */
  lemma GreenfieldHeaderBreaks(l: Layout, start: int, end: int, noise: real)
    requires start < l.header < l.hsig <= l.training <= l.payload <= end
    ensures var plain := [NiChange(start, noise), NiChange(end, 0.0)];
            var split := [NiChange(start, noise), NiChange(l.header, 0.0), NiChange(end, 0.0)];
            && Duration(PacketChunks(HtGreenfield, l, plain), LegacyHeader) == 0
            && Duration(PacketChunks(HtGreenfield, l, split), LegacyHeader) == l.hsig - l.header > 0
  {
    var plain := [NiChange(start, noise), NiChange(end, 0.0)];
    var split := [NiChange(start, noise), NiChange(l.header, 0.0), NiChange(end, 0.0)];
    var whole := Chunks(HtGreenfield, l, start, end, noise);
    var first := Chunks(HtGreenfield, l, start, l.header, noise);
    var second := Chunks(HtGreenfield, l, l.header, end, noise + 0.0);
    assert AllChunks(HtGreenfield, l, plain, 2, end, noise + 0.0) == [];
    assert PacketChunks(HtGreenfield, l, plain) == whole;
    DurationShort(whole, LegacyHeader);
    assert AllChunks(HtGreenfield, l, split, 3, end, noise + 0.0 + 0.0) == [];
    assert AllChunks(HtGreenfield, l, split, 2, l.header, noise + 0.0) == second;
    assert PacketChunks(HtGreenfield, l, split) == first + second;
    DurationConcat(first, second, LegacyHeader);
    DurationShort(first, LegacyHeader);
    DurationShort(second, LegacyHeader);
  }

  /** For a list of changes, the durations of each mode add up to its share of the packet. */
  ghost predicate SplitExact(p: Preamble, l: Layout, ni: seq<NiChange>)
    requires |ni| >= 2
  {
    forall m: Mode :: Duration(PacketChunks(p, l, ni), m) == Share(p, l, m, ni[0].time, ni[|ni| - 1].time)
  }

  /**
   The split computed for a packet is exact for every list of changes if and only if a
   greenfield preamble comes with an HT payload.
   */
  lemma SplitExactIff(modulation: ModulationClass, bandwidth: nat, p: Preamble, nss: nat, ness: nat, start: int)
    ensures var l := LayoutOf(modulation, bandwidth, p, nss, ness, start);
            (forall ni: seq<NiChange> :: |ni| >= 2 && Sorted(ni) && ni[0].time == start ==> SplitExact(p, l, ni))
            <==> (p == HtGreenfield ==> modulation == Ht)
  {
    hide PacketChunks, Duration, Share;
    var l := LayoutOf(modulation, bandwidth, p, nss, ness, start);
    LayoutFits(modulation, bandwidth, p, nss, ness, start);
    if p == HtGreenfield ==> modulation == Ht {
      forall ni: seq<NiChange> | |ni| >= 2 && Sorted(ni) && ni[0].time == start
        ensures SplitExact(p, l, ni)
      {
        forall m: Mode
          ensures Duration(PacketChunks(p, l, ni), m) == Share(p, l, m, ni[0].time, ni[|ni| - 1].time)
        {
          DurationsExact(p, l, ni, m);
        }
      }
    } else {
      LayoutOrder(modulation, bandwidth, p, nss, ness, start);
      GreenfieldHeaderBreaks(l, start, l.payload, 0.0);
      var split := [NiChange(start, 0.0), NiChange(l.header, 0.0), NiChange(l.payload, 0.0)];
      NoLegacyShare(l, start, l.payload);
      assert Sorted(split) && !SplitExact(p, l, split);
    }
  }

  lemma LayoutOrder(modulation: ModulationClass, bandwidth: nat, p: Preamble, nss: nat, ness: nat, start: int)
    ensures var l := LayoutOf(modulation, bandwidth, p, nss, ness, start);
            && start < l.header <= l.hsig <= l.training <= l.payload
            && (p == HtGreenfield && modulation != Ht ==> l.header < l.hsig)
  {
  }

  lemma NoLegacyShare(l: Layout, a: int, b: int)
    ensures Share(HtGreenfield, l, LegacyHeader, a, b) == 0
  {
  }
}
