/**
 The success rate of a packet: a product over its chunks that is, for an error model that
 splits over time, a product over its instants.
 */
module PacketSuccess {
  import opened Interference
  import opened PacketErrorRate

  // ---------------------------------------------------------------------------
  // The loop.

  /** The success rate of a chunk of positive duration: noise, duration and mode to a probability. */
  type ErrorModel = (real, int, Mode) -> real

  /** CalculateChunkSuccessRate: a chunk of no duration always succeeds. */
  function SuccessRate(model: ErrorModel, c: Chunk): real {
    if c.to - c.from == 0 then 1.0 else model(c.noise, c.to - c.from, c.mode)
  }

  /** Two independent parts both succeed; a named product, so that proofs need no nonlinear arithmetic. */
  function Both(x: real, y: real): real {
    x * y
  }

  lemma BothAssociate(x: real, y: real, z: real)
    ensures Both(Both(x, y), z) == Both(x, Both(y, z))
  {
  }

  lemma BothCommute(x: real, y: real)
    ensures Both(x, y) == Both(y, x)
  {
  }

  lemma BothOne(x: real)
    ensures Both(x, 1.0) == x == Both(1.0, x)
  {
  }

  ghost function Product(model: ErrorModel, cs: seq<Chunk>): real {
    if cs == [] then 1.0 else Both(Product(model, cs[..|cs| - 1]), SuccessRate(model, cs[|cs| - 1]))
  }

  lemma ProductNext(model: ErrorModel, cs: seq<Chunk>, k: nat)
    requires k < |cs|
    ensures Product(model, cs[..k + 1]) == Both(Product(model, cs[..k]), SuccessRate(model, cs[k]))
  {
    assert cs[..k + 1][..k] == cs[..k];
  }

  /** Multiplies the success rates of the chunks between two changes. */
  method MultiplyChunks(model: ErrorModel, psr: real, cs: seq<Chunk>, ghost done: seq<Chunk>) returns (r: real)
    requires psr == Product(model, done)
    ensures r == Product(model, done + cs)
  {
    r := psr;
    ghost var all := done + cs;
    assert all[..|done|] == done;
    for k := 0 to |cs|
      invariant r == Product(model, all[..|done| + k])
    {
      ProductNext(model, all, |done| + k);
      r := Both(r, SuccessRate(model, cs[k]));
    }
    assert all[..|all|] == all;
  }

  // ---------------------------------------------------------------------------
  // The success rate over instants.

  /** Success over a time is success over its parts, for any noise and mode. */
  ghost predicate Multiplicative(model: ErrorModel) {
    forall noise: real, a: int, b: int, m: Mode :: 0 < a && 0 < b ==> Splits(model, noise, a, b, m)
  }

  ghost predicate Splits(model: ErrorModel, noise: real, a: int, b: int, m: Mode) {
    model(noise, a + b, m) == model(noise, a, m) * model(noise, b, m)
  }

  /** Every instant from `a` to `b` in the part of the packet sent in mode `m` succeeds under its own noise. */
  ghost function InstantsOf(model: ErrorModel, p: Preamble, l: Layout, noise: int -> real, m: Mode, a: int,
                            b: int): real
    decreases b - a
  {
    if b <= a then 1.0
    else
      Both(InstantsOf(model, p, l, noise, m, a, b - 1),
           if Covers(p, l, m, b - 1) then model(noise(b - 1), 1, m) else 1.0)
  }

  /** Every instant of the packet succeeds, in every mode. */
  ghost function Success(model: ErrorModel, p: Preamble, l: Layout, noise: int -> real, a: int, b: int): real {
    Both(Both(InstantsOf(model, p, l, noise, Payload, a, b), InstantsOf(model, p, l, noise, Header, a, b)),
         InstantsOf(model, p, l, noise, LegacyHeader, a, b))
  }

  lemma {:induction false} InstantsSplit(model: ErrorModel, p: Preamble, l: Layout, noise: int -> real, m: Mode, a: int,
                                         b: int, c: int)
    requires a <= b <= c
    ensures InstantsOf(model, p, l, noise, m, a, c) ==
              Both(InstantsOf(model, p, l, noise, m, a, b), InstantsOf(model, p, l, noise, m, b, c))
    decreases c - b
  {
    hide Covers, Both;
    BothOne(InstantsOf(model, p, l, noise, m, a, b));
    if b < c {
      InstantsSplit(model, p, l, noise, m, a, b, c - 1);
      var factor := if Covers(p, l, m, c - 1) then model(noise(c - 1), 1, m) else 1.0;
      BothAssociate(InstantsOf(model, p, l, noise, m, a, b), InstantsOf(model, p, l, noise, m, b, c - 1), factor);
    }
  }

  /** Only the noise within the packet matters. */
  lemma {:induction false} InstantsSame(model: ErrorModel, p: Preamble, l: Layout, noise: int -> real,
                                        noise': int -> real, m: Mode, a: int, b: int)
    requires forall t :: a <= t < b ==> noise(t) == noise'(t)
    ensures InstantsOf(model, p, l, noise, m, a, b) == InstantsOf(model, p, l, noise', m, a, b)
    decreases b - a
  {
    if a < b {
      InstantsSame(model, p, l, noise, noise', m, a, b - 1);
    }
  }

  lemma SuccessSame(model: ErrorModel, p: Preamble, l: Layout, noise: int -> real, noise': int -> real, a: int, b: int)
    requires forall t :: a <= t < b ==> noise(t) == noise'(t)
    ensures Success(model, p, l, noise, a, b) == Success(model, p, l, noise', a, b)
  {
    InstantsSame(model, p, l, noise, noise', Payload, a, b);
    InstantsSame(model, p, l, noise, noise', Header, a, b);
    InstantsSame(model, p, l, noise, noise', LegacyHeader, a, b);
  }

  // ---------------------------------------------------------------------------
  // Chunks of one mode.

  /** The success rates of the chunks of mode `m`. */
  ghost function ProductOf(model: ErrorModel, cs: seq<Chunk>, m: Mode): real {
    if cs == [] then 1.0
    else Both(if cs[0].mode == m then SuccessRate(model, cs[0]) else 1.0, ProductOf(model, cs[1..], m))
  }

  lemma {:induction false} ProductOfConcat(model: ErrorModel, a: seq<Chunk>, b: seq<Chunk>, m: Mode)
    ensures ProductOf(model, a + b, m) == Both(ProductOf(model, a, m), ProductOf(model, b, m))
  {
    hide SuccessRate, Both;
    if a == [] {
      assert a + b == b;
      BothOne(ProductOf(model, b, m));
    } else {
      assert (a + b)[0] == a[0] && (a + b)[1..] == a[1..] + b;
      ProductOfConcat(model, a[1..], b, m);
      var first := if a[0].mode == m then SuccessRate(model, a[0]) else 1.0;
      BothAssociate(first, ProductOf(model, a[1..], m), ProductOf(model, b, m));
    }
  }

  lemma ProductOfOne(model: ErrorModel, c: Chunk, m: Mode)
    ensures ProductOf(model, [c], m) == if c.mode == m then SuccessRate(model, c) else 1.0
  {
    hide SuccessRate, Both;
    assert [c][1..] == [];
    BothOne(if c.mode == m then SuccessRate(model, c) else 1.0);
  }

  /** The product over all chunks is the product over the modes. */
  lemma {:induction false} ProductByMode(model: ErrorModel, cs: seq<Chunk>)
    ensures Product(model, cs) ==
              Both(Both(ProductOf(model, cs, Payload), ProductOf(model, cs, Header)),
                   ProductOf(model, cs, LegacyHeader))
  {
    hide SuccessRate, Both;
    BothOne(1.0);
    if cs != [] {
      var k := |cs| - 1;
      var front, last := cs[..k], cs[k];
      ProductByMode(model, front);
      assert cs == front + [last];
      ProductOfConcat(model, front, [last], Payload);
      ProductOfConcat(model, front, [last], Header);
      ProductOfConcat(model, front, [last], LegacyHeader);
      ProductOfOne(model, last, Payload);
      ProductOfOne(model, last, Header);
      ProductOfOne(model, last, LegacyHeader);
      BothOne(ProductOf(model, front, Payload));
      BothOne(ProductOf(model, front, Header));
      BothOne(ProductOf(model, front, LegacyHeader));
      OneFactor(ProductOf(model, front, Payload), ProductOf(model, front, Header),
                ProductOf(model, front, LegacyHeader),
                SuccessRate(model, last));
    }
  }

  lemma OneFactor(x: real, y: real, z: real, f: real)
    ensures Both(Both(Both(x, y), z), f) == Both(Both(Both(x, f), y), z)
    ensures Both(Both(Both(x, y), z), f) == Both(Both(x, Both(y, f)), z)
    ensures Both(Both(Both(x, y), z), f) == Both(Both(x, y), Both(z, f))
  {
    hide Both;
    BothAssociate(Both(x, y), z, f);
    BothCommute(z, f);
    BothAssociate(Both(x, y), f, z);
    BothAssociate(x, y, f);
    BothCommute(y, f);
    BothAssociate(x, f, y);
  }

  /** Success over `duration` under one noise. */
  ghost function Rate(model: ErrorModel, noise: real, m: Mode, duration: int): real {
    if duration == 0 then 1.0 else model(noise, duration, m)
  }

  lemma {:induction false} ProductOfShort(model: ErrorModel, cs: seq<Chunk>, m: Mode)
    requires |cs| <= 3
    ensures ProductOf(model, cs, m) ==
              Both(if |cs| > 0 && cs[0].mode == m then SuccessRate(model, cs[0]) else 1.0,
                   Both(if |cs| > 1 && cs[1].mode == m then SuccessRate(model, cs[1]) else 1.0,
                        if |cs| > 2 && cs[2].mode == m then SuccessRate(model, cs[2]) else 1.0))
  {
    hide SuccessRate, Both;
    BothOne(1.0);
    if |cs| > 0 {
      ProductOfShort(model, cs[1..], m);
      BothOne(if |cs| > 1 && cs[1].mode == m then SuccessRate(model, cs[1]) else 1.0);
      BothOne(if |cs| > 2 && cs[2].mode == m then SuccessRate(model, cs[2]) else 1.0);
    }
  }

  /** Between two changes, a mode succeeds over its exact share of the time. */
  lemma ChunksRate(model: ErrorModel, p: Preamble, l: Layout, previous: int, current: int, noise: real, m: Mode)
    requires Fits(p, l) && previous <= current
    ensures ProductOf(model, Chunks(p, l, previous, current, noise), m) ==
              Rate(model, noise, m, Share(p, l, m, previous, current))
  {
    hide Both;
    ProductOfShort(model, Chunks(p, l, previous, current, noise), m);
    BothOne(Rate(model, noise, m, Share(p, l, m, previous, current)));
    BothOne(1.0);
  }

  lemma ShareOfInstant(p: Preamble, l: Layout, m: Mode, t: int)
    requires Fits(p, l)
    ensures Share(p, l, m, t, t + 1) == if Covers(p, l, m, t) then 1 else 0
  {
  }

  lemma ShareNotNegative(p: Preamble, l: Layout, m: Mode, a: int, b: int)
    ensures 0 <= Share(p, l, m, a, b)
    ensures a == b && Fits(p, l) ==> Share(p, l, m, a, b) == 0
  {
  }

  /** Under one noise, success over a share is success over its instants. */
  lemma {:induction false} RateIsInstants(model: ErrorModel, p: Preamble, l: Layout, noise: real, m: Mode, a: int,
                                          b: int)
    requires Fits(p, l) && Multiplicative(model) && a <= b
    ensures Rate(model, noise, m, Share(p, l, m, a, b)) == InstantsOf(model, p, l, t => noise, m, a, b)
    decreases b - a
  {
    hide Share, Covers, Fits, Multiplicative, Both;
    ShareNotNegative(p, l, m, a, b);
    BothOne(Rate(model, noise, m, Share(p, l, m, a, b)));
    if a < b {
      RateIsInstants(model, p, l, noise, m, a, b - 1);
      ShareNotNegative(p, l, m, a, b - 1);
      ShareAdds(p, l, m, a, b - 1, b);
      ShareOfInstant(p, l, m, b - 1);
      if Covers(p, l, m, b - 1) {
        RateNext(model, noise, m, Share(p, l, m, a, b - 1));
      }
    }
  }

  lemma RateNext(model: ErrorModel, noise: real, m: Mode, duration: int)
    requires Multiplicative(model) && 0 <= duration
    ensures Rate(model, noise, m, duration + 1) == Both(Rate(model, noise, m, duration), model(noise, 1, m))
  {
    if duration > 0 {
      assert Splits(model, noise, duration, 1, m);
    }
  }

  // ---------------------------------------------------------------------------
  // Whole packets.

  /** Between two changes, the chunks of a mode succeed as its instants do. */
  lemma ChunksAreInstants(model: ErrorModel, p: Preamble, l: Layout, ni: seq<NiChange>, k: nat, noise: real, m: Mode)
    requires Fits(p, l) && Multiplicative(model) && Sorted(ni) && 1 <= k < |ni|
    requires noise == SumUpTo(ni[..k], ni[k - 1].time)
    ensures ProductOf(model, Chunks(p, l, ni[k - 1].time, ni[k].time, noise), m) ==
              InstantsOf(model, p, l, t => SumUpTo(ni, t), m, ni[k - 1].time, ni[k].time)
  {
    hide Chunks, Fits, Multiplicative, SumUpTo, InstantsOf;
    var previous, current := ni[k - 1].time, ni[k].time;
    ChunksRate(model, p, l, previous, current, noise, m);
    RateIsInstants(model, p, l, noise, m, previous, current);
    NoiseBetween(ni, k, previous);
    forall t | previous <= t < current
      ensures SumUpTo(ni, t) == noise
    {
      NoiseBetween(ni, k, t);
    }
    InstantsSame(model, p, l, t => noise, t => SumUpTo(ni, t), m, previous, current);
  }

  lemma {:induction false} AllChunksAreInstants(model: ErrorModel, p: Preamble, l: Layout, ni: seq<NiChange>, k: nat,
                                                noise: real, m: Mode)
    requires Fits(p, l) && Multiplicative(model) && Sorted(ni) && 1 <= k <= |ni|
    requires noise == SumUpTo(ni[..k], ni[k - 1].time)
    ensures ProductOf(model, AllChunks(p, l, ni, k, ni[k - 1].time, noise), m) ==
              InstantsOf(model, p, l, t => SumUpTo(ni, t), m, ni[k - 1].time, ni[|ni| - 1].time)
    decreases |ni| - k
  {
    hide Chunks, Fits, Multiplicative, SumUpTo, ProductOf, InstantsOf, Both;
    if k < |ni| {
      var previous, current, last := ni[k - 1].time, ni[k].time, ni[|ni| - 1].time;
      var rest := AllChunks(p, l, ni, k + 1, current, noise + ni[k].delta);
      NextNoise(ni, k, previous);
      AllChunksAreInstants(model, p, l, ni, k + 1, noise + ni[k].delta, m);
      ChunksAreInstants(model, p, l, ni, k, noise, m);
      ProductOfConcat(model, Chunks(p, l, previous, current, noise), rest, m);
      InstantsSplit(model, p, l, t => SumUpTo(ni, t), m, previous, current, last);
    } else {
      NoInstants(model, p, l, t => SumUpTo(ni, t), m, ni[k - 1].time);
      NoChunks(model, m);
    }
  }

  lemma NoInstants(model: ErrorModel, p: Preamble, l: Layout, noise: int -> real, m: Mode, a: int)
    ensures InstantsOf(model, p, l, noise, m, a, a) == 1.0
  {
  }

  lemma NoChunks(model: ErrorModel, m: Mode)
    ensures ProductOf(model, [], m) == 1.0
  {
  }

  /**
   The product over the chunks of a packet is the product over its instants, each in the mode
   it belongs to and under the noise of that instant.
   */
  lemma ProductIsSuccess(model: ErrorModel, p: Preamble, l: Layout, ni: seq<NiChange>)
    requires Fits(p, l) && Multiplicative(model) && Sorted(ni) && ni != []
    ensures Product(model, PacketChunks(p, l, ni)) ==
              Success(model, p, l, t => SumUpTo(ni, t), ni[0].time, ni[|ni| - 1].time)
  {
    hide Fits, Multiplicative, SumUpTo, ProductOf, InstantsOf, Product, AllChunks, Both;
    SumOfFirst(ni);
    ProductByMode(model, PacketChunks(p, l, ni));
    AllChunksAreInstants(model, p, l, ni, 1, ni[0].delta, Payload);
    AllChunksAreInstants(model, p, l, ni, 1, ni[0].delta, Header);
    AllChunksAreInstants(model, p, l, ni, 1, ni[0].delta, LegacyHeader);
  }

  /** An extra change of power zero within the packet leaves the success of the packet unchanged. */
  lemma ExtraChangeInvisible(model: ErrorModel, p: Preamble, l: Layout, ni: seq<NiChange>, k: nat, time: int)
    requires Fits(p, l) && Multiplicative(model) && Sorted(ni) && 0 < k < |ni| && ni[k - 1].time <= time <= ni[k].time
    ensures Product(model, PacketChunks(p, l, ni[..k] + [NiChange(time, 0.0)] + ni[k..])) ==
              Product(model, PacketChunks(p, l, ni))
  {
    hide Fits, Multiplicative, SumUpTo, Success, Product, PacketChunks;
    var more := ni[..k] + [NiChange(time, 0.0)] + ni[k..];
    ExtraIsSorted(ni, k, time);
    forall t: int
      ensures SumUpTo(more, t) == SumUpTo(ni, t)
    {
      ExtraAddsNothing(ni, k, time, t);
    }
    ProductIsSuccess(model, p, l, ni);
    ProductIsSuccess(model, p, l, more);
    SuccessSame(model, p, l, t => SumUpTo(ni, t), t => SumUpTo(more, t), ni[0].time, ni[|ni| - 1].time);
  }

  lemma ExtraIsSorted(ni: seq<NiChange>, k: nat, time: int)
    requires Sorted(ni) && 0 < k < |ni| && ni[k - 1].time <= time <= ni[k].time
    ensures var more := ni[..k] + [NiChange(time, 0.0)] + ni[k..];
            Sorted(more) && more[0] == ni[0] && more[|more| - 1] == ni[|ni| - 1]
  {
  }

  lemma ExtraAddsNothing(ni: seq<NiChange>, k: nat, time: int, t: int)
    requires k <= |ni|
    ensures SumUpTo(ni[..k] + [NiChange(time, 0.0)] + ni[k..], t) == SumUpTo(ni, t)
  {
    hide SumUpTo, SumAll;
    SumConcat(ni[..k] + [NiChange(time, 0.0)], ni[k..], t);
    SumConcat(ni[..k], [NiChange(time, 0.0)], t);
    SumOne(NiChange(time, 0.0), t);
    SumConcat(ni[..k], ni[k..], t);
    assert ni[..k] + ni[k..] == ni;
  }

  /**
   From arrivals to the packet error rate: for the packet that opened a reception, every
   instant succeeds in its own mode under the power of all other events at that instant.
   */
  lemma SuccessFromEvents(model: ErrorModel, p: Preamble, l: Layout, r: Record, before: seq<Event>, since: int,
                          e: Event, others: seq<Event>)
    requires Fits(p, l) && Multiplicative(model)
    requires Represents(r, before, since) && !r.rxing && since <= e.start <= e.end && Later(others, e.start)
    ensures var end := ReceiveAll(Append(r, e).(rxing := true), others);
            end.changes != [] && Product(model, PacketChunks(p, l, NoiseList(end, e))) ==
              Success(model, p, l, t => Present(before, t) + Present(others, t), e.start, e.end)
  {
    hide Fits, Multiplicative, SumUpTo, Success, Product, PacketChunks, Append, NoiseList, Represents, Opened, Later;
    var end := ReceiveAll(Append(r, e).(rxing := true), others);
    OpenedAtEnd(r, before, since, e, others);
    OpenedChanges(end, e);
    NoiseListSpansPacket(end, e);
    var ni := NoiseList(end, e);
    forall t | e.start <= t < e.end
      ensures SumUpTo(ni, t) == Present(before, t) + Present(others, t)
    {
      NoiseIsOtherPower(r, before, since, e, others, t);
    }
    ProductIsSuccess(model, p, l, ni);
    SuccessSame(model, p, l, t => SumUpTo(ni, t), t => Present(before, t) + Present(others, t), e.start, e.end);
  }

  lemma OpenedAtEnd(r: Record, before: seq<Event>, since: int, e: Event, others: seq<Event>)
    requires Represents(r, before, since) && !r.rxing && since <= e.start <= e.end && Later(others, e.start)
    ensures Opened(ReceiveAll(Append(r, e).(rxing := true), others), e)
  {
    hide Append, Opened, Later;
    OpeningOpens(r, e);
    AppendRepresents(r, before, since, e);
    SwitchRepresents(Append(r, e), before + [e], e.start, true);
    ReceptionRepresents(Append(r, e).(rxing := true), before + [e], e, e.start, others);
  }

  // ---------------------------------------------------------------------------
  // The method.

  /** CalculatePer: one minus the product over all chunks of the packet. */
  method CalculatePer(model: ErrorModel, p: Preamble, l: Layout, ni: seq<NiChange>) returns (per: real)
    requires Sorted(ni) && ni != []
    ensures per == 1.0 - Product(model, PacketChunks(p, l, ni))
    ensures Fits(p, l) && Multiplicative(model) ==>
              per == 1.0 - Success(model, p, l, t => SumUpTo(ni, t), ni[0].time, ni[|ni| - 1].time)
  {
    hide Chunks, Product, Success, Fits, Multiplicative;
    var psr := 1.0;
    var previous := ni[0].time;
    var noise := ni[0].delta;
    var j := 1;
    ghost var done: seq<Chunk> := [];
    EmptyProduct(model);
    while j != |ni|
      invariant 1 <= j <= |ni|
      invariant previous == ni[j - 1].time
      invariant psr == Product(model, done)
      invariant done + AllChunks(p, l, ni, j, previous, noise) == PacketChunks(p, l, ni)
      decreases |ni| - j
    {
      var current := ni[j].time;
      assert current >= previous;
      var cs := Chunks(p, l, previous, current, noise);
      psr := MultiplyChunks(model, psr, cs, done);
      ghost var rest := AllChunks(p, l, ni, j + 1, current, noise + ni[j].delta);
      assert done + (cs + rest) == (done + cs) + rest;
      done := done + cs;
      noise := noise + ni[j].delta;
      previous := current;
      j := j + 1;
    }
    assert done + [] == done;
    per := 1.0 - psr;
    if Fits(p, l) && Multiplicative(model) {
      ProductIsSuccess(model, p, l, ni);
    }
  }

  lemma EmptyProduct(model: ErrorModel)
    ensures Product(model, []) == 1.0
  {
  }
}
