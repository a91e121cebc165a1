/**
 The greedy weighted-independent-set rule of the scheduler: while some vertex
 remains, choose the first one of largest weight / (degree + 1), where the degree
 counts remaining vertices only, and remove it together with its neighbours.
 */
module ConflictGreedy {
  import opened Numbers
  import opened IndexSums

  type Graph = seq<seq<bool>>

  ghost predicate Square(g: Graph) {
    forall i :: 0 <= i < |g| ==> |g[i]| == |g|
  }

  ghost predicate Symmetric(g: Graph)
    requires Square(g)
  {
    forall i, j :: 0 <= i < |g| && 0 <= j < |g| ==> g[i][j] == g[j][i]
  }

  ghost predicate Irreflexive(g: Graph)
    requires Square(g)
  {
    forall i :: 0 <= i < |g| ==> !g[i][i]
  }

  /** A weighted conflict graph, as the scheduler hands it to the greedy rule. */
  ghost predicate Weighted(g: Graph, w: seq<nat>) {
    Square(g) && |w| == |g|
  }

  ghost function Neighbours(g: Graph, r: set<nat>, v: nat): (s: set<nat>)
    requires Square(g) && v < |g|
  {
    set u | u in r && u < |g| && g[v][u]
  }

  /** The quantity the rule maximises. */
  ghost function Ratio(g: Graph, w: seq<nat>, r: set<nat>, v: nat): real
    requires Weighted(g, w) && v < |g|
  {
    w[v] as real / (|Neighbours(g, r, v)| + 1) as real
  }

  ghost function Ratios(g: Graph, w: seq<nat>, r: set<nat>): (score: seq<real>)
    requires Weighted(g, w)
    ensures |score| == |g|
  {
    seq(|g|, v requires 0 <= v < |g| => Ratio(g, w, r, v))
  }

  /** `v` is the smallest index among those of largest score. */
  ghost predicate IsBest(score: seq<real>, r: set<nat>, v: nat)
    requires Below(r, |score|)
  {
    && v in r
    && (forall u :: u in r ==> score[u] <= score[v])
    && (forall u :: u in r && u < v ==> score[u] < score[v])
  }

  lemma {:induction false} BestBelow(score: seq<real>, r: set<nat>, k: nat) returns (v: nat)
    requires Below(r, |score|) && k <= |score|
    requires exists u :: u in r && u < k
    ensures v in r && v < k
    ensures forall u :: u in r && u < k ==> score[u] <= score[v]
    ensures forall u :: u in r && u < v ==> score[u] < score[v]
  {
    if exists u :: u in r && u < k - 1 {
      v := BestBelow(score, r, k - 1);
      if k - 1 in r && score[k - 1] > score[v] {
        v := k - 1;
      }
    } else {
      v := k - 1;
    }
  }

  lemma BestExists(score: seq<real>, r: set<nat>)
    requires Below(r, |score|) && r != {}
    ensures exists v :: IsBest(score, r, v)
  {
    var u :| u in r;
    var v := BestBelow(score, r, |score|);
    assert IsBest(score, r, v);
  }

  ghost function Best(g: Graph, w: seq<nat>, r: set<nat>): (v: nat)
    requires Weighted(g, w) && Below(r, |g|) && r != {}
    ensures v in r && v < |g|
  {
    BestExists(Ratios(g, w, r), r);
    var v :| IsBest(Ratios(g, w, r), r, v);
    v
  }

  lemma BestIsBest(g: Graph, w: seq<nat>, r: set<nat>)
    requires Weighted(g, w) && Below(r, |g|) && r != {}
    ensures IsBest(Ratios(g, w, r), r, Best(g, w, r))
  {
    BestExists(Ratios(g, w, r), r);
  }

  /** There is only one best vertex, so a scan that finds one finds `Best`. */
  lemma BestUnique(g: Graph, w: seq<nat>, r: set<nat>, v: nat)
    requires Weighted(g, w) && Below(r, |g|) && r != {}
    requires IsBest(Ratios(g, w, r), r, v)
    ensures v == Best(g, w, r)
  {
    BestIsBest(g, w, r);
    var b := Best(g, w, r);
    assert b <= v && v <= b;
  }

  /** The chosen vertex has the largest ratio. */
  lemma BestRatio(g: Graph, w: seq<nat>, r: set<nat>, u: nat)
    requires Weighted(g, w) && Below(r, |g|) && u in r
    ensures Ratio(g, w, r, u) <= Ratio(g, w, r, Best(g, w, r))
  {
    BestIsBest(g, w, r);
    assert Ratios(g, w, r)[u] <= Ratios(g, w, r)[Best(g, w, r)];
  }

  /** What one iteration takes out of the remaining set. */
  ghost function Removed(g: Graph, r: set<nat>, v: nat): set<nat>
    requires Square(g) && v < |g|
  {
    {v} + Neighbours(g, r, v)
  }

  /** The set chosen from the remaining vertices `r`. */
  ghost function Chosen(g: Graph, w: seq<nat>, r: set<nat>): set<nat>
    requires Weighted(g, w) && Below(r, |g|)
    decreases r
  {
    if r == {} then {}
    else
      var v := Best(g, w, r);
      {v} + Chosen(g, w, r - Removed(g, r, v))
  }

  // ---------------------------------------------------------------------------
  // The chosen set is a maximal independent set.

  ghost predicate Independent(g: Graph, s: set<nat>)
    requires Square(g)
  {
    forall i, j :: i in s && j in s && i < |g| && j < |g| ==> !g[i][j]
  }

  lemma {:induction false} ChosenWithin(g: Graph, w: seq<nat>, r: set<nat>)
    requires Weighted(g, w) && Below(r, |g|)
    ensures Chosen(g, w, r) <= r
    decreases r
  {
    if r != {} {
      ChosenWithin(g, w, r - Removed(g, r, Best(g, w, r)));
    }
  }

  lemma {:induction false} ChosenIndependent(g: Graph, w: seq<nat>, r: set<nat>)
    requires Weighted(g, w) && Below(r, |g|) && Symmetric(g) && Irreflexive(g)
    ensures Independent(g, Chosen(g, w, r))
    decreases r
  {
    hide Ratio;
    if r != {} {
      var v := Best(g, w, r);
      var rest := r - Removed(g, r, v);
      ChosenIndependent(g, w, rest);
      ChosenWithin(g, w, rest);
      assert forall u :: u in rest ==> !g[v][u] && !g[u][v];
    }
  }

  /** Some chosen vertex is next to `u`. */
  ghost predicate Blocked(g: Graph, s: set<nat>, u: nat)
    requires Square(g) && u < |g|
  {
    exists v :: v in s && v < |g| && g[u][v]
  }

  lemma {:induction false} ChosenMaximal(g: Graph, w: seq<nat>, r: set<nat>, u: nat)
    requires Weighted(g, w) && Below(r, |g|) && Symmetric(g) && u in r
    ensures u in Chosen(g, w, r) || Blocked(g, Chosen(g, w, r), u)
    decreases r
  {
    hide Ratio;
    var v := Best(g, w, r);
    var rest := r - Removed(g, r, v);
    if u in rest {
      ChosenMaximal(g, w, rest, u);
    } else if u != v {
      assert g[v][u] && g[u][v];
    }
  }

  // ---------------------------------------------------------------------------
  // The weight of the chosen set.

  ghost function Reals(w: seq<nat>): (f: seq<real>)
    ensures |f| == |w| && forall i :: 0 <= i < |w| ==> f[i] == w[i] as real
  {
    seq(|w|, i requires 0 <= i < |w| => w[i] as real)
  }

  ghost function Weight(w: seq<nat>, s: set<nat>): real {
    Sum(Reals(w), s, |w|)
  }

  lemma DegreeMonotone(g: Graph, r: set<nat>, t: set<nat>, v: nat)
    requires Square(g) && v < |g| && r <= t
    ensures |Neighbours(g, r, v)| <= |Neighbours(g, t, v)|
  {
    SubsetSize(Neighbours(g, r, v), Neighbours(g, t, v));
  }

  lemma SubsetSize(s: set<nat>, t: set<nat>)
    requires s <= t
    ensures |s| <= |t|
  {
    assert t == s + (t - s);
  }

  lemma RatioShare(g: Graph, w: seq<nat>, r: set<nat>, v: nat)
    requires Weighted(g, w) && v < |g|
    ensures 0.0 <= Ratio(g, w, r, v)
    ensures Times(Ratio(g, w, r, v), |Neighbours(g, r, v)| + 1) == w[v] as real
  {
    DivTimes(w[v] as real, |Neighbours(g, r, v)|);
  }

  lemma DivTimes(x: real, k: nat)
    ensures (x / (k + 1) as real) * (k + 1) as real == x
    ensures 0.0 <= x ==> 0.0 <= x / (k + 1) as real
  {
  }

  /** One iteration removes a set of total `weight / (degree + 1)` at most the weight it chooses. */
  lemma StepShare(g: Graph, w: seq<nat>, r: set<nat>, share: seq<real>)
    requires Weighted(g, w) && Below(r, |g|) && r != {} && Irreflexive(g) && |share| == |g|
    requires forall u :: u in r ==> share[u] <= Ratio(g, w, r, u)
    ensures Sum(share, Removed(g, r, Best(g, w, r)), |g|) <= w[Best(g, w, r)] as real
  {
    hide Times, Ratio;
    var v := Best(g, w, r);
    var gone := Removed(g, r, v);
    var c := Ratio(g, w, r, v);
    forall u | u in gone
      ensures share[u] <= c
    {
      BestRatio(g, w, r, u);
    }
    SumBounded(share, gone, |g|, c);
    assert v !in Neighbours(g, r, v);
    assert |gone| == |Neighbours(g, r, v)| + 1;
    RatioShare(g, w, r, v);
  }

  /**
   The chosen weight is at least the sum over all vertices of weight / (degree + 1),
   the degrees taken in any graph part `full` that contains the remaining vertices.
   */
  lemma {:induction false} ChosenShareBound(g: Graph, w: seq<nat>, r: set<nat>, full: set<nat>, share: seq<real>)
    requires Weighted(g, w) && Below(full, |g|) && r <= full && Irreflexive(g) && |share| == |g|
    requires forall u :: u in full ==> share[u] == Ratio(g, w, full, u)
    ensures Sum(share, r, |g|) <= Weight(w, Chosen(g, w, r))
    decreases r
  {
    hide Ratio;
    if r == {} {
      SumOutside(share, r, |g|);
      SumOutside(Reals(w), r, |w|);
    } else {
      var v := Best(g, w, r);
      var gone := Removed(g, r, v);
      var rest := r - gone;
      forall u | u in r
        ensures share[u] <= Ratio(g, w, r, u)
      {
        RatioAntitone(g, w, r, full, u);
      }
      StepShare(g, w, r, share);
      ChosenShareBound(g, w, rest, full, share);
      assert r == gone + rest;
      SumSplit(share, gone, rest, |g|);
      ChosenWeightStep(g, w, r);
    }
  }

  /** Removing vertices lowers degrees, so ratios only grow. */
  lemma RatioAntitone(g: Graph, w: seq<nat>, r: set<nat>, full: set<nat>, u: nat)
    requires Weighted(g, w) && u < |g| && r <= full
    ensures Ratio(g, w, full, u) <= Ratio(g, w, r, u)
  {
    DegreeMonotone(g, r, full, u);
    DivAntitone(w[u] as real, (|Neighbours(g, r, u)| + 1) as real, (|Neighbours(g, full, u)| + 1) as real);
  }

  lemma DivAntitone(a: real, b: real, c: real)
    requires 0.0 <= a && 0.0 < b <= c
    ensures a / c <= a / b
  {
    var x, y := a / c, a / b;
    assert x * c == a && y * b == a;
    assert 0.0 <= x;
    DivOrder(x, y, b, c);
  }

  lemma DivOrder(x: real, y: real, b: real, c: real)
    requires 0.0 <= x && 0.0 < b <= c && x * c == y * b
    ensures x <= y
  {
    assert x * (c - b) >= 0.0;
    assert (y - x) * b == x * (c - b);
  }

  lemma ChosenWeightStep(g: Graph, w: seq<nat>, r: set<nat>)
    requires Weighted(g, w) && Below(r, |g|) && r != {}
    ensures var v := Best(g, w, r);
            Weight(w, Chosen(g, w, r)) == w[v] as real + Weight(w, Chosen(g, w, r - Removed(g, r, v)))
  {
    var v := Best(g, w, r);
    var rest := r - Removed(g, r, v);
    ChosenWithin(g, w, rest);
    SumSplit(Reals(w), {v}, Chosen(g, w, rest), |w|);
    SumSingleton(Reals(w), v, |w|);
  }

  ghost predicate DegreesAtMost(g: Graph, r: set<nat>, d: nat)
    requires Square(g)
  {
    forall v :: v in r && v < |g| ==> |Neighbours(g, r, v)| <= d
  }

  /** A vertex next to the chosen one weighs at most (D + 1) / (degree + 1) of the chosen weight. */
  lemma NeighbourWeight(g: Graph, w: seq<nat>, r: set<nat>, u: nat, d: nat)
    requires Weighted(g, w) && Below(r, |g|) && u in r && DegreesAtMost(g, r, d)
    ensures w[u] as real <= Times(Ratio(g, w, r, Best(g, w, r)), d + 1)
  {
    hide Times, Ratio;
    RatioShare(g, w, r, u);
    BestRatio(g, w, r, u);
    TimesMonotone(Ratio(g, w, r, u), Ratio(g, w, r, Best(g, w, r)), |Neighbours(g, r, u)| + 1, d + 1);
  }

  /** What an independent set can lose in one iteration: the charge to the vertex chosen there. */
  lemma StepCharge(g: Graph, w: seq<nat>, r: set<nat>, opt: set<nat>, d: nat)
    requires Weighted(g, w) && Below(r, |g|) && r != {} && Symmetric(g) && Irreflexive(g)
    requires DegreesAtMost(g, r, d) && opt <= r && Independent(g, opt)
    ensures Weight(w, opt * Removed(g, r, Best(g, w, r))) <= Times(w[Best(g, w, r)] as real, Max(1, d))
  {
    hide Times, Ratio;
    var v := Best(g, w, r);
    var hit := opt * Removed(g, r, v);
    var x := w[v] as real;
    if v in opt {
      assert hit == {v};
      SumSingleton(Reals(w), v, |w|);
      TimesOne(x);
      TimesMonotone(x, x, 1, Max(1, d));
    } else {
      var k := |Neighbours(g, r, v)|;
      var q := Ratio(g, w, r, v);
      assert hit <= Neighbours(g, r, v);
      SubsetSize(hit, Neighbours(g, r, v));
      var c := Times(q, d + 1);
      forall u | u in hit
        ensures Reals(w)[u] <= c
      {
        NeighbourWeight(g, w, r, u, d);
      }
      SumBounded(Reals(w), hit, |w|, c);
      RatioShare(g, w, r, v);
      ChargeArithmetic(x, q, |hit|, k, d);
    }
  }

  lemma TimesOne(x: real)
    ensures Times(x, 1) == x
  {
  }

  lemma ChargeArithmetic(x: real, q: real, h: nat, k: nat, d: nat)
    requires 0.0 <= q && h <= k <= d && x == Times(q, k + 1)
    ensures Times(Times(q, d + 1), h) <= Times(x, Max(1, d))
  {
    var lhs := (d + 1) as real * h as real;
    var rhs := Max(1, d) as real * (k + 1) as real;
    CrossBound(h, k, d);
    assert q * (rhs - lhs) >= 0.0;
    assert Times(Times(q, d + 1), h) == q * lhs;
    assert Times(x, Max(1, d)) == q * rhs;
  }

  lemma CrossBound(h: nat, k: nat, d: nat)
    requires h <= k <= d
    ensures (d + 1) as real * h as real <= Max(1, d) as real * (k + 1) as real
  {
    var a, b, c := h as real, k as real, d as real;
    assert (c + 1.0) * a <= (c + 1.0) * b by { assert (c + 1.0) * (b - a) >= 0.0; }
    assert (c + 1.0) * b <= c * (b + 1.0);
    assert c * (b + 1.0) <= Max(1, d) as real * (b + 1.0) by { assert (Max(1, d) as real - c) * (b + 1.0) >= 0.0; }
  }

  /**
   Approximation ratio: no independent set weighs more than max(1, D) times the chosen
   set, where D bounds the degrees. Each vertex of the other set is charged to the
   iteration that removed it.
   */
  lemma {:induction false} ChosenApproximates(g: Graph, w: seq<nat>, r: set<nat>, opt: set<nat>, d: nat)
    requires Weighted(g, w) && Below(r, |g|) && Symmetric(g) && Irreflexive(g)
    requires DegreesAtMost(g, r, d) && opt <= r && Independent(g, opt)
    ensures Weight(w, opt) <= Times(Weight(w, Chosen(g, w, r)), Max(1, d))
    decreases r
  {
    hide Times, Ratio, Weight, Independent, DegreesAtMost, Symmetric, Irreflexive;
    var k := Max(1, d);
    if r == {} {
      assert opt == {} && Chosen(g, w, r) == {};
      WeightOfNone(w);
      TimesZero(k);
    } else {
      var v := Best(g, w, r);
      var gone := Removed(g, r, v);
      var rest := r - gone;
      SmallerGraph(g, r, rest, opt, opt - gone, d);
      ChosenApproximates(g, w, rest, opt - gone, d);
      StepCharge(g, w, r, opt, d);
      WeightParts(w, opt, gone);
      ChosenWeightStep(g, w, r);
      TimesPlus(w[v] as real, Weight(w, Chosen(g, w, rest)), k);
    }
  }

  lemma SmallerGraph(g: Graph, r: set<nat>, rest: set<nat>, opt: set<nat>, opt': set<nat>, d: nat)
    requires Square(g) && DegreesAtMost(g, r, d) && rest <= r && Independent(g, opt) && opt' <= opt
    ensures DegreesAtMost(g, rest, d) && Independent(g, opt')
  {
    forall u | u in rest && u < |g|
      ensures |Neighbours(g, rest, u)| <= d
    {
      DegreeMonotone(g, rest, r, u);
    }
  }

  lemma WeightParts(w: seq<nat>, s: set<nat>, t: set<nat>)
    ensures Weight(w, s) == Weight(w, s * t) + Weight(w, s - t)
  {
    assert s == (s * t) + (s - t);
    SumSplit(Reals(w), s * t, s - t, |w|);
  }

  lemma WeightOfNone(w: seq<nat>)
    ensures Weight(w, {}) == 0.0
  {
    SumOutside(Reals(w), {}, |w|);
  }

  lemma TimesZero(k: nat)
    ensures Times(0.0, k) == 0.0
  {
  }

  lemma RatioSign(g: Graph, w: seq<nat>, r: set<nat>, v: nat)
    requires Weighted(g, w) && v < |g|
    ensures 0.0 < Ratio(g, w, r, v) <==> 0 < w[v]
  {
  }

  /** With all vertices remaining at the start, some positive weight means a positive total is chosen. */
  lemma ChosenPositive(g: Graph, w: seq<nat>, r: set<nat>, u: nat)
    requires Weighted(g, w) && Below(r, |g|) && u in r && 0 < w[u]
    ensures 1.0 <= Weight(w, Chosen(g, w, r))
  {
    hide Ratio, Chosen, Neighbours, Best;
    var v := Best(g, w, r);
    BestRatio(g, w, r, u);
    RatioSign(g, w, r, u);
    RatioSign(g, w, r, v);
    ChosenWeightStep(g, w, r);
    WeightNonNegative(w, Chosen(g, w, r - Removed(g, r, v)), |w|);
  }

  lemma {:induction false} WeightNonNegative(w: seq<nat>, s: set<nat>, n: nat)
    requires n <= |w|
    ensures 0.0 <= Sum(Reals(w), s, n)
  {
    if n > 0 {
      WeightNonNegative(w, s, n - 1);
    }
  }

  // ---------------------------------------------------------------------------
  // The loops.

  /** The degree count of the inner loop. */
  method CountNeighbours(g: array2<bool>, n: nat, remaining: set<nat>, v: nat, ghost m: Graph) returns (degree: nat)
    requires Matches(g, n, m) && Below(remaining, n) && v < n
    ensures degree == |Neighbours(m, remaining, v)|
  {
    degree := 0;
    ghost var seen: set<nat> := {};
    for u := 0 to n
      invariant seen == set x | x in remaining && x < u && m[v][x]
      invariant degree == |seen|
    {
      if u in remaining && g[v, u] {
        degree := degree + 1;
        seen := seen + {u};
      }
    }
    assert seen == Neighbours(m, remaining, v);
  }

  /** `m` is the graph stored in the first n rows and columns of the table. */
  ghost predicate Matches(g: array2<bool>, n: nat, m: Graph)
    reads g
  {
    && g.Length0 == n && g.Length1 == n && |m| == n && Square(m)
    && forall i, j :: 0 <= i < n && 0 <= j < n ==> g[i, j] == m[i][j]
  }

  /** One pass over the remaining vertices: the first one of largest ratio. */
  method PickBest(g: array2<bool>, w: array<nat>, n: nat, remaining: set<nat>, ghost m: Graph) returns (best: nat)
    requires Matches(g, n, m) && w.Length == n && Below(remaining, n) && remaining != {}
    ensures best == Best(m, w[..], remaining)
  {
    ghost var score := Ratios(m, w[..], remaining);
    var found := false;
    var maxValue: real := -1.0;
    best := 0;
    for first := 0 to n
      invariant found <==> exists u :: u in remaining && u < first
      invariant !found ==> maxValue == -1.0
      invariant found ==> best in remaining && best < first && maxValue == score[best]
      invariant found ==> forall u :: u in remaining && u < first ==> score[u] <= maxValue
      invariant found ==> forall u :: u in remaining && u < best ==> score[u] < maxValue
    {
      if first in remaining {
        var degree := CountNeighbours(g, n, remaining, first, m);
        var target := w[first] as real / (degree + 1) as real;
        assert target == score[first];
        if target > maxValue {
          maxValue := target;
          best := first;
        }
        found := true;
      }
    }
    assert IsBest(Ratios(m, w[..], remaining), remaining, best);
    BestUnique(m, w[..], remaining, best);
  }

  /** GreedyAlgorithm: the identifiers chosen from the n vertices of the conflict graph. */
  method GreedyAlgorithm(g: array2<bool>, w: array<nat>, n: nat, ghost m: Graph) returns (chosen: set<nat>)
    requires Matches(g, n, m) && w.Length == n && Irreflexive(m)
    ensures chosen == Chosen(m, w[..], All(n))
  {
    hide Chosen, Best, Ratio, Neighbours;
    var remaining: set<nat> := {};
    for i := 0 to n
      invariant remaining == All(i)
    {
      remaining := remaining + {i};
    }
    chosen := {};
    while remaining != {}
      invariant Below(remaining, n)
      invariant chosen + Chosen(m, w[..], remaining) == Chosen(m, w[..], All(n))
      decreases remaining
    {
      ChosenUnfolds(m, w[..], remaining);
      var v := PickBest(g, w, n, remaining, m);
      ghost var before := remaining;
      chosen := chosen + {v};
      remaining := remaining - {v};
      remaining := Discard(g, n, remaining, v, m);
      DiscardsNeighbours(m, before, v);
      assert remaining == before - Removed(m, before, v);
    }
    ChosenUnfolds(m, w[..], {});
  }

  lemma DiscardsNeighbours(g: Graph, r: set<nat>, v: nat)
    requires Square(g) && v < |g|
    ensures r - Removed(g, r, v) == r - {v} - Neighbours(g, r - {v}, v)
  {
  }

  lemma ChosenUnfolds(g: Graph, w: seq<nat>, r: set<nat>)
    requires Weighted(g, w) && Below(r, |g|)
    ensures Chosen(g, w, r) == if r == {} then {} else
              {Best(g, w, r)} + Chosen(g, w, r - Removed(g, r, Best(g, w, r)))
  {
  }

  /** The loop that erases the neighbours of the chosen vertex. */
  method Discard(g: array2<bool>, n: nat, from: set<nat>, v: nat, ghost m: Graph) returns (remaining: set<nat>)
    requires Matches(g, n, m) && Below(from, n) && v < n
    ensures remaining == from - Neighbours(m, from, v)
  {
    remaining := from;
    for i := 0 to n
      invariant remaining <= from
      invariant forall u :: u in from ==> (u in remaining <==> u >= i || !m[v][u])
    {
      if g[v, i] {
        remaining := remaining - {i};
      }
    }
  }
}
