/**
 Sums of a table of numbers over a set of indices. The scheduler weighs sets of
 tentative transmissions with them, and the caches of a round are counted with them.
 */
module IndexSums {

  /** The sum of `f[i]` over the indices `i < n` that are in `s`. */
  ghost function Sum(f: seq<real>, s: set<nat>, n: nat): real
    requires n <= |f|
  {
    if n == 0 then 0.0
    else Sum(f, s, n - 1) + if n - 1 in s then f[n - 1] else 0.0
  }

  ghost predicate Below(s: set<nat>, n: nat) {
    forall i :: i in s ==> i < n
  }

  /** The indices below `n`. */
  ghost function All(n: nat): (s: set<nat>)
    ensures forall i: nat :: i in s <==> i < n
  {
    if n == 0 then {} else All(n - 1) + {n - 1}
  }

  lemma {:induction false} SumSplit(f: seq<real>, s: set<nat>, t: set<nat>, n: nat)
    requires n <= |f| && s !! t
    ensures Sum(f, s + t, n) == Sum(f, s, n) + Sum(f, t, n)
  {
    if n > 0 {
      SumSplit(f, s, t, n - 1);
    }
  }

  lemma {:induction false} SumOutside(f: seq<real>, s: set<nat>, n: nat)
    requires n <= |f| && forall i :: i in s ==> n <= i
    ensures Sum(f, s, n) == 0.0
  {
    if n > 0 {
      SumOutside(f, s, n - 1);
    }
  }

  lemma {:induction false} SumSingleton(f: seq<real>, v: nat, n: nat)
    requires v < n <= |f|
    ensures Sum(f, {v}, n) == f[v]
  {
    if v == n - 1 {
      SumOutside(f, {v}, n - 1);
    } else {
      SumSingleton(f, v, n - 1);
    }
  }

  lemma {:induction false} SumMonotone(f: seq<real>, g: seq<real>, s: set<nat>, n: nat)
    requires n <= |f| && n <= |g|
    requires forall i :: i in s && i < n ==> f[i] <= g[i]
    ensures Sum(f, s, n) <= Sum(g, s, n)
  {
    if n > 0 {
      SumMonotone(f, g, s, n - 1);
    }
  }

  /** `k` copies of `x`; a named product, so that proofs about sums need no nonlinear arithmetic. */
  ghost function Times(x: real, k: nat): real {
    x * k as real
  }

  lemma TimesNext(x: real, k: nat)
    ensures Times(x, k + 1) == Times(x, k) + x
  {
  }

  lemma TimesPlus(x: real, y: real, k: nat)
    ensures Times(x + y, k) == Times(x, k) + Times(y, k)
  {
  }

  lemma TimesMonotone(x: real, y: real, k: nat, m: nat)
    requires x <= y && 0.0 <= y && k <= m
    ensures Times(x, k) <= Times(y, m)
  {
    assert (y - x) * k as real >= 0.0;
    assert y * (m - k) as real >= 0.0;
  }

  /** Numbers that are each at most `c` sum to at most `c` times how many there are. */
  lemma {:induction false} SumBounded(f: seq<real>, s: set<nat>, n: nat, c: real)
    requires n <= |f| && Below(s, n)
    requires forall i :: i in s ==> f[i] <= c
    ensures Sum(f, s, n) <= Times(c, |s|)
    decreases n
  {
    if n == 0 {
      assert s == {};
    } else if n - 1 in s {
      var t := s - {n - 1};
      SumBounded(f, t, n - 1, c);
      SumSame(f, s, t, n - 1);
      assert |s| == |t| + 1;
      TimesNext(c, |t|);
    } else {
      SumBounded(f, s, n - 1, c);
    }
  }

  /** Only the indices below `n` matter. */
  lemma {:induction false} SumSame(f: seq<real>, s: set<nat>, t: set<nat>, n: nat)
    requires n <= |f| && forall i :: i < n ==> (i in s <==> i in t)
    ensures Sum(f, s, n) == Sum(f, t, n)
  {
    if n > 0 {
      SumSame(f, s, t, n - 1);
    }
  }
}
