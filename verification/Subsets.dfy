/**
 The two-way recursion that lists every sub-vector of a vector: at each position first
 without the element, then with it.
 */
module Subsets {

  function Sublists<T>(xs: seq<T>, i: nat, temp: seq<T>): (l: seq<seq<T>>)
    requires i <= |xs|
    ensures |l| > 0
    decreases |xs| - i
  {
    if i == |xs| then [temp]
    else Sublists(xs, i + 1, temp) + Sublists(xs, i + 1, temp + [xs[i]])
  }

  function Elements<T(!new)>(xs: seq<T>): (s: set<T>)
    ensures forall x :: x in s <==> x in xs
  {
    set x | x in xs
  }

  ghost predicate Distinct<T>(xs: seq<T>) {
    forall i, j :: 0 <= i < j < |xs| ==> xs[i] != xs[j]
  }

  /** No element of `temp` occurs again from position `i` on. */
  ghost predicate Fresh<T(!new)>(xs: seq<T>, i: nat, temp: seq<T>)
    requires i <= |xs|
  {
    forall x, j :: x in temp && i <= j < |xs| ==> xs[j] != x
  }

  ghost function Power(n: nat): nat {
    if n == 0 then 1 else 2 * Power(n - 1)
  }

  lemma {:induction false} SublistsCount<T>(xs: seq<T>, i: nat, temp: seq<T>)
    requires i <= |xs|
    ensures |Sublists(xs, i, temp)| == Power(|xs| - i)
    decreases |xs| - i
  {
    if i < |xs| {
      SublistsCount(xs, i + 1, temp);
      SublistsCount(xs, i + 1, temp + [xs[i]]);
    }
  }

  /** Every listed vector is `temp` followed by elements taken from position `i` on. */
  lemma {:induction false} SublistsWithin<T(!new)>(xs: seq<T>, i: nat, temp: seq<T>, l: seq<T>)
    requires i <= |xs| && l in Sublists(xs, i, temp)
    ensures temp <= l
    ensures forall x :: x in l ==> x in temp || exists j :: i <= j < |xs| && xs[j] == x
    decreases |xs| - i
  {
    if i < |xs| {
      var with := temp + [xs[i]];
      if l in Sublists(xs, i + 1, temp) {
        SublistsWithin(xs, i + 1, temp, l);
      } else {
        SublistsWithin(xs, i + 1, with, l);
        assert temp <= with;
      }
    }
  }

  /** Every set between `temp` and `temp` plus the rest is listed. */
  lemma {:induction false} SublistsComplete<T(!new)>(xs: seq<T>, i: nat, temp: seq<T>, s: set<T>) returns (k: nat)
    requires i <= |xs|
    requires Elements(temp) <= s <= Elements(temp) + Elements(xs[i..])
    ensures k < |Sublists(xs, i, temp)| && Elements(Sublists(xs, i, temp)[k]) == s
    decreases |xs| - i
  {
    if i == |xs| {
      k := 0;
    } else {
      assert xs[i..] == [xs[i]] + xs[i + 1..];
      var without := Sublists(xs, i + 1, temp);
      if xs[i] in s {
        var with := temp + [xs[i]];
        k := SublistsComplete(xs, i + 1, with, s);
        k := |without| + k;
      } else {
        k := SublistsComplete(xs, i + 1, temp, s);
      }
    }
  }

  /**
   Subsets come before their supersets. In particular equal sets sit at one position,
   so every subset is listed exactly once.
   */
  lemma {:induction false} SublistsOrdered<T(!new)>(xs: seq<T>, i: nat, temp: seq<T>, a: nat, b: nat)
    requires i <= |xs| && Distinct(xs) && Fresh(xs, i, temp)
    requires a < |Sublists(xs, i, temp)| && b < |Sublists(xs, i, temp)|
    requires Elements(Sublists(xs, i, temp)[a]) <= Elements(Sublists(xs, i, temp)[b])
    ensures a <= b
    decreases |xs| - i
  {
    if i < |xs| {
      var x := xs[i];
      var without := Sublists(xs, i + 1, temp);
      var with := Sublists(xs, i + 1, temp + [x]);
      if a < |without| && b < |without| {
        SublistsOrdered(xs, i + 1, temp, a, b);
      } else if a >= |without| && b >= |without| {
        SublistsOrdered(xs, i + 1, temp + [x], a - |without|, b - |without|);
      } else if a >= |without| {
        HalvesDiffer(xs, i, temp, with[a - |without|], without[b]);
        assert false;
      }
    }
  }

  /** A vector listed with element `i` is never a subset of one listed without it. */
  lemma HalvesDiffer<T(!new)>(xs: seq<T>, i: nat, temp: seq<T>, la: seq<T>, lb: seq<T>)
    requires i < |xs| && Distinct(xs) && Fresh(xs, i, temp)
    requires la in Sublists(xs, i + 1, temp + [xs[i]]) && lb in Sublists(xs, i + 1, temp)
    ensures !(Elements(la) <= Elements(lb))
  {
    SublistsWithin(xs, i + 1, temp + [xs[i]], la);
    SublistsWithin(xs, i + 1, temp, lb);
    assert la[|temp|] == (temp + [xs[i]])[|temp|] == xs[i];
    assert xs[i] in Elements(la) && xs[i] !in Elements(lb);
  }

  // ---------------------------------------------------------------------------
  // Vectors filled from a std::set, in ascending order.

  /** The members of `s` below `n`, ascending. */
  function Ascending(s: set<nat>, n: nat): (l: seq<nat>)
    ensures forall x :: x in l <==> x in s && x < n
  {
    if n == 0 then []
    else if n - 1 in s then Ascending(s, n - 1) + [n - 1]
    else Ascending(s, n - 1)
  }

  ghost predicate Increasing(l: seq<nat>) {
    forall i, j :: 0 <= i < j < |l| ==> l[i] < l[j]
  }

  lemma {:induction false} AscendingIncreases(s: set<nat>, n: nat)
    ensures Increasing(Ascending(s, n))
  {
    if n > 0 {
      AscendingIncreases(s, n - 1);
      if n - 1 in s {
        var l := Ascending(s, n - 1);
        assert forall i :: 0 <= i < |l| ==> l[i] in l;
      }
    }
  }

  /** A sub-vector of an increasing vector is increasing. */
  lemma {:induction false} SublistsIncrease(xs: seq<nat>, i: nat, temp: seq<nat>, l: seq<nat>)
    requires i <= |xs| && Increasing(xs) && Increasing(temp)
    requires forall k, j :: 0 <= k < |temp| && i <= j < |xs| ==> temp[k] < xs[j]
    requires l in Sublists(xs, i, temp)
    ensures Increasing(l)
    decreases |xs| - i
  {
    if i < |xs| {
      if l in Sublists(xs, i + 1, temp) {
        SublistsIncrease(xs, i + 1, temp, l);
      } else {
        SublistsIncrease(xs, i + 1, temp + [xs[i]], l);
      }
    }
  }
}
