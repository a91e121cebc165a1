/**
 Tentative transmissions (TTs): a sender, the items it would broadcast and one receiver
 that wants some of them. They are enumerated over all receiver subsets of a sender's
 neighbours and, for each, over all item subsets worth sending.
 */
module Transmissions {
  import opened Subsets

  /** What one node reports: the items it caches, the items it misses, 1 for an RSU and 0 for an OBU. */
  datatype Upload = Upload(alpha: set<nat>, beta: set<nat>, rsuOrObu: nat)

  datatype TT = TT(sender: nat, items: set<nat>, receiver: nat)

  /** Items are uint8_t values. */
  const ITEM_LIMIT: nat := 256

  type Capacities = seq<seq<nat>>

  ghost predicate Table(cap: Capacities, n: nat) {
    |cap| == n && forall i :: 0 <= i < n ==> |cap[i]| == n
  }

  ghost predicate ItemsInRange(ups: seq<Upload>) {
    forall i, x :: 0 <= i < |ups| && (x in ups[i].alpha || x in ups[i].beta) ==> x < ITEM_LIMIT
  }

  ghost predicate Nodes(receivers: seq<nat>, n: nat) {
    forall k :: 0 <= k < |receivers| ==> receivers[k] < n
  }

  // ---------------------------------------------------------------------------
  // The best item set for a vector of receivers.

  /** What all receivers miss, together. */
  ghost function Missing(ups: seq<Upload>, receivers: seq<nat>): set<nat>
    requires Nodes(receivers, |ups|)
  {
    if receivers == [] then {}
    else Missing(ups, receivers[..|receivers| - 1]) + ups[receivers[|receivers| - 1]].beta
  }

  /** New items that sending `items` brings to receiver `r` on a link of this capacity. */
  ghost function Gain(ups: seq<Upload>, row: seq<nat>, r: nat, items: set<nat>): nat
    requires r < |ups| == |row|
  {
    if row[r] >= |items| then |items * ups[r].beta| else 0
  }

  ghost function Delivered(ups: seq<Upload>, row: seq<nat>, receivers: seq<nat>, items: set<nat>): nat
    requires |row| == |ups| && Nodes(receivers, |ups|)
  {
    if receivers == [] then 0
    else
      var k := |receivers| - 1;
      Delivered(ups, row, receivers[..k], items) + Gain(ups, row, receivers[k], items)
  }

  datatype Candidate = Candidate(count: nat, items: set<nat>)

  /** The strict-improvement scan over the first `k` item sets. */
  ghost function Scan(ups: seq<Upload>, row: seq<nat>, receivers: seq<nat>, sets: seq<set<nat>>, k: nat): Candidate
    requires |row| == |ups| && Nodes(receivers, |ups|) && k <= |sets|
  {
    if k == 0 then Candidate(0, {})
    else
      var best := Scan(ups, row, receivers, sets, k - 1);
      var current := Delivered(ups, row, receivers, sets[k - 1]);
      if best.count < current then Candidate(current, sets[k - 1]) else best
  }

  /** The scan keeps the first of the best. */
  lemma {:induction false} ScanFirstBest(ups: seq<Upload>, row: seq<nat>, receivers: seq<nat>, sets: seq<set<nat>>,
                                         k: nat)
      returns (at: nat)
    requires |row| == |ups| && Nodes(receivers, |ups|) && k <= |sets|
    ensures var best := Scan(ups, row, receivers, sets, k);
            && (forall j :: 0 <= j < k ==> Delivered(ups, row, receivers, sets[j]) <= best.count)
            && (best.count == 0 ==> best.items == {})
            && (best.count > 0 ==> at < k && sets[at] == best.items)
            && (best.count > 0 ==> Delivered(ups, row, receivers, best.items) == best.count)
            && (best.count > 0 ==> forall j :: 0 <= j < at ==> Delivered(ups, row, receivers, sets[j]) < best.count)
  {
    at := 0;
    if k > 0 {
      at := ScanFirstBest(ups, row, receivers, sets, k - 1);
      if Scan(ups, row, receivers, sets, k - 1).count < Delivered(ups, row, receivers, sets[k - 1]) {
        at := k - 1;
      }
    }
  }

  ghost function ToSets(l: seq<seq<nat>>): (sets: seq<set<nat>>)
    ensures |sets| == |l| && forall i :: 0 <= i < |l| ==> sets[i] == Elements(l[i])
  {
    seq(|l|, i requires 0 <= i < |l| => Elements(l[i]))
  }

  /** All item sets, in the order of the recursion. */
  ghost function ItemSets(possible: set<nat>): seq<set<nat>> {
    ToSets(Sublists(Ascending(possible, ITEM_LIMIT), 0, []))
  }

  ghost function Possible(ups: seq<Upload>, sender: nat, receivers: seq<nat>): set<nat>
    requires sender < |ups| && Nodes(receivers, |ups|)
  {
    ups[sender].alpha * Missing(ups, receivers)
  }

  ghost function BestItems(ups: seq<Upload>, row: seq<nat>, sender: nat, receivers: seq<nat>): Candidate
    requires |row| == |ups| && sender < |ups| && Nodes(receivers, |ups|)
  {
    var sets := ItemSets(Possible(ups, sender, receivers));
    Scan(ups, row, receivers, sets, |sets|)
  }

  lemma ItemSetsComplete(possible: set<nat>, s: set<nat>) returns (k: nat)
    requires forall x :: x in possible ==> x < ITEM_LIMIT
    requires s <= possible
    ensures k < |ItemSets(possible)| && ItemSets(possible)[k] == s
  {
    var xs := Ascending(possible, ITEM_LIMIT);
    assert xs[0..] == xs;
    k := SublistsComplete(xs, 0, [], s);
  }

  lemma ItemSetsOrdered(possible: set<nat>, a: nat, b: nat)
    requires a < |ItemSets(possible)| && b < |ItemSets(possible)|
    requires ItemSets(possible)[a] <= ItemSets(possible)[b]
    ensures a <= b
  {
    var xs := Ascending(possible, ITEM_LIMIT);
    AscendingIncreases(possible, ITEM_LIMIT);
    SublistsOrdered(xs, 0, [], a, b);
  }

  lemma ItemSetsWithin(possible: set<nat>, a: nat)
    requires a < |ItemSets(possible)|
    ensures ItemSets(possible)[a] <= possible
  {
    var xs := Ascending(possible, ITEM_LIMIT);
    SublistsWithin(xs, 0, [], Sublists(xs, 0, [])[a]);
  }

  /** No item set delivers more than the one found. */
  lemma BestItemsMaximal(ups: seq<Upload>, row: seq<nat>, sender: nat, receivers: seq<nat>, s: set<nat>)
    requires |row| == |ups| && sender < |ups| && Nodes(receivers, |ups|) && ItemsInRange(ups)
    requires s <= Possible(ups, sender, receivers)
    ensures Delivered(ups, row, receivers, s) <= BestItems(ups, row, sender, receivers).count
  {
    var possible := Possible(ups, sender, receivers);
    var sets := ItemSets(possible);
    var k := ItemSetsComplete(possible, s);
    var at := ScanFirstBest(ups, row, receivers, sets, |sets|);
  }

  /** Dropping items from the one found always loses deliveries. */
  lemma BestItemsMinimal(ups: seq<Upload>, row: seq<nat>, sender: nat, receivers: seq<nat>, s: set<nat>)
    requires |row| == |ups| && sender < |ups| && Nodes(receivers, |ups|) && ItemsInRange(ups)
    requires BestItems(ups, row, sender, receivers).count > 0
    requires s < BestItems(ups, row, sender, receivers).items
    ensures Delivered(ups, row, receivers, s) < BestItems(ups, row, sender, receivers).count
  {
    var possible := Possible(ups, sender, receivers);
    var sets := ItemSets(possible);
    var at := ScanFirstBest(ups, row, receivers, sets, |sets|);
    ItemSetsWithin(possible, at);
    var k := ItemSetsComplete(possible, s);
    ItemSetsOrdered(possible, k, at);
  }

  lemma BestItemsWithin(ups: seq<Upload>, row: seq<nat>, sender: nat, receivers: seq<nat>)
    requires |row| == |ups| && sender < |ups| && Nodes(receivers, |ups|)
    ensures BestItems(ups, row, sender, receivers).items <= Possible(ups, sender, receivers)
  {
    var possible := Possible(ups, sender, receivers);
    var sets := ItemSets(possible);
    var at := ScanFirstBest(ups, row, receivers, sets, |sets|);
    if BestItems(ups, row, sender, receivers).count > 0 {
      ItemSetsWithin(possible, at);
    }
  }

  /** If no capable receiver wants `x`, leaving it out delivers as much. */
  lemma {:induction false} UselessItem(ups: seq<Upload>, row: seq<nat>, receivers: seq<nat>, items: set<nat>, x: nat)
    requires |row| == |ups| && Nodes(receivers, |ups|) && x in items
    requires forall k :: 0 <= k < |receivers| && row[receivers[k]] >= |items| ==> x !in ups[receivers[k]].beta
    ensures Delivered(ups, row, receivers, items) <= Delivered(ups, row, receivers, items - {x})
  {
    if receivers != [] {
      var k := |receivers| - 1;
      UselessItem(ups, row, receivers[..k], items, x);
      var b := ups[receivers[k]].beta;
      assert |items - {x}| == |items| - 1;
      if row[receivers[k]] >= |items| {
        assert (items - {x}) * b == items * b;
      }
    }
  }

  /** Every item sent is wanted by a receiver that can take the whole set. */
  lemma BestItemsUseful(ups: seq<Upload>, row: seq<nat>, sender: nat, receivers: seq<nat>, x: nat) returns (k: nat)
    requires |row| == |ups| && sender < |ups| && Nodes(receivers, |ups|) && ItemsInRange(ups)
    requires x in BestItems(ups, row, sender, receivers).items
    ensures var items := BestItems(ups, row, sender, receivers).items;
            k < |receivers| && row[receivers[k]] >= |items| && x in ups[receivers[k]].beta
  {
    var best := BestItems(ups, row, sender, receivers);
    var sets := ItemSets(Possible(ups, sender, receivers));
    var at := ScanFirstBest(ups, row, receivers, sets, |sets|);
    if forall j :: 0 <= j < |receivers| && row[receivers[j]] >= |best.items| ==> x !in ups[receivers[j]].beta {
      UselessItem(ups, row, receivers, best.items, x);
      BestItemsMinimal(ups, row, sender, receivers, best.items - {x});
      assert false;
    }
    k :| k < |receivers| && row[receivers[k]] >= |best.items| && x in ups[receivers[k]].beta;
  }

  // ---------------------------------------------------------------------------
  // The list of all TTs.

  ghost predicate Reaches(ups: seq<Upload>, row: seq<nat>, items: set<nat>, r: nat)
    requires r < |ups| == |row|
  {
    row[r] >= |items| && items * ups[r].beta != {}
  }

  /** One TT per receiver in the vector that the item set reaches. */
  ghost function Collect(ups: seq<Upload>, row: seq<nat>, sender: nat, items: set<nat>, receivers: seq<nat>): seq<TT>
    requires |row| == |ups| && Nodes(receivers, |ups|)
  {
    if receivers == [] then []
    else
      var k := |receivers| - 1;
      Collect(ups, row, sender, items, receivers[..k]) +
      if Reaches(ups, row, items, receivers[k]) then [TT(sender, items, receivers[k])] else []
  }

  ghost function TTsForReceivers(ups: seq<Upload>, row: seq<nat>, sender: nat, receivers: seq<nat>): seq<TT>
    requires |row| == |ups| && sender < |ups| && Nodes(receivers, |ups|)
  {
    var best := BestItems(ups, row, sender, receivers);
    if best.count == 0 then [] else Collect(ups, row, sender, best.items, receivers)
  }

  /** The first `k` receiver vectors. */
  ghost function TTsForVectors(ups: seq<Upload>, row: seq<nat>, sender: nat, vectors: seq<seq<nat>>, k: nat): seq<TT>
    requires |row| == |ups| && sender < |ups| && k <= |vectors|
    requires forall i :: 0 <= i < k ==> Nodes(vectors[i], |ups|)
  {
    if k == 0 then []
    else TTsForVectors(ups, row, sender, vectors, k - 1) + TTsForReceivers(ups, row, sender, vectors[k - 1])
  }

  /** The nodes below `n` with a positive capacity, ascending. */
  ghost function NeighbourList(row: seq<nat>, n: nat): (l: seq<nat>)
    requires n <= |row|
    ensures forall r: nat :: r in l <==> r < n && row[r] > 0
    ensures Nodes(l, n)
  {
    if n == 0 then []
    else if row[n - 1] > 0 then NeighbourList(row, n - 1) + [n - 1]
    else NeighbourList(row, n - 1)
  }

  ghost function Vectors(row: seq<nat>): seq<seq<nat>> {
    Sublists(NeighbourList(row, |row|), 0, [])
  }

  lemma VectorsAreNodes(row: seq<nat>, i: nat)
    requires i < |Vectors(row)|
    ensures forall r: nat :: r in Vectors(row)[i] ==> r < |row| && row[r] > 0
    ensures Nodes(Vectors(row)[i], |row|)
  {
    var l := NeighbourList(row, |row|);
    var v := Vectors(row)[i];
    SublistsWithin(l, 0, [], v);
    forall r: nat | r in v
      ensures r < |row| && row[r] > 0
    {
      var j :| 0 <= j < |l| && l[j] == r;
      assert l[j] in l;
    }
    assert forall k :: 0 <= k < |v| ==> v[k] in v;
  }

  ghost function TTsOfSender(ups: seq<Upload>, row: seq<nat>, sender: nat): seq<TT>
    requires |row| == |ups| && sender < |ups|
  {
    var vectors := Vectors(row);
    assert forall i :: 0 <= i < |vectors| ==> Nodes(vectors[i], |ups|) by {
      forall i | 0 <= i < |vectors| ensures Nodes(vectors[i], |ups|) { VectorsAreNodes(row, i); }
    }
    TTsForVectors(ups, row, sender, vectors, |vectors|)
  }

  ghost function AllTTs(ups: seq<Upload>, cap: Capacities, s: nat): seq<TT>
    requires Table(cap, |ups|) && s <= |ups|
  {
    if s == 0 then [] else AllTTs(ups, cap, s - 1) + TTsOfSender(ups, cap[s - 1], s - 1)
  }

  /**
   What makes a TT worth considering: the link carries all its items, the sender has them, the
   receiver misses one.
   */
  ghost predicate Sound(ups: seq<Upload>, cap: Capacities, t: TT)
    requires Table(cap, |ups|)
  {
    && t.sender < |ups| && t.receiver < |ups|
    && 1 <= |t.items| <= cap[t.sender][t.receiver]
    && t.items <= ups[t.sender].alpha
    && t.items * ups[t.receiver].beta != {}
  }

  lemma {:induction false} CollectSound(ups: seq<Upload>, cap: Capacities, sender: nat, items: set<nat>,
                                        receivers: seq<nat>)
    requires Table(cap, |ups|) && sender < |ups| && Nodes(receivers, |ups|) && items <= ups[sender].alpha
    ensures forall t :: t in Collect(ups, cap[sender], sender, items, receivers) ==> Sound(ups, cap, t)
  {
    if receivers != [] {
      var k := |receivers| - 1;
      CollectSound(ups, cap, sender, items, receivers[..k]);
      if Reaches(ups, cap[sender], items, receivers[k]) {
        var x :| x in items * ups[receivers[k]].beta;
        assert |items| != 0;
      }
    }
  }

  lemma {:induction false} VectorsSound(ups: seq<Upload>, cap: Capacities, sender: nat, vectors: seq<seq<nat>>, k: nat)
    requires Table(cap, |ups|) && sender < |ups| && k <= |vectors|
    requires forall i :: 0 <= i < k ==> Nodes(vectors[i], |ups|)
    ensures forall t :: t in TTsForVectors(ups, cap[sender], sender, vectors, k) ==>
              Sound(ups, cap, t) && t.sender == sender
  {
    hide BestItems, Collect, Sound;
    if k > 0 {
      VectorsSound(ups, cap, sender, vectors, k - 1);
      var best := BestItems(ups, cap[sender], sender, vectors[k - 1]);
      BestItemsWithin(ups, cap[sender], sender, vectors[k - 1]);
      CollectSound(ups, cap, sender, best.items, vectors[k - 1]);
      CollectFrom(ups, cap[sender], sender, best.items, vectors[k - 1]);
    }
  }

  lemma {:induction false} CollectFrom(ups: seq<Upload>, row: seq<nat>, sender: nat, items: set<nat>,
                                       receivers: seq<nat>)
    requires |row| == |ups| && Nodes(receivers, |ups|)
    ensures forall t :: t in Collect(ups, row, sender, items, receivers) ==> t.sender == sender && t.items == items
  {
    if receivers != [] {
      CollectFrom(ups, row, sender, items, receivers[..|receivers| - 1]);
    }
  }

  /** Every listed TT is sound. */
  lemma {:induction false} AllTTsSound(ups: seq<Upload>, cap: Capacities, s: nat)
    requires Table(cap, |ups|) && s <= |ups|
    ensures forall t :: t in AllTTs(ups, cap, s) ==> Sound(ups, cap, t)
  {
    if s > 0 {
      AllTTsSound(ups, cap, s - 1);
      var vectors := Vectors(cap[s - 1]);
      forall i | 0 <= i < |vectors| ensures Nodes(vectors[i], |ups|) { VectorsAreNodes(cap[s - 1], i); }
      VectorsSound(ups, cap, s - 1, vectors, |vectors|);
    }
  }

  // ---------------------------------------------------------------------------
  // A useful link always yields a TT.

  lemma SingleReceiverTT(ups: seq<Upload>, row: seq<nat>, sender: nat, r: nat)
    requires |row| == |ups| && sender < |ups| && r < |ups| && ItemsInRange(ups)
    requires row[r] > 0 && ups[sender].alpha * ups[r].beta != {}
    ensures |TTsForReceivers(ups, row, sender, [r])| > 0
  {
    var x :| x in ups[sender].alpha * ups[r].beta;
    assert [r][..0] == [];
    assert Missing(ups, [r]) == ups[r].beta;
    assert {x} <= Possible(ups, sender, [r]);
    BestItemsMaximal(ups, row, sender, [r], {x});
    assert {x} * ups[r].beta == {x};
    assert Delivered(ups, row, [r], {x}) == 1;
    var best := BestItems(ups, row, sender, [r]);
    var sets := ItemSets(Possible(ups, sender, [r]));
    var at := ScanFirstBest(ups, row, [r], sets, |sets|);
    assert Delivered(ups, row, [r], best.items) == Gain(ups, row, r, best.items) > 0;
    assert best.items * ups[r].beta != {};
    assert Reaches(ups, row, best.items, r);
    assert |Collect(ups, row, sender, best.items, [r])| > 0;
  }

  lemma {:induction false} VectorsCover(ups: seq<Upload>, row: seq<nat>, sender: nat, vectors: seq<seq<nat>>, k: nat,
                                        i: nat)
    requires |row| == |ups| && sender < |ups| && i < k <= |vectors|
    requires forall j :: 0 <= j < k ==> Nodes(vectors[j], |ups|)
    requires |TTsForReceivers(ups, row, sender, vectors[i])| > 0
    ensures |TTsForVectors(ups, row, sender, vectors, k)| > 0
  {
    hide TTsForReceivers;
    if i < k - 1 {
      VectorsCover(ups, row, sender, vectors, k - 1, i);
    }
  }

  lemma SenderCovers(ups: seq<Upload>, row: seq<nat>, sender: nat, r: nat)
    requires |row| == |ups| && sender < |ups| && r < |ups| && ItemsInRange(ups)
    requires row[r] > 0 && ups[sender].alpha * ups[r].beta != {}
    ensures |TTsOfSender(ups, row, sender)| > 0
  {
    var l := NeighbourList(row, |row|);
    var vectors := Vectors(row);
    NeighbourListIncreases(row, |row|);
    assert r in l;
    assert l[0..] == l;
    var i := SublistsComplete(l, 0, [], {r});
    forall j | 0 <= j < |vectors| ensures Nodes(vectors[j], |ups|) { VectorsAreNodes(row, j); }
    SublistsIncrease(l, 0, [], vectors[i]);
    SingletonVector(vectors[i], r);
    SingleReceiverTT(ups, row, sender, r);
    VectorsCover(ups, row, sender, vectors, |vectors|, i);
  }

  lemma SingletonVector(l: seq<nat>, r: nat)
    requires Increasing(l) && Elements(l) == {r}
    ensures l == [r]
  {
    assert forall i :: 0 <= i < |l| ==> l[i] in Elements(l);
    if |l| > 1 {
      FirstTwo(l);
    }
    assert r in l;
  }

  lemma FirstTwo(l: seq<nat>)
    requires Increasing(l) && |l| > 1
    ensures l[0] < l[1]
  {
  }

  lemma {:induction false} NeighbourListIncreases(row: seq<nat>, n: nat)
    requires n <= |row|
    ensures Increasing(NeighbourList(row, n))
  {
    if n > 0 {
      NeighbourListIncreases(row, n - 1);
    }
  }

  lemma {:induction false} AllTTsCover(ups: seq<Upload>, cap: Capacities, s: nat, sender: nat, r: nat)
    requires Table(cap, |ups|) && sender < s <= |ups| && r < |ups| && ItemsInRange(ups)
    requires cap[sender][r] > 0 && ups[sender].alpha * ups[r].beta != {}
    ensures |AllTTs(ups, cap, s)| > 0
  {
    hide TTsOfSender;
    if sender == s - 1 {
      SenderCovers(ups, cap[sender], sender, r);
    } else {
      AllTTsCover(ups, cap, s - 1, sender, r);
    }
  }
}
