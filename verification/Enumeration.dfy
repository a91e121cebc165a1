/**
 What the enumeration lists, stated over sets of nodes: a TT is listed exactly when it
 belongs to the best item set for some set of linked receivers.
 */
module Enumeration {
  import opened Subsets
  import opened Transmissions
  import opened MergedSchedules

  // ---------------------------------------------------------------------------
  // Vectors and sets of nodes.

  /** An increasing vector is the ascending vector of its elements. */
  lemma {:induction false} IncreasingIsAscending(l: seq<nat>, n: nat)
    requires Increasing(l) && Nodes(l, n)
    ensures l == Ascending(Elements(l), n)
    decreases n
  {
    if n > 0 {
      if n - 1 in l {
        LastIsLargest(l, n);
        var front := l[..|l| - 1];
        IncreasingIsAscending(front, n - 1);
        SameBelow(Elements(front), Elements(l), n - 1);
        assert n - 1 in Elements(l);
        assert Ascending(Elements(l), n) == Ascending(Elements(l), n - 1) + [n - 1];
        assert l == front + [l[|l| - 1]];
      } else {
        assert forall k :: 0 <= k < |l| ==> l[k] in l;
        IncreasingIsAscending(l, n - 1);
        assert n - 1 !in Elements(l);
      }
    } else if l != [] {
      SomeNode(l, n);
    }
  }

  lemma SomeNode(l: seq<nat>, n: nat)
    requires Nodes(l, n) && l != []
    ensures 0 < n
  {
    assert l[0] < n;
  }

  lemma LastIsLargest(l: seq<nat>, n: nat)
    requires Increasing(l) && Nodes(l, n) && n > 0 && n - 1 in l
    ensures l[|l| - 1] == n - 1 && Increasing(l[..|l| - 1]) && Nodes(l[..|l| - 1], n - 1)
    ensures forall x :: x < n - 1 ==> (x in Elements(l[..|l| - 1]) <==> x in Elements(l))
  {
    var k :| 0 <= k < |l| && l[k] == n - 1;
    var last := |l| - 1;
    assert l[k] <= l[last] < n;
    assert l == l[..last] + [n - 1];
  }

  lemma {:induction false} SameBelow(s: set<nat>, t: set<nat>, n: nat)
    requires forall x :: x < n ==> (x in s <==> x in t)
    ensures Ascending(s, n) == Ascending(t, n)
  {
    if n > 0 {
      SameBelow(s, t, n - 1);
    }
  }

  /** Nodes that a sender has a link to. */
  ghost predicate AllLinked(row: seq<nat>, nodes: set<nat>) {
    forall r :: r in nodes ==> r < |row| && row[r] > 0
  }

  lemma AscendingNodes(nodes: set<nat>, n: nat)
    ensures Nodes(Ascending(nodes, n), n)
  {
    var l := Ascending(nodes, n);
    assert forall k :: 0 <= k < |l| ==> l[k] in l;
  }

  /** The receiver vectors are exactly the ascending vectors of the sets of linked nodes. */
  lemma VectorOfNodes(row: seq<nat>, nodes: set<nat>) returns (i: nat)
    requires AllLinked(row, nodes)
    ensures i < |Vectors(row)| && Vectors(row)[i] == Ascending(nodes, |row|)
  {
    var l := NeighbourList(row, |row|);
    NeighbourListIncreases(row, |row|);
    assert l[0..] == l;
    assert nodes <= Elements(l);
    i := SublistsComplete(l, 0, [], nodes);
    SublistsIncrease(l, 0, [], Vectors(row)[i]);
    VectorsAreNodes(row, i);
    IncreasingIsAscending(Vectors(row)[i], |row|);
  }

  lemma NodesOfVector(row: seq<nat>, i: nat)
    requires i < |Vectors(row)|
    ensures AllLinked(row, Elements(Vectors(row)[i]))
    ensures Vectors(row)[i] == Ascending(Elements(Vectors(row)[i]), |row|)
  {
    NeighbourListIncreases(row, |row|);
    SublistsIncrease(NeighbourList(row, |row|), 0, [], Vectors(row)[i]);
    VectorsAreNodes(row, i);
    IncreasingIsAscending(Vectors(row)[i], |row|);
  }

  // ---------------------------------------------------------------------------
  // The best item set for a set of nodes.

  /** The missing items that sending `items` brings to the nodes below `n` whose links carry all of them. */
  ghost function TotalGain(ups: seq<Upload>, row: seq<nat>, nodes: set<nat>, items: set<nat>, n: nat): nat
    requires n <= |ups| == |row|
  {
    if n == 0 then 0
    else
      TotalGain(ups, row, nodes, items, n - 1) +
      if n - 1 in nodes && |items| <= row[n - 1] then |items * ups[n - 1].beta| else 0
  }

  lemma {:induction false} DeliveredIsTotal(ups: seq<Upload>, row: seq<nat>, nodes: set<nat>, items: set<nat>, n: nat)
    requires n <= |ups| == |row|
    ensures Nodes(Ascending(nodes, n), |ups|)
    ensures Delivered(ups, row, Ascending(nodes, n), items) == TotalGain(ups, row, nodes, items, n)
  {
    hide Delivered, Nodes;
    AscendingNodes(nodes, n);
    NodesBelow(Ascending(nodes, n), n, |ups|);
    DeliveredNone(ups, row, items);
    if n > 0 {
      DeliveredIsTotal(ups, row, nodes, items, n - 1);
      if n - 1 in nodes {
        DeliveredNext(ups, row, Ascending(nodes, n - 1), n - 1, items);
      }
    }
  }

  lemma NodesBelow(receivers: seq<nat>, m: nat, n: nat)
    requires Nodes(receivers, m) && m <= n
    ensures Nodes(receivers, n)
  {
  }

  lemma DeliveredNone(ups: seq<Upload>, row: seq<nat>, items: set<nat>)
    requires |row| == |ups|
    ensures Nodes([], |ups|) && Delivered(ups, row, [], items) == 0
  {
  }

  lemma DeliveredNext(ups: seq<Upload>, row: seq<nat>, receivers: seq<nat>, r: nat, items: set<nat>)
    requires |row| == |ups| && Nodes(receivers, |ups|) && Nodes(receivers + [r], |ups|) && r < |ups|
    ensures Delivered(ups, row, receivers + [r], items) ==
              Delivered(ups, row, receivers, items) + if |items| <= row[r] then |items * ups[r].beta| else 0
  {
    assert (receivers + [r])[..|receivers|] == receivers;
  }

  /** Leaving out items that nobody misses loses nothing. */
  lemma {:induction false} OnlyMissingCounts(ups: seq<Upload>, row: seq<nat>, nodes: set<nat>, items: set<nat>,
                                             part: set<nat>, n: nat)
    requires n <= |ups| == |row| && part <= items
    requires forall r :: r in nodes && r < n ==> items * ups[r].beta <= part
    ensures TotalGain(ups, row, nodes, items, n) <= TotalGain(ups, row, nodes, part, n)
  {
    if n > 0 {
      OnlyMissingCounts(ups, row, nodes, items, part, n - 1);
      ConflictGreedy.SubsetSize(part, items);
      if n - 1 in nodes {
        assert items * ups[n - 1].beta == part * ups[n - 1].beta;
      }
    }
  }

  lemma {:induction false} MissingHolds(ups: seq<Upload>, receivers: seq<nat>, r: nat)
    requires Nodes(receivers, |ups|) && r in receivers
    ensures ups[r].beta <= Missing(ups, receivers)
  {
    var k := |receivers| - 1;
    if receivers[k] != r {
      assert receivers == receivers[..k] + [receivers[k]];
      MissingHolds(ups, receivers[..k], r);
    }
  }

  /** The best item set found for a set of linked nodes. */
  ghost function BestFor(ups: seq<Upload>, row: seq<nat>, sender: nat, nodes: set<nat>): Candidate
    requires |row| == |ups| && sender < |ups|
  {
    AscendingNodes(nodes, |ups|);
    BestItems(ups, row, sender, Ascending(nodes, |ups|))
  }

  /** It brings as much as it counts, and no set of items the sender caches brings more. */
  lemma BestForIsBest(ups: seq<Upload>, row: seq<nat>, sender: nat, nodes: set<nat>, items: set<nat>)
    requires |row| == |ups| && sender < |ups| && ItemsInRange(ups) && items <= ups[sender].alpha
    ensures var best := BestFor(ups, row, sender, nodes);
            && best.items <= ups[sender].alpha
            && best.count == TotalGain(ups, row, nodes, best.items, |ups|)
            && TotalGain(ups, row, nodes, items, |ups|) <= best.count
  {
    hide Missing, BestItems;
    AscendingNodes(nodes, |ups|);
    var v := Ascending(nodes, |ups|);
    var best := BestFor(ups, row, sender, nodes);
    var part := items * Missing(ups, v);
    forall r | r in nodes && r < |ups|
      ensures items * ups[r].beta <= part
    {
      MissingHolds(ups, v, r);
    }
    OnlyMissingCounts(ups, row, nodes, items, part, |ups|);
    DeliveredIsTotal(ups, row, nodes, part, |ups|);
    BestItemsMaximal(ups, row, sender, v, part);
    BestItemsWithin(ups, row, sender, v);
    DeliveredIsTotal(ups, row, nodes, best.items, |ups|);
    CountIsDelivered(ups, row, sender, v);
  }

  lemma CountIsDelivered(ups: seq<Upload>, row: seq<nat>, sender: nat, receivers: seq<nat>)
    requires |row| == |ups| && sender < |ups| && Nodes(receivers, |ups|)
    ensures var best := BestItems(ups, row, sender, receivers);
            best.count == Delivered(ups, row, receivers, best.items)
  {
    var sets := ItemSets(Possible(ups, sender, receivers));
    var at := ScanFirstBest(ups, row, receivers, sets, |sets|);
    if BestItems(ups, row, sender, receivers).count == 0 {
      NothingSent(ups, row, receivers);
    }
  }

  lemma {:induction false} NothingSent(ups: seq<Upload>, row: seq<nat>, receivers: seq<nat>)
    requires |row| == |ups| && Nodes(receivers, |ups|)
    ensures Delivered(ups, row, receivers, {}) == 0
  {
    if receivers != [] {
      NothingSent(ups, row, receivers[..|receivers| - 1]);
      assert {} * ups[receivers[|receivers| - 1]].beta == {};
    }
  }

  // ---------------------------------------------------------------------------
  // The TTs listed.

  /** `t` sends the best item set for these nodes to one of them that can take it and misses some of it. */
  ghost predicate Arises(ups: seq<Upload>, cap: Capacities, t: TT, nodes: set<nat>)
    requires Table(cap, |ups|)
  {
    && t.sender < |ups| && AllLinked(cap[t.sender], nodes) && t.receiver in nodes
    && t.items == BestFor(ups, cap[t.sender], t.sender, nodes).items
    && |t.items| <= cap[t.sender][t.receiver] && t.items * ups[t.receiver].beta != {}
  }

  lemma {:induction false} CollectExact(ups: seq<Upload>, row: seq<nat>, sender: nat, items: set<nat>,
                                        receivers: seq<nat>, t: TT)
    requires |row| == |ups| && Nodes(receivers, |ups|)
    ensures t in Collect(ups, row, sender, items, receivers) <==>
              && t.sender == sender && t.items == items && t.receiver in receivers
              && |items| <= row[t.receiver] && items * ups[t.receiver].beta != {}
  {
    if receivers != [] {
      var k := |receivers| - 1;
      CollectExact(ups, row, sender, items, receivers[..k], t);
      assert receivers == receivers[..k] + [receivers[k]];
    }
  }

  /** The TTs for one vector. */
  lemma VectorExact(ups: seq<Upload>, row: seq<nat>, sender: nat, receivers: seq<nat>, t: TT)
    requires |row| == |ups| && sender < |ups| && Nodes(receivers, |ups|)
    ensures t in TTsForReceivers(ups, row, sender, receivers) <==>
              && t.sender == sender && t.items == BestItems(ups, row, sender, receivers).items
              && t.receiver in receivers
              && |t.items| <= row[t.receiver] && t.items * ups[t.receiver].beta != {}
  {
    hide Collect;
    var best := BestItems(ups, row, sender, receivers);
    CollectExact(ups, row, sender, best.items, receivers, t);
    var sets := ItemSets(Possible(ups, sender, receivers));
    var at := ScanFirstBest(ups, row, receivers, sets, |sets|);
  }

  lemma {:induction false} VectorsExact(ups: seq<Upload>, row: seq<nat>, sender: nat, vectors: seq<seq<nat>>, k: nat,
                                        t: TT)
    requires |row| == |ups| && sender < |ups| && k <= |vectors|
    requires forall i :: 0 <= i < k ==> Nodes(vectors[i], |ups|)
    ensures t in TTsForVectors(ups, row, sender, vectors, k) <==>
              exists i :: 0 <= i < k && t in TTsForReceivers(ups, row, sender, vectors[i])
  {
    hide TTsForReceivers;
    if k > 0 {
      VectorsExact(ups, row, sender, vectors, k - 1, t);
    }
  }

  lemma {:induction false} SendersExact(ups: seq<Upload>, cap: Capacities, s: nat, t: TT)
    requires Table(cap, |ups|) && s <= |ups|
    ensures t in AllTTs(ups, cap, s) <==> t.sender < s && t in TTsOfSender(ups, cap[t.sender], t.sender)
  {
    hide TTsForVectors, Vectors;
    if s > 0 {
      SendersExact(ups, cap, s - 1, t);
      SenderExact(ups, cap[s - 1], s - 1, t);
    }
  }

  lemma SenderExact(ups: seq<Upload>, row: seq<nat>, sender: nat, t: TT)
    requires |row| == |ups| && sender < |ups|
    ensures t in TTsOfSender(ups, row, sender) <==>
              exists i :: 0 <= i < |Vectors(row)| && Nodes(Vectors(row)[i], |ups|)
                       && t in TTsForReceivers(ups, row, sender, Vectors(row)[i])
    ensures t in TTsOfSender(ups, row, sender) ==> t.sender == sender
  {
    hide Vectors, TTsForReceivers;
    var vectors := Vectors(row);
    forall i | 0 <= i < |vectors| ensures Nodes(vectors[i], |ups|) { VectorsAreNodes(row, i); }
    VectorsExact(ups, row, sender, vectors, |vectors|, t);
    if t in TTsOfSender(ups, row, sender) {
      var i :| 0 <= i < |vectors| && t in TTsForReceivers(ups, row, sender, vectors[i]);
      VectorExact(ups, row, sender, vectors[i], t);
    }
  }

  /** A TT is listed if and only if it arises from some set of nodes its sender has links to. */
  lemma ListedIffArises(ups: seq<Upload>, cap: Capacities, t: TT)
    requires Table(cap, |ups|)
    ensures t in AllTTs(ups, cap, |ups|) <==> exists nodes :: Arises(ups, cap, t, nodes)
  {
    hide TTsOfSender, TTsForReceivers, BestItems, Vectors, AllTTs;
    SendersExact(ups, cap, |ups|, t);
    if t in AllTTs(ups, cap, |ups|) {
      var row := cap[t.sender];
      SenderExact(ups, row, t.sender, t);
      var i :| 0 <= i < |Vectors(row)| && Nodes(Vectors(row)[i], |ups|)
            && t in TTsForReceivers(ups, row, t.sender, Vectors(row)[i]);
      NodesOfVector(row, i);
      VectorExact(ups, row, t.sender, Vectors(row)[i], t);
      assert Arises(ups, cap, t, Elements(Vectors(row)[i]));
    }
    if nodes :| Arises(ups, cap, t, nodes) {
      var row := cap[t.sender];
      var i := VectorOfNodes(row, nodes);
      AscendingNodes(nodes, |ups|);
      VectorExact(ups, row, t.sender, Vectors(row)[i], t);
      SenderExact(ups, row, t.sender, t);
    }
  }

  /** The missing items brought to the nodes below `n` by the listed TTs of one sender and item set. */
  ghost function ListedGain(ups: seq<Upload>, all: seq<TT>, sender: nat, nodes: set<nat>, items: set<nat>, n: nat): nat
    requires n <= |ups|
  {
    if n == 0 then 0
    else
      ListedGain(ups, all, sender, nodes, items, n - 1) +
      if n - 1 in nodes && TT(sender, items, n - 1) in all then |items * ups[n - 1].beta| else 0
  }

  /** For every set of linked nodes, the listed TTs of its best item set bring all that this set can bring. */
  lemma ListedGainIsBest(ups: seq<Upload>, cap: Capacities, sender: nat, nodes: set<nat>)
    requires Table(cap, |ups|) && sender < |ups| && ItemsInRange(ups) && AllLinked(cap[sender], nodes)
    ensures var best := BestFor(ups, cap[sender], sender, nodes);
            ListedGain(ups, AllTTs(ups, cap, |ups|), sender, nodes, best.items, |ups|) == best.count
  {
    hide AllTTs, BestFor;
    var best := BestFor(ups, cap[sender], sender, nodes);
    BestForIsBest(ups, cap[sender], sender, nodes, {});
    ListedGainIsTotal(ups, cap, sender, nodes, |ups|);
  }

  lemma {:induction false} ListedGainIsTotal(ups: seq<Upload>, cap: Capacities, sender: nat, nodes: set<nat>, n: nat)
    requires Table(cap, |ups|) && sender < |ups| && AllLinked(cap[sender], nodes) && n <= |ups|
    ensures var items := BestFor(ups, cap[sender], sender, nodes).items;
            ListedGain(ups, AllTTs(ups, cap, |ups|), sender, nodes, items, n)
            == TotalGain(ups, cap[sender], nodes, items, n)
  {
    hide AllTTs, BestFor;
    if n > 0 {
      ListedGainIsTotal(ups, cap, sender, nodes, n - 1);
      var items := BestFor(ups, cap[sender], sender, nodes).items;
      var t := TT(sender, items, n - 1);
      ListedIffArises(ups, cap, t);
      if n - 1 in nodes {
        if |items| <= cap[sender][n - 1] && items * ups[n - 1].beta != {} {
          assert Arises(ups, cap, t, nodes);
        }
      }
    }
  }

  // ---------------------------------------------------------------------------
  // The merged TTs listed.

  lemma {:induction false} MergedVectorsExact(ups: seq<Upload>, row: seq<nat>, sender: nat, vectors: seq<seq<nat>>,
                                              k: nat, t: MergedTT)
    requires |row| == |ups| && sender < |ups| && k <= |vectors|
    requires forall i :: 0 <= i < k ==> Nodes(vectors[i], |ups|)
    ensures t in ForVectors(ups, row, sender, vectors, k) <==>
              exists i :: 0 <= i < k && vectors[i] == t.receivers && t.sender == sender
                       && BestItems(ups, row, sender, vectors[i]).count > 0
                       && t.items == BestItems(ups, row, sender, vectors[i]).items
  {
    hide BestItems;
    if k > 0 {
      MergedVectorsExact(ups, row, sender, vectors, k - 1, t);
    }
  }

  lemma {:induction false} MergedSendersExact(ups: seq<Upload>, cap: Capacities, s: nat, t: MergedTT)
    requires Table(cap, |ups|) && s <= |ups|
    ensures t in AllMerged(ups, cap, s) <==> t.sender < s && t in OfSender(ups, cap[t.sender], t.sender)
  {
    hide OfSender;
    if s > 0 {
      MergedSendersExact(ups, cap, s - 1, t);
      MergedSenderOwn(ups, cap[s - 1], s - 1, t);
    }
  }

  lemma MergedSenderOwn(ups: seq<Upload>, row: seq<nat>, sender: nat, t: MergedTT)
    requires |row| == |ups| && sender < |ups|
    ensures t in OfSender(ups, row, sender) ==> t.sender == sender
  {
    hide BestItems, Vectors;
    VectorsNodes(row);
    MergedVectorsExact(ups, row, sender, Vectors(row), |Vectors(row)|, t);
  }

  /**
   A merged TT is listed if and only if it sends the best item set, which brings something, for a
   set of linked nodes.
   */
  lemma MergedListedIff(ups: seq<Upload>, cap: Capacities, t: MergedTT)
    requires Table(cap, |ups|)
    ensures t in AllMerged(ups, cap, |ups|) <==>
              && t.sender < |ups| && AllLinked(cap[t.sender], Elements(t.receivers))
              && t.receivers == Ascending(Elements(t.receivers), |ups|)
              && BestFor(ups, cap[t.sender], t.sender, Elements(t.receivers)).count > 0
              && t.items == BestFor(ups, cap[t.sender], t.sender, Elements(t.receivers)).items
  {
    hide BestItems, Vectors, AllMerged;
    MergedSendersExact(ups, cap, |ups|, t);
    if t.sender < |ups| {
      var row, nodes := cap[t.sender], Elements(t.receivers);
      VectorsNodes(row);
      MergedVectorsExact(ups, row, t.sender, Vectors(row), |Vectors(row)|, t);
      if t in OfSender(ups, row, t.sender) {
        var i :| 0 <= i < |Vectors(row)| && Vectors(row)[i] == t.receivers;
        NodesOfVector(row, i);
      }
      if AllLinked(row, nodes) {
        var i := VectorOfNodes(row, nodes);
      }
    }
  }
}
