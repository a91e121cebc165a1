/**
 Deletion loses no weight: of the TTs of one link, the first one listed is the heaviest, and
 nothing before it dominates it.
 */
module Deletion {
  import opened IndexSums
  import opened Subsets
  import opened Transmissions
  import opened Schedules

  /** The missing items a TT brings to its receiver. */
  ghost function Brought(ups: seq<Upload>, t: TT): nat
    requires t.receiver < |ups|
  {
    |t.items * ups[t.receiver].beta|
  }

  ghost predicate SameLink(a: TT, b: TT) {
    a.sender == b.sender && a.receiver == b.receiver
  }

  /** What the receiver vector with a single node delivers. */
  lemma DeliveredToOne(ups: seq<Upload>, row: seq<nat>, r: nat, items: set<nat>)
    requires |row| == |ups| && r < |ups|
    ensures Delivered(ups, row, [r], items) == Gain(ups, row, r, items)
    ensures Missing(ups, [r]) == ups[r].beta
  {
    assert [r][..0] == [];
  }

  /** The vector with a single receiver yields one TT, with the best item set for it. */
  lemma SingletonTT(ups: seq<Upload>, row: seq<nat>, sender: nat, r: nat)
    requires |row| == |ups| && sender < |ups| && r < |ups| && ItemsInRange(ups)
    requires row[r] > 0 && ups[sender].alpha * ups[r].beta != {}
    ensures var best := BestItems(ups, row, sender, [r]);
            && TTsForReceivers(ups, row, sender, [r]) == [TT(sender, best.items, r)]
            && Brought(ups, TT(sender, best.items, r)) == best.count
  {
    SingleReceiverTT(ups, row, sender, r);
    var best := BestItems(ups, row, sender, [r]);
    var sets := ItemSets(Possible(ups, sender, [r]));
    var at := ScanFirstBest(ups, row, [r], sets, |sets|);
    DeliveredToOne(ups, row, r, best.items);
    assert [r][..0] == [];
    assert Collect(ups, row, sender, best.items, []) == [];
  }

  /** No TT of a link brings more than the best item set for its receiver alone. */
  lemma SingletonHeaviest(ups: seq<Upload>, cap: Capacities, t: TT)
    requires Table(cap, |ups|) && ItemsInRange(ups) && Sound(ups, cap, t)
    ensures Brought(ups, t) <= BestItems(ups, cap[t.sender], t.sender, [t.receiver]).count
  {
    var row, r := cap[t.sender], t.receiver;
    var s := t.items * ups[r].beta;
    DeliveredToOne(ups, row, r, s);
    assert s <= Possible(ups, t.sender, [r]);
    BestItemsMaximal(ups, row, t.sender, [r], s);
    ConflictGreedy.SubsetSize(s, t.items);
    assert s * ups[r].beta == s;
  }

  // ---------------------------------------------------------------------------
  // The first TT of a link.

  /** The vector of `r` alone comes before every other vector with `r`. */
  lemma FirstVector(row: seq<nat>, r: nat) returns (i: nat)
    requires r < |row| && row[r] > 0
    ensures i < |Vectors(row)| && Vectors(row)[i] == [r]
    ensures forall j :: 0 <= j < i ==> r !in Vectors(row)[j]
  {
    var l := NeighbourList(row, |row|);
    NeighbourListIncreases(row, |row|);
    assert r in l && l[0..] == l;
    i := SublistsComplete(l, 0, [], {r});
    SublistsIncrease(l, 0, [], Vectors(row)[i]);
    SingletonVector(Vectors(row)[i], r);
    forall j: nat | j < i
      ensures r !in Vectors(row)[j]
    {
      if r in Vectors(row)[j] {
        assert r in Elements(Vectors(row)[j]);
        SublistsOrdered(l, 0, [], i, j);
        assert false;
      }
    }
  }

  lemma {:induction false} CollectReceivers(ups: seq<Upload>, row: seq<nat>, sender: nat, items: set<nat>,
                                            receivers: seq<nat>)
    requires |row| == |ups| && Nodes(receivers, |ups|)
    ensures forall t :: t in Collect(ups, row, sender, items, receivers) ==> t.receiver in receivers
  {
    if receivers != [] {
      CollectReceivers(ups, row, sender, items, receivers[..|receivers| - 1]);
    }
  }

  /** Vectors without `r` yield no TT for `r`. */
  lemma {:induction false} VectorsWithout(ups: seq<Upload>, row: seq<nat>, sender: nat, vectors: seq<seq<nat>>, k: nat,
                                          r: nat)
    requires |row| == |ups| && sender < |ups| && k <= |vectors|
    requires forall i :: 0 <= i < k ==> Nodes(vectors[i], |ups|) && r !in vectors[i]
    ensures forall t :: t in TTsForVectors(ups, row, sender, vectors, k) ==> t.receiver != r
  {
    hide BestItems, Collect;
    if k > 0 {
      VectorsWithout(ups, row, sender, vectors, k - 1, r);
      CollectReceivers(ups, row, sender, BestItems(ups, row, sender, vectors[k - 1]).items, vectors[k - 1]);
    }
  }

  lemma {:induction false} VectorsGrow(ups: seq<Upload>, row: seq<nat>, sender: nat, vectors: seq<seq<nat>>, k: nat,
                                       n: nat)
    requires |row| == |ups| && sender < |ups| && k <= n <= |vectors|
    requires forall i :: 0 <= i < n ==> Nodes(vectors[i], |ups|)
    ensures TTsForVectors(ups, row, sender, vectors, k) <= TTsForVectors(ups, row, sender, vectors, n)
  {
    hide TTsForReceivers;
    if k < n {
      VectorsGrow(ups, row, sender, vectors, k, n - 1);
    }
  }

  /** The first TT of a link among those of its sender. */
  lemma FirstOfSender(ups: seq<Upload>, row: seq<nat>, sender: nat, r: nat) returns (k: nat)
    requires |row| == |ups| && sender < |ups| && r < |ups| && ItemsInRange(ups)
    requires row[r] > 0 && ups[sender].alpha * ups[r].beta != {}
    ensures k < |TTsOfSender(ups, row, sender)|
    ensures TTsOfSender(ups, row, sender)[k] == TT(sender, BestItems(ups, row, sender, [r]).items, r)
    ensures forall j :: 0 <= j < k ==> TTsOfSender(ups, row, sender)[j].receiver != r
  {
    hide BestItems, TTsForReceivers;
    var vectors := Vectors(row);
    forall j | 0 <= j < |vectors| ensures Nodes(vectors[j], |ups|) { VectorsAreNodes(row, j); }
    var i := FirstVector(row, r);
    SingletonTT(ups, row, sender, r);
    VectorsWithout(ups, row, sender, vectors, i, r);
    VectorsGrow(ups, row, sender, vectors, i + 1, |vectors|);
    var before := TTsForVectors(ups, row, sender, vectors, i);
    k := |before|;
    assert TTsForVectors(ups, row, sender, vectors, i + 1) == before + TTsForReceivers(ups, row, sender, [r]);
    assert forall j :: 0 <= j < k ==> before[j] in before;
  }

  lemma {:induction false} SendersBelow(ups: seq<Upload>, cap: Capacities, s: nat)
    requires Table(cap, |ups|) && s <= |ups|
    ensures forall t :: t in AllTTs(ups, cap, s) ==> t.sender < s
  {
    if s > 0 {
      SendersBelow(ups, cap, s - 1);
      var vectors := Vectors(cap[s - 1]);
      forall i | 0 <= i < |vectors| ensures Nodes(vectors[i], |ups|) { VectorsAreNodes(cap[s - 1], i); }
      VectorsSound(ups, cap, s - 1, vectors, |vectors|);
    }
  }

  lemma {:induction false} ListGrows(ups: seq<Upload>, cap: Capacities, s: nat, n: nat)
    requires Table(cap, |ups|) && s <= n <= |ups|
    ensures AllTTs(ups, cap, s) <= AllTTs(ups, cap, n)
  {
    hide TTsOfSender;
    if s < n {
      ListGrows(ups, cap, s, n - 1);
    }
  }

  /** The first TT of a link in the whole list carries the best item set for the receiver alone. */
  lemma FirstOfLink(ups: seq<Upload>, cap: Capacities, sender: nat, r: nat) returns (k: nat)
    requires Table(cap, |ups|) && ItemsInRange(ups) && sender < |ups| && r < |ups|
    requires cap[sender][r] > 0 && ups[sender].alpha * ups[r].beta != {}
    ensures var all, first := AllTTs(ups, cap, |ups|), TT(sender, BestItems(ups, cap[sender], sender, [r]).items, r);
            k < |all| && all[k] == first && forall j :: 0 <= j < k ==> !SameLink(all[j], first)
  {
    hide BestItems, TTsOfSender;
    var all, before := AllTTs(ups, cap, |ups|), AllTTs(ups, cap, sender);
    var i := FirstOfSender(ups, cap[sender], sender, r);
    SendersBelow(ups, cap, sender);
    ListGrows(ups, cap, sender + 1, |ups|);
    k := |before| + i;
    assert AllTTs(ups, cap, sender + 1) == before + TTsOfSender(ups, cap[sender], sender);
    forall j | 0 <= j < k
      ensures !SameLink(all[j], all[k])
    {
      if j < |before| {
        assert all[j] == before[j] && before[j] in before;
      } else {
        assert all[j] == TTsOfSender(ups, cap[sender], sender)[j - |before|];
      }
    }
  }

  /** For every listed TT some survivor of the same link brings at least as much. */
  lemma DeletionKeepsWeight(ups: seq<Upload>, cap: Capacities, t: TT) returns (m: nat)
    requires Table(cap, |ups|) && ItemsInRange(ups) && t in AllTTs(ups, cap, |ups|)
    ensures t.receiver < |ups|
    ensures var s := Survivors(AllTTs(ups, cap, |ups|));
            m < |s| && SameLink(s[m], t) && Brought(ups, t) <= Brought(ups, s[m])
  {
    hide BestItems, AllTTs;
    AllTTsSound(ups, cap, |ups|);
    var all := AllTTs(ups, cap, |ups|);
    SingletonTT(ups, cap[t.sender], t.sender, t.receiver);
    SingletonHeaviest(ups, cap, t);
    var k := FirstOfLink(ups, cap, t.sender, t.receiver);
    assert Kept(all, k);
    m := SurvivorAt(all, k);
  }

  lemma SurvivorAt(tts: seq<TT>, k: nat) returns (m: nat)
    requires k < |tts| && Kept(tts, k)
    ensures m < |Survivors(tts)| && Survivors(tts)[m] == tts[k]
  {
    KeptIndicesExact(tts, |tts|);
    var l := KeptIndices(tts, |tts|);
    assert k in l;
    m :| m < |l| && l[m] == k;
  }
}
