/**
 The scheduler object: one scheduling period from the uploads of all nodes to the downloads sent to
 the MAC layers.
 */
module Scheduler {
  import opened IndexSums
  import opened Subsets
  import opened Transmissions
  import opened ConflictGreedy
  import opened Schedules
  import Links
  import Rounds

  /** The capacity entered for a selected neighbour: at most what the sender caches. */
  ghost function LinkEntry(ups: seq<Upload>, radio: Links.Radio, distance: seq<real>, selected: set<nat>, s: nat,
                           r: nat): nat
    requires s < |ups| == |distance| && r < |ups| && radio.maximumChannel > 0
  {
    var channel := Links.Capacity(radio, distance[r], ups[s].rsuOrObu, ups[r].rsuOrObu);
    if r in selected && ups[s].alpha * ups[r].beta != {} && channel > 0 then
      if |ups[s].alpha| < channel then |ups[s].alpha| else channel
    else 0
  }

  ghost predicate Distances(distance: seq<seq<real>>, n: nat) {
    |distance| == n && forall s :: 0 <= s < n ==> |distance[s]| == n
  }

  ghost function Types(ups: seq<Upload>): (types: seq<nat>)
    ensures |types| == |ups| && forall i :: 0 <= i < |ups| ==> types[i] == ups[i].rsuOrObu
  {
    seq(|ups|, i requires 0 <= i < |ups| => ups[i].rsuOrObu)
  }

  /** `cap` is the link table for these uploads and distances, with the neighbours `selected` of every sender. */
  ghost predicate LinkTable(ups: seq<Upload>, cfg: Links.Selection, radio: Links.Radio, distance: seq<seq<real>>,
                            selected: seq<set<nat>>, cap: Capacities)
    requires radio.maximumChannel > 0
  {
    && Table(cap, |ups|) && Distances(distance, |ups|) && |selected| == |ups|
    && forall s :: 0 <= s < |ups| ==>
         && Links.NearestSelected(cfg, Types(ups), distance[s], s, selected[s])
         && forall r :: 0 <= r < |ups| ==> cap[s][r] == LinkEntry(ups, radio, distance[s], selected[s], s, r)
  }

  /**
   No listed link leads back to its sender, is useless, or promises more than the channel carries or
   the sender caches.
   */
  lemma LinkTableIsReal(ups: seq<Upload>, cfg: Links.Selection, radio: Links.Radio, distance: seq<seq<real>>,
                        selected: seq<set<nat>>, cap: Capacities)
    requires radio.maximumChannel > 0 && LinkTable(ups, cfg, radio, distance, selected, cap)
    ensures Loopless(cap)
    ensures forall s, r :: 0 <= s < |ups| && 0 <= r < |ups| && cap[s][r] > 0 ==>
              && cap[s][r] <= Links.Capacity(radio, distance[s][r], ups[s].rsuOrObu, ups[r].rsuOrObu)
              && cap[s][r] <= |ups[s].alpha| && ups[s].alpha * ups[r].beta != {}
  {
    forall s | 0 <= s < |ups|
      ensures cap[s][s] == 0
    {
      assert Links.NearestSelected(cfg, Types(ups), distance[s], s, selected[s]);
      assert s !in selected[s];
    }
  }

  /**
   The table loses nothing: an item set that a node caches fits the entry of a link exactly
   when the receiver is selected, misses something the node caches, and the channel carries the set.
   */
  lemma LinkCarriesIff(ups: seq<Upload>, cfg: Links.Selection, radio: Links.Radio, distance: seq<seq<real>>,
                       selected: seq<set<nat>>, cap: Capacities, s: nat, r: nat, items: set<nat>)
    requires radio.maximumChannel > 0 && LinkTable(ups, cfg, radio, distance, selected, cap)
    requires s < |ups| && r < |ups| && items <= ups[s].alpha && items != {}
    ensures |items| <= cap[s][r] <==>
              && r in selected[s] && ups[s].alpha * ups[r].beta != {}
              && |items| <= Links.Capacity(radio, distance[s][r], ups[s].rsuOrObu, ups[r].rsuOrObu)
  {
    ConflictGreedy.SubsetSize(items, ups[s].alpha);
    SomeItem(items);
  }

  lemma SomeItem(items: set<nat>)
    requires items != {}
    ensures |items| > 0
  {
  }

  lemma LinkTableLoopless(ups: seq<Upload>, cfg: Links.Selection, radio: Links.Radio, distance: seq<seq<real>>,
                          selected: seq<set<nat>>, cap: Capacities)
    requires radio.maximumChannel > 0 && LinkTable(ups, cfg, radio, distance, selected, cap)
    ensures Table(cap, |ups|) && Loopless(cap)
  {
    LinkTableIsReal(ups, cfg, radio, distance, selected, cap);
  }

  lemma SubsetBySize(a: set<nat>, b: set<nat>)
    ensures |a * b| == |a| <==> a <= b
  {
    assert a == a * b + (a - b);
    if a <= b {
      assert a * b == a;
    }
  }

  class Scheduler {
    const nodeNumber: nat
    const selection: Links.Selection
    const radio: Links.Radio
    var nodeInfo: map<nat, Upload>
    var channelInfo: array2<nat>
    var conflictGraph: array2<bool>
    var weightForTT: array<nat>
    var allTTs: seq<TT>
    var allReceivers: seq<nat>
    var allPossibleReceivers: seq<seq<nat>>
    var allCachedDatas: seq<nat>
    var allPossibleDataItems: seq<set<nat>>
    var chosenIds: set<nat>
    var results: seq<Download>

    /** The uploads received, by node id. */
    ghost predicate Uploaded(ups: seq<Upload>)
      reads this`nodeInfo
    {
      && |ups| == nodeNumber && ItemsInRange(ups)
      && forall i :: 0 <= i < |ups| ==> ups[i].rsuOrObu <= 1 && i in nodeInfo && nodeInfo[i] == ups[i]
    }

    ghost predicate Linked(cap: Capacities)
      reads this`channelInfo, channelInfo
    {
      && Table(cap, nodeNumber)
      && channelInfo.Length0 == nodeNumber && channelInfo.Length1 == nodeNumber
      && forall i, j :: 0 <= i < nodeNumber && 0 <= j < nodeNumber ==> channelInfo[i, j] == cap[i][j]
    }

    constructor (nodeNumber: nat, selection: Links.Selection, radio: Links.Radio)
      ensures this.nodeNumber == nodeNumber && this.selection == selection && this.radio == radio
      ensures nodeInfo == map[] && allTTs == [] && results == [] && chosenIds == {}
    {
      this.nodeNumber := nodeNumber;
      this.selection := selection;
      this.radio := radio;
      nodeInfo := map[];
      channelInfo := new nat[0, 0];
      conflictGraph := new bool[0, 0];
      weightForTT := new nat[0];
      allTTs, allReceivers, allPossibleReceivers := [], [], [];
      allCachedDatas, allPossibleDataItems := [], [];
      chosenIds := {};
      results := [];
    }

    // -------------------------------------------------------------------------
    // Enumeration.

    method SubsetsOfItems(i: nat, temp: seq<nat>)
      requires i <= |allCachedDatas|
      modifies this`allPossibleDataItems
      ensures allPossibleDataItems == old(allPossibleDataItems) + ToSets(Sublists(allCachedDatas, i, temp))
      decreases |allCachedDatas| - i
    {
      if i == |allCachedDatas| {
        allPossibleDataItems := allPossibleDataItems + [Elements(temp)];
      } else {
        SubsetsOfItems(i + 1, temp);
        SubsetsOfItems(i + 1, temp + [allCachedDatas[i]]);
      }
    }

    method SubsetsOfReceivers(i: nat, temp: seq<nat>)
      requires i <= |allReceivers|
      modifies this`allPossibleReceivers
      ensures allPossibleReceivers == old(allPossibleReceivers) + Sublists(allReceivers, i, temp)
      decreases |allReceivers| - i
    {
      if i == |allReceivers| {
        allPossibleReceivers := allPossibleReceivers + [temp];
      } else {
        SubsetsOfReceivers(i + 1, temp);
        SubsetsOfReceivers(i + 1, temp + [allReceivers[i]]);
      }
    }

    /** The union of what the receivers miss. */
    method Wanted(receivers: seq<nat>, ghost ups: seq<Upload>) returns (items: set<nat>)
      requires Uploaded(ups) && Nodes(receivers, |ups|)
      ensures items == Missing(ups, receivers)
    {
      items := {};
      for k := 0 to |receivers|
        invariant items == Missing(ups, receivers[..k])
      {
        items := items + nodeInfo[receivers[k]].beta;
        assert receivers[..k + 1][..k] == receivers[..k];
      }
      assert receivers[..|receivers|] == receivers;
    }

    /** The weight sum of one item set over the receivers. */
    method WeightSum(sender: nat, receivers: seq<nat>, items: set<nat>, ghost ups: seq<Upload>, ghost cap: Capacities)
        returns (sum: nat)
      requires Uploaded(ups) && Linked(cap) && sender < |ups| && Nodes(receivers, |ups|)
      ensures sum == Delivered(ups, cap[sender], receivers, items)
    {
      sum := 0;
      for k := 0 to |receivers|
        invariant sum == Delivered(ups, cap[sender], receivers[..k], items)
      {
        assert receivers[..k + 1][..k] == receivers[..k];
        if channelInfo[sender, receivers[k]] >= |items| {
          sum := sum + |items * nodeInfo[receivers[k]].beta|;
        }
      }
      assert receivers[..|receivers|] == receivers;
    }

    /** Pushing one TT per receiver reached. */
    method PushTTs(sender: nat, receivers: seq<nat>, items: set<nat>, ghost ups: seq<Upload>, ghost cap: Capacities)
      requires Uploaded(ups) && Linked(cap) && sender < |ups| && Nodes(receivers, |ups|)
      modifies this`allTTs
      ensures allTTs == old(allTTs) + Collect(ups, cap[sender], sender, items, receivers)
    {
      for k := 0 to |receivers|
        invariant allTTs == old(allTTs) + Collect(ups, cap[sender], sender, items, receivers[..k])
      {
        assert receivers[..k + 1][..k] == receivers[..k];
        SizePositive(items * nodeInfo[receivers[k]].beta);
        if channelInfo[sender, receivers[k]] >= |items| && |items * nodeInfo[receivers[k]].beta| > 0 {
          allTTs := allTTs + [TT(sender, items, receivers[k])];
        }
      }
      assert receivers[..|receivers|] == receivers;
    }

    lemma SizePositive(s: set<nat>)
      ensures |s| > 0 <==> s != {}
    {
      if s != {} {
        var x :| x in s;
        assert s == {x} + (s - {x});
      }
    }

    /** The strict-improvement scan over all item sets. */
    method BestSet(sender: nat, receivers: seq<nat>, ghost ups: seq<Upload>, ghost cap: Capacities)
        returns (count: nat, items: set<nat>)
      requires Uploaded(ups) && Linked(cap) && sender < |ups| && Nodes(receivers, |ups|)
      ensures var sets := allPossibleDataItems;
              Candidate(count, items) == Scan(ups, cap[sender], receivers, sets, |sets|)
    {
      count, items := 0, {};
      for k := 0 to |allPossibleDataItems|
        invariant Candidate(count, items) == Scan(ups, cap[sender], receivers, allPossibleDataItems, k)
      {
        var sum := WeightSum(sender, receivers, allPossibleDataItems[k], ups, cap);
        if count < sum {
          count, items := sum, allPossibleDataItems[k];
        }
      }
    }

    method ListItemSets(possible: set<nat>)
      modifies this`allCachedDatas, this`allPossibleDataItems
      ensures allPossibleDataItems == ItemSets(possible)
    {
      allPossibleDataItems := [];
      allCachedDatas := Ascending(possible, ITEM_LIMIT);
      SubsetsOfItems(0, []);
    }

    /** The best item set for one receiver vector; nothing when the sender has nothing the receivers miss. */
    method BestFor(sender: nat, receivers: seq<nat>, ghost ups: seq<Upload>, ghost cap: Capacities)
        returns (count: nat, items: set<nat>)
      requires Uploaded(ups) && Linked(cap) && sender < |ups| && Nodes(receivers, |ups|)
      modifies this`allCachedDatas, this`allPossibleDataItems
      ensures Candidate(count, items) == BestItems(ups, cap[sender], sender, receivers)
    {
      hide ItemSets, Scan, Missing;
      var wanted := Wanted(receivers, ups);
      var possible := nodeInfo[sender].alpha * wanted;
      if possible == {} {
        NothingPossible(ups, cap[sender], sender, receivers);
        return 0, {};
      }
      ListItemSets(possible);
      count, items := BestSet(sender, receivers, ups, cap);
    }

    method GetTTsForCertainReceivers(sender: nat, receivers: seq<nat>, ghost ups: seq<Upload>, ghost cap: Capacities)
      requires Uploaded(ups) && Linked(cap) && sender < |ups| && Nodes(receivers, |ups|)
      modifies this`allTTs, this`allCachedDatas, this`allPossibleDataItems
      ensures allTTs == old(allTTs) + TTsForReceivers(ups, cap[sender], sender, receivers)
    {
      hide BestItems, Collect;
      var count, items := BestFor(sender, receivers, ups, cap);
      if count == 0 {
        return;
      }
      PushTTs(sender, receivers, items, ups, cap);
    }

    lemma NothingPossible(ups: seq<Upload>, row: seq<nat>, sender: nat, receivers: seq<nat>)
      requires |row| == |ups| && sender < |ups| && Nodes(receivers, |ups|)
      requires Possible(ups, sender, receivers) == {}
      ensures BestItems(ups, row, sender, receivers) == Candidate(0, {})
    {
      assert Ascending({}, ITEM_LIMIT) == [] by { AscendingNone(ITEM_LIMIT); }
      var sets := ItemSets({});
      assert Sublists<nat>([], 0, []) == [[]];
      assert Elements<nat>([]) == {};
      assert sets == [{}];
      NothingDelivered(ups, row, receivers);
      assert Scan(ups, row, receivers, sets, 0) == Candidate(0, {});
      assert Scan(ups, row, receivers, sets, 1) == Candidate(0, {});
    }

    lemma {:induction false} AscendingNone(n: nat)
      ensures Ascending({}, n) == []
    {
      if n > 0 {
        AscendingNone(n - 1);
      }
    }

    lemma {:induction false} NothingDelivered(ups: seq<Upload>, row: seq<nat>, receivers: seq<nat>)
      requires |row| == |ups| && Nodes(receivers, |ups|)
      ensures Delivered(ups, row, receivers, {}) == 0
    {
      if receivers != [] {
        NothingDelivered(ups, row, receivers[..|receivers| - 1]);
        assert {} * ups[receivers[|receivers| - 1]].beta == {};
      }
    }

    method Neighbours(sender: nat, ghost cap: Capacities) returns (l: seq<nat>)
      requires Linked(cap) && sender < nodeNumber
      ensures l == NeighbourList(cap[sender], nodeNumber)
    {
      l := [];
      for node := 0 to nodeNumber
        invariant l == NeighbourList(cap[sender], node)
      {
        if channelInfo[sender, node] > 0 {
          l := l + [node];
        }
      }
    }

    method ListReceiverVectors(sender: nat, ghost cap: Capacities)
      requires Linked(cap) && sender < nodeNumber
      modifies this`allReceivers, this`allPossibleReceivers
      ensures allPossibleReceivers == Vectors(cap[sender])
    {
      allReceivers := Neighbours(sender, cap);
      allPossibleReceivers := [];
      SubsetsOfReceivers(0, []);
    }

    method GetTTsForVectors(sender: nat, ghost ups: seq<Upload>, ghost cap: Capacities)
      requires Uploaded(ups) && Linked(cap) && sender < nodeNumber
      requires forall i :: 0 <= i < |allPossibleReceivers| ==> Nodes(allPossibleReceivers[i], |ups|)
      modifies this`allTTs, this`allCachedDatas, this`allPossibleDataItems
      ensures allTTs == old(allTTs) + TTsForVectors(ups, cap[sender], sender, allPossibleReceivers,
                |allPossibleReceivers|)
    {
      hide TTsForReceivers, Nodes;
      for k := 0 to |allPossibleReceivers|
        invariant allTTs == old(allTTs) + TTsForVectors(ups, cap[sender], sender, allPossibleReceivers, k)
      {
        GetTTsForCertainReceivers(sender, allPossibleReceivers[k], ups, cap);
      }
    }

    method GetTTsForSender(sender: nat, ghost ups: seq<Upload>, ghost cap: Capacities)
      requires Uploaded(ups) && Linked(cap) && sender < nodeNumber
      modifies this`allTTs, this`allCachedDatas, this`allPossibleDataItems, this`allReceivers, this`allPossibleReceivers
      ensures allTTs == old(allTTs) + TTsOfSender(ups, cap[sender], sender)
    {
      hide TTsForVectors, Vectors, Nodes;
      ListReceiverVectors(sender, cap);
      forall i | 0 <= i < |allPossibleReceivers|
        ensures Nodes(allPossibleReceivers[i], |ups|)
      {
        VectorsAreNodes(cap[sender], i);
      }
      GetTTsForVectors(sender, ups, cap);
    }

    method GetAllTTsReduced(ghost ups: seq<Upload>, ghost cap: Capacities)
      requires Uploaded(ups) && Linked(cap)
      modifies this`allTTs, this`allCachedDatas, this`allPossibleDataItems, this`allReceivers, this`allPossibleReceivers
      ensures allTTs == old(allTTs) + AllTTs(ups, cap, |ups|)
    {
      hide TTsOfSender;
      for sender := 0 to nodeNumber
        invariant allTTs == old(allTTs) + AllTTs(ups, cap, sender)
      {
        GetTTsForSender(sender, ups, cap);
      }
    }

    // -------------------------------------------------------------------------
    // Deleting dominated TTs.

    method DominatedIndices() returns (deleted: set<nat>)
      ensures forall k: nat :: k in deleted <==> k < |allTTs| && !Kept(allTTs, k)
    {
      hide Covered;
      deleted := {};
      NoneCovered(allTTs, Dominates);
      for first := 0 to |allTTs|
        invariant forall k: nat :: k in deleted <==> k < |allTTs| && Covered(allTTs, Dominates, first, k)
      {
        for second := first + 1 to |allTTs|
          invariant forall k: nat :: k in deleted <==>
                      k < |allTTs| && Covered(allTTs, Dominates, if first < k < second then first + 1 else first, k)
        {
          CoveredStep(allTTs, Dominates, first, second);
          if allTTs[first].sender == allTTs[second].sender && allTTs[first].receiver == allTTs[second].receiver {
            SubsetBySize(allTTs[first].items, allTTs[second].items);
            if |allTTs[first].items * allTTs[second].items| == |allTTs[first].items| {
              deleted := deleted + {second};
            }
          }
        }
        CoveredOnly(allTTs, Dominates, first);
      }
      AllCovered(allTTs);
    }

    lemma AllCovered(tts: seq<TT>)
      ensures forall k: nat :: k < |tts| ==> (Covered(tts, Dominates, |tts|, k) <==> !Kept(tts, k))
    {
    }

    method DeleteSameForAllTTs()
      modifies this`allTTs
      ensures allTTs == Survivors(old(allTTs))
    {
      hide Kept, Unmarked, SurvivorsBelow;
      var deleted := DominatedIndices();
      UnmarkedSurvive(allTTs, deleted, |allTTs|);
      EraseMarked(deleted);
    }

    method EraseMarked(deleted: set<nat>)
      modifies this`allTTs
      ensures allTTs == Unmarked(old(allTTs), deleted, |old(allTTs)|)
    {
      hide Unmarked;
      ghost var tts := allTTs;
      NoneMarkedYet(tts, deleted);
      var it, ijk := 0, 0;
      while it != |allTTs|
        invariant 0 <= ijk <= |tts|
        invariant it == |Unmarked(tts, deleted, ijk)|
        invariant allTTs == Unmarked(tts, deleted, ijk) + tts[ijk..]
        decreases |tts| - ijk
      {
        UnmarkedStep(tts, deleted, ijk);
        EraseFirst(Unmarked(tts, deleted, ijk), tts, ijk);
        if ijk in deleted {
          allTTs := allTTs[..it] + allTTs[it + 1..];
        } else {
          it := it + 1;
        }
        ijk := ijk + 1;
      }
    }

    // -------------------------------------------------------------------------
    // Conflicts, weights and results.

    /** The decision for one pair, in the order the constraints are tried. */
    method PairConflicts(first: nat, second: nat, ghost cap: Capacities) returns (conflict: bool)
      requires Linked(cap) && |cap| == nodeNumber && InTable(cap, allTTs)
      requires first < |allTTs| && second < |allTTs|
      ensures conflict == Edge(cap, allTTs, first, second) == Edge(cap, allTTs, second, first)
    {
      var a, b := allTTs[first], allTTs[second];
      if a.sender == b.sender && a.items != b.items {
        conflict := true;
      } else if a.sender == b.receiver || a.receiver == b.sender {
        conflict := true;
      } else if channelInfo[a.sender, b.receiver] > 0 || channelInfo[b.sender, a.receiver] > 0 {
        conflict := true;
      } else {
        conflict := false;
      }
      if a.sender == b.sender && a.items == b.items {
        conflict := false;
      }
      if first == second {
        conflict := false;
      }
    }

    ghost predicate GraphBelow(cap: Capacities, n: nat)
      requires InTable(cap, allTTs)
      reads this`conflictGraph, conflictGraph, this`allTTs
    {
      && conflictGraph.Length0 == |allTTs| && conflictGraph.Length1 == |allTTs|
      && forall i, j :: 0 <= i < n && 0 <= j < n && i < |allTTs| && j < |allTTs| ==>
          conflictGraph[i, j] == Edge(cap, allTTs, i, j)
    }

    method CheckForConflict(ghost cap: Capacities)
      requires Linked(cap) && |cap| == nodeNumber && InTable(cap, allTTs)
      requires conflictGraph.Length0 == |allTTs| && conflictGraph.Length1 == |allTTs|
      modifies conflictGraph
      ensures Matches(conflictGraph, |allTTs|, Conflicts(cap, allTTs))
    {
      hide Edge;
      for first := 0 to |allTTs|
        invariant GraphBelow(cap, first)
      {
        for second := 0 to first + 1
          invariant GraphBelow(cap, first)
          invariant forall j :: 0 <= j < second ==> conflictGraph[first, j] == Edge(cap, allTTs, first, j)
          invariant forall j :: 0 <= j < second ==> conflictGraph[j, first] == Edge(cap, allTTs, j, first)
        {
          var conflict := PairConflicts(first, second, cap);
          conflictGraph[first, second] := conflict;
          conflictGraph[second, first] := conflict;
        }
      }
    }

    method GetWeightForEachTT(ghost ups: seq<Upload>)
      requires Uploaded(ups) && weightForTT.Length == |allTTs|
      requires forall i :: 0 <= i < |allTTs| ==> allTTs[i].receiver < |ups|
      modifies weightForTT
      ensures weightForTT[..] == Weights(ups, allTTs)
    {
      for first := 0 to |allTTs|
        invariant forall i :: 0 <= i < first ==> weightForTT[i] == Weights(ups, allTTs)[i]
      {
        weightForTT[first] := |allTTs[first].items * nodeInfo[allTTs[first].receiver].beta| % 256;
      }
    }

    /** One chosen TT: the items already announced for its sender must include its own. */
    method NeedsDownload(cur: TT) returns (needed: bool)
      requires forall k :: 0 <= k < |results| && results[k].nodeId == cur.sender ==> results[k].imti == cur.items
      ensures needed <==> !Announced(results, cur.sender)
    {
      needed := true;
      for k := 0 to |results|
        invariant needed <==> !Announced(results[..k], cur.sender)
      {
        assert results[..k + 1] == results[..k] + [results[k]];
        if results[k].nodeId == cur.sender {
          SubsetBySize(cur.items, results[k].imti);
          assert results[k].imti * cur.items == cur.items * results[k].imti;
          assert |results[k].imti * cur.items| == |cur.items|;
          assert results[..k + 1][k].nodeId == cur.sender;
          needed := false;
        }
      }
      assert results[..|results|] == results;
    }

    method HandlingResults()
      requires Consistent(allTTs, chosenIds) && results == []
      modifies this`results
      ensures results == Downloads(allTTs, chosenIds, |allTTs|)
    {
      for i := 0 to |allTTs|
        invariant results == Downloads(allTTs, chosenIds, i)
      {
        if i in chosenIds {
          ItemsSoFar(allTTs, chosenIds, i);
          var needed := NeedsDownload(allTTs[i]);
          if needed {
            results := results + [Download(allTTs[i].sender, allTTs[i].items)];
          }
        }
      }
    }

    /** Downloads announced so far for the sender of a chosen TT carry its items. */
    lemma ItemsSoFar(tts: seq<TT>, chosen: set<nat>, n: nat)
      requires n < |tts| && Consistent(tts, chosen) && n in chosen
      ensures var l := Downloads(tts, chosen, n);
              forall k :: 0 <= k < |l| && l[k].nodeId == tts[n].sender ==> l[k].imti == tts[n].items
    {
      forall k | 0 <= k < |Downloads(tts, chosen, n)| && Downloads(tts, chosen, n)[k].nodeId == tts[n].sender
        ensures Downloads(tts, chosen, n)[k].imti == tts[n].items
      {
        DownloadItems(tts, chosen, n, k, n);
      }
    }

    // -------------------------------------------------------------------------
    // Links.

    /** The capacity entries of one sender's row. */
    method FillRow(sender: nat, distance: seq<real>, selected: set<nat>, ghost ups: seq<Upload>)
      requires Uploaded(ups) && sender < nodeNumber == |distance| && radio.maximumChannel > 0
      requires channelInfo.Length0 == nodeNumber && channelInfo.Length1 == nodeNumber
      requires forall r :: 0 <= r < nodeNumber ==> channelInfo[sender, r] == 0
      modifies channelInfo
      ensures forall r :: 0 <= r < nodeNumber ==>
                channelInfo[sender, r] == LinkEntry(ups, radio, distance, selected, sender, r)
      ensures forall i, r :: 0 <= i < nodeNumber && 0 <= r < nodeNumber && i != sender ==>
                channelInfo[i, r] == old(channelInfo[i, r])
    {
      for neighbor := 0 to nodeNumber
        invariant forall r :: 0 <= r < neighbor ==>
                  channelInfo[sender, r] == LinkEntry(ups, radio, distance, selected, sender, r)
        invariant forall r :: neighbor <= r < nodeNumber ==> channelInfo[sender, r] == 0
        invariant forall i, r :: 0 <= i < nodeNumber && 0 <= r < nodeNumber && i != sender ==>
                  channelInfo[i, r] == old(channelInfo[i, r])
      {
        if neighbor in selected {
          var channel := Links.ChannelCapacity(radio, distance[neighbor], nodeInfo[sender].rsuOrObu,
              nodeInfo[neighbor].rsuOrObu);
          var alpha, beta := nodeInfo[sender].alpha, nodeInfo[neighbor].beta;
          SizePositive(alpha * beta);
          if |alpha * beta| > 0 && channel > 0 {
            channelInfo[sender, neighbor] := if |alpha| < channel then |alpha| else channel;
          }
        }
      }
    }

    method GetChannelInfo(distance: seq<seq<real>>, ghost ups: seq<Upload>)
        returns (ghost selected: seq<set<nat>>, ghost cap: Capacities)
      requires Uploaded(ups) && Distances(distance, nodeNumber) && radio.maximumChannel > 0
      requires channelInfo.Length0 == nodeNumber && channelInfo.Length1 == nodeNumber
      requires forall i, j :: 0 <= i < nodeNumber && 0 <= j < nodeNumber ==> channelInfo[i, j] == 0
      modifies channelInfo
      ensures Linked(cap) && LinkTable(ups, selection, radio, distance, selected, cap)
    {
      hide LinkEntry;
      var types := seq(nodeNumber,
        i requires 0 <= i < nodeNumber && Uploaded(ups) reads this`nodeInfo => nodeInfo[i].rsuOrObu);
      assert types == Types(ups);
      selected := [];
      for sender := 0 to nodeNumber
        invariant |selected| == sender
        invariant forall s :: 0 <= s < sender ==> Links.NearestSelected(selection, types, distance[s], s, selected[s])
        invariant forall s, r :: 0 <= s < sender && 0 <= r < nodeNumber ==>
                    channelInfo[s, r] == LinkEntry(ups, radio, distance[s], selected[s], s, r)
        invariant forall s, r :: sender <= s < nodeNumber && 0 <= r < nodeNumber ==> channelInfo[s, r] == 0
      {
        var near := Links.SelectNeighbours(selection, types, distance[sender], sender);
        FillRow(sender, distance[sender], near, ups);
        selected := selected + [near];
      }
      cap := seq(nodeNumber, i requires 0 <= i < nodeNumber => seq(nodeNumber, j requires 0 <= j < nodeNumber =>
        LinkEntry(ups, radio, distance[i], selected[i], i, j)));
    }

    // -------------------------------------------------------------------------
    // One scheduling period.

    method SchedulingBegin(distance: seq<seq<real>>, ghost ups: seq<Upload>)
        returns (sent: seq<Download>, ghost selected: seq<set<nat>>, ghost cap: Capacities)
      requires Uploaded(ups) && Distances(distance, nodeNumber) && radio.maximumChannel > 0
      requires allTTs == [] && results == [] && chosenIds == {}
      modifies this
      ensures LinkTable(ups, selection, radio, distance, selected, cap) && Table(cap, |ups|)
      ensures sent == Schedule(ups, cap)
      ensures nodeInfo == map[] && allTTs == [] && results == [] && chosenIds == {}
    {
      hide LinkTable, Loopless, Schedule, Candidates, Linked, Uploaded, AllSound, Undominated, Distances;
      hide Links.Capacity;
      channelInfo := new nat[nodeNumber, nodeNumber]((i, j) => 0);
      selected, cap := GetChannelInfo(distance, ups);
      allTTs := [];
      BuildCandidates(ups, cap);
      conflictGraph := new bool[|allTTs|, |allTTs|]((i, j) => false);
      weightForTT := new nat[|allTTs|];
      LinkTableLoopless(ups, selection, radio, distance, selected, cap);
      sent := ChooseAndReport(ups, cap);
      ClearForPerScheduling();
    }

    method ClearForPerScheduling()
      modifies this`nodeInfo, this`allTTs, this`results, this`chosenIds
      ensures nodeInfo == map[] && allTTs == [] && results == [] && chosenIds == {}
    {
      nodeInfo := map[];
      allTTs := [];
      results := [];
      chosenIds := {};
    }

    method BuildCandidates(ghost ups: seq<Upload>, ghost cap: Capacities)
      requires Uploaded(ups) && Linked(cap) && allTTs == []
      modifies this`allTTs, this`allCachedDatas, this`allPossibleDataItems, this`allReceivers, this`allPossibleReceivers
      ensures allTTs == Candidates(ups, cap)
    {
      hide AllTTs, Survivors;
      GetAllTTsReduced(ups, cap);
      assert [] + AllTTs(ups, cap, |ups|) == AllTTs(ups, cap, |ups|);
      DeleteSameForAllTTs();
    }

    method ChooseAndReport(ghost ups: seq<Upload>, ghost cap: Capacities) returns (sent: seq<Download>)
      requires Uploaded(ups) && Linked(cap) && Loopless(cap) && allTTs == Candidates(ups, cap)
      requires conflictGraph.Length0 == |allTTs| && conflictGraph.Length1 == |allTTs| && weightForTT.Length == |allTTs|
      requires conflictGraph as object != channelInfo as object && results == []
      modifies conflictGraph, weightForTT, this`chosenIds, this`results
      ensures sent == Schedule(ups, cap)
    {
      hide Candidates, Chosen, Ratio, Edge, Clash;
      ghost var tts := allTTs;
      CheckForConflict(cap);
      GetWeightForEachTT(ups);
      ConflictsSimple(cap, tts);
      chosenIds := GreedyAlgorithm(conflictGraph, weightForTT, |allTTs|, Conflicts(cap, tts));
      ScheduleFeasible(ups, cap);
      HandlingResults();
      sent := results;
    }

    /**
     One upload arrives; the period starts when every node has reported. A node keeps a single
     upload object and updates it in place before it reports, so the entry of a node that has
     reported before shows its new report as well, although inserting it again has no effect.
     */
    method ReceiveFromMacLayer(id: nat, up: Upload, distance: seq<seq<real>>)
        returns (sent: seq<Download>, ghost ups: seq<Upload>, ghost selected: seq<set<nat>>, ghost cap: Capacities)
      requires id < nodeNumber && up.rsuOrObu <= 1 && (forall x :: x in up.alpha || x in up.beta ==> x < ITEM_LIMIT)
      requires Reported() && Distances(distance, nodeNumber) && radio.maximumChannel > 0
      requires allTTs == [] && results == [] && chosenIds == {}
      modifies this
      ensures Reported()
      ensures old(nodeInfo.Keys + {id}) == All(nodeNumber) ==>
                && |ups| == nodeNumber && (forall i :: 0 <= i < nodeNumber ==>
                    ups[i] == old(if i != id && i in nodeInfo then nodeInfo[i] else up))
                && LinkTable(ups, selection, radio, distance, selected, cap) && Table(cap, |ups|)
                && sent == Schedule(ups, cap) && nodeInfo == map[]
      ensures old(nodeInfo.Keys + {id}) != All(nodeNumber) ==>
                sent == [] && nodeInfo == old(nodeInfo[id := up])
    {
      hide LinkTable, Schedule, Table, Distances, All, Reported, Uploaded;
      sent := [];
      Record(id, up);
      FullBySize(nodeInfo.Keys, nodeNumber);
      if |nodeInfo| == nodeNumber {
        assert |nodeInfo| == |nodeInfo.Keys|;
        ups := AllUploads();
        sent, selected, cap := SchedulingBegin(distance, ups);
        NothingReported();
      } else {
        assert |nodeInfo| == |nodeInfo.Keys|;
        ups, selected, cap := [], [], [];
      }
    }

    method Record(id: nat, up: Upload)
      requires id < nodeNumber && up.rsuOrObu <= 1 && (forall x :: x in up.alpha || x in up.beta ==> x < ITEM_LIMIT)
      requires Reported()
      modifies this`nodeInfo
      ensures Reported() && nodeInfo == old(nodeInfo[id := up]) && nodeInfo.Keys == old(nodeInfo.Keys + {id})
      ensures Below(nodeInfo.Keys, nodeNumber)
    {
      nodeInfo := nodeInfo[id := up];
    }

    lemma NothingReported()
      requires nodeInfo == map[]
      ensures Reported()
    {
    }

    ghost function AllUploads(): (ups: seq<Upload>)
      requires Reported() && nodeInfo.Keys == All(nodeNumber)
      reads this`nodeInfo
      ensures Uploaded(ups) && forall i :: 0 <= i < nodeNumber ==> ups[i] == nodeInfo[i]
    {
      var info := nodeInfo;
      seq(nodeNumber, i requires i in info => info[i])
    }

    ghost predicate Reported()
      reads this`nodeInfo
    {
      forall i :: i in nodeInfo ==>
        i < nodeNumber && nodeInfo[i].rsuOrObu <= 1
        && forall x :: x in nodeInfo[i].alpha || x in nodeInfo[i].beta ==> x < ITEM_LIMIT
    }

    lemma FullBySize(keys: set<nat>, n: nat)
      requires Below(keys, n)
      ensures |keys| == n <==> keys == All(n)
    {
      Rounds.AllSize(n);
      assert All(n) == keys + (All(n) - keys);
      SizePositive(All(n) - keys);
    }
  }

  lemma PeriodLinks(caches: Rounds.Caches, universe: nat, cfg: Links.Selection, radio: Links.Radio,
                    distance: seq<seq<real>>, selected: seq<set<nat>>, round: Rounds.Round)
    requires radio.maximumChannel > 0 && |round.types| == |caches| && Distances(distance, |caches|)
    requires LinkTable(Rounds.Uploads(caches, universe, round.types), cfg, radio, distance, selected, round.cap)
    requires Table(round.air, |caches|) && Table(round.cap, |caches|)
    requires forall s, r :: 0 <= s < |caches| && 0 <= r < |caches| ==>
               round.air[s][r] == Links.Capacity(radio, distance[s][r], round.types[s], round.types[r])
    ensures Loopless(round.cap) && Rounds.UsefulLinks(caches, universe, round.cap, round.air)
  {
    hide LinkTable, All;
    var ups := Rounds.Uploads(caches, universe, round.types);
    LinkTableIsReal(ups, cfg, radio, distance, selected, round.cap);
    forall s, r | 0 <= s < |caches| && 0 <= r < |caches|
      ensures Rounds.UsefulLink(caches, universe, round.cap, round.air, s, r)
    {
      if round.cap[s][r] > 0 {
        assert ups[s].alpha * ups[r].beta != {};
      }
    }
  }

  /**
   A round scheduled from the link table of a period is a well-formed round: what the
   scheduler assumes about links holds on the air as long as nobody has moved.
   */
  lemma PeriodIsRound(caches: Rounds.Caches, universe: nat, cfg: Links.Selection, radio: Links.Radio,
                      distance: seq<seq<real>>, selected: seq<set<nat>>, round: Rounds.Round)
    requires radio.maximumChannel > 0 && Rounds.Cached(caches, universe) && |round.types| == |caches|
    requires LinkTable(Rounds.Uploads(caches, universe, round.types), cfg, radio, distance, selected, round.cap)
    requires Table(round.air, |caches|)
    requires forall s, r :: 0 <= s < |caches| && 0 <= r < |caches| ==>
               round.air[s][r] == Links.Capacity(radio, distance[s][r], round.types[s], round.types[r])
    requires Rounds.Deliverable(|caches|, Rounds.Plan(caches, universe, round), round.air, round.deliveries)
    ensures Rounds.WellFormed(caches, universe, round)
  {
    hide Rounds.Plan, Rounds.Deliverable, Rounds.UsefulLinks;
    PeriodLinks(caches, universe, cfg, radio, distance, selected, round);
  }
}
