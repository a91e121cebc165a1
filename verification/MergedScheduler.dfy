/** The merged scheduler object: the same period, with one download for each chosen merged TT. */
module MergedScheduler {
  import opened IndexSums
  import opened Subsets
  import opened Transmissions
  import opened ConflictGreedy
  import opened MergedSchedules
  import Links
  import Schedules
  import Scheduler

  class MergedScheduler {
    /** The fields and loops that do not differ from the plain scheduler. */
    const shared: Scheduler.Scheduler
    var conflictGraph: array2<bool>
    var weightForTT: array<nat>
    var allTTs: seq<MergedTT>
    var chosenIds: set<nat>
    var results: seq<Schedules.Download>

    constructor (nodeNumber: nat, selection: Links.Selection, radio: Links.Radio)
      ensures fresh(shared) && shared.nodeNumber == nodeNumber && shared.selection == selection && shared.radio == radio
      ensures shared.nodeInfo == map[] && allTTs == [] && chosenIds == {} && results == []
    {
      shared := new Scheduler.Scheduler(nodeNumber, selection, radio);
      conflictGraph := new bool[0, 0];
      weightForTT := new nat[0];
      allTTs, chosenIds, results := [], {}, [];
    }

    // -------------------------------------------------------------------------
    // Enumeration.

    method GetTTsForCertainReceivers(sender: nat, receivers: seq<nat>, ghost ups: seq<Upload>, ghost cap: Capacities)
      requires shared.Uploaded(ups) && shared.Linked(cap) && sender < |ups| && Nodes(receivers, |ups|)
      modifies this`allTTs, shared`allCachedDatas, shared`allPossibleDataItems
      ensures allTTs == old(allTTs) + ForReceivers(ups, cap[sender], sender, receivers)
    {
      hide BestItems;
      var count, items := shared.BestFor(sender, receivers, ups, cap);
      if count == 0 {
        return;
      }
      allTTs := allTTs + [MergedTT(sender, items, receivers)];
    }

    method GetTTsForSender(sender: nat, ghost ups: seq<Upload>, ghost cap: Capacities)
      requires shared.Uploaded(ups) && shared.Linked(cap) && sender < shared.nodeNumber
      modifies this`allTTs, shared`allCachedDatas, shared`allPossibleDataItems, shared`allReceivers,
               shared`allPossibleReceivers
      ensures allTTs == old(allTTs) + OfSender(ups, cap[sender], sender)
    {
      hide ForReceivers, Vectors, Nodes;
      shared.ListReceiverVectors(sender, cap);
      VectorsNodes(cap[sender]);
      for k := 0 to |shared.allPossibleReceivers|
        invariant shared.allPossibleReceivers == Vectors(cap[sender])
        invariant allTTs == old(allTTs) + ForVectors(ups, cap[sender], sender, Vectors(cap[sender]), k)
      {
        GetTTsForCertainReceivers(sender, shared.allPossibleReceivers[k], ups, cap);
      }
    }

    method GetAllTTsReduced(ghost ups: seq<Upload>, ghost cap: Capacities)
      requires shared.Uploaded(ups) && shared.Linked(cap)
      modifies this`allTTs, shared`allCachedDatas, shared`allPossibleDataItems, shared`allReceivers,
               shared`allPossibleReceivers
      ensures allTTs == old(allTTs) + AllMerged(ups, cap, |ups|)
    {
      hide OfSender;
      for sender := 0 to shared.nodeNumber
        invariant allTTs == old(allTTs) + AllMerged(ups, cap, sender)
      {
        GetTTsForSender(sender, ups, cap);
      }
    }

    // -------------------------------------------------------------------------
    // Deleting dominated merged TTs.

    method DominatedIndices() returns (deleted: set<nat>)
      ensures forall k: nat :: k in deleted <==> k < |allTTs| && Schedules.Covered(allTTs, Dominates, |allTTs|, k)
    {
      hide Schedules.Covered;
      deleted := {};
      Schedules.NoneCovered(allTTs, Dominates);
      for first := 0 to |allTTs|
        invariant forall k: nat :: k in deleted <==> k < |allTTs| && Schedules.Covered(allTTs, Dominates, first, k)
      {
        for second := first + 1 to |allTTs|
          invariant forall k: nat :: k in deleted <==>
                      k < |allTTs|
                      && Schedules.Covered(allTTs, Dominates, if first < k < second then first + 1 else first, k)
        {
          Schedules.CoveredStep(allTTs, Dominates, first, second);
          if allTTs[first].sender == allTTs[second].sender && allTTs[first].receivers == allTTs[second].receivers {
            Scheduler.SubsetBySize(allTTs[first].items, allTTs[second].items);
            if |allTTs[first].items * allTTs[second].items| == |allTTs[first].items| {
              deleted := deleted + {second};
            }
          }
        }
        Schedules.CoveredOnly(allTTs, Dominates, first);
      }
    }

    method EraseMarked(deleted: set<nat>)
      modifies this`allTTs
      ensures allTTs == Schedules.Unmarked(old(allTTs), deleted, |old(allTTs)|)
    {
      hide Schedules.Unmarked;
      ghost var tts := allTTs;
      Schedules.NoneMarkedYet(tts, deleted);
      var it, ijk := 0, 0;
      while it != |allTTs|
        invariant 0 <= ijk <= |tts|
        invariant it == |Schedules.Unmarked(tts, deleted, ijk)|
        invariant allTTs == Schedules.Unmarked(tts, deleted, ijk) + tts[ijk..]
        decreases |tts| - ijk
      {
        Schedules.UnmarkedStep(tts, deleted, ijk);
        Schedules.EraseFirst(Schedules.Unmarked(tts, deleted, ijk), tts, ijk);
        if ijk in deleted {
          allTTs := allTTs[..it] + allTTs[it + 1..];
        } else {
          it := it + 1;
        }
        ijk := ijk + 1;
      }
    }

    /** On the candidates of a period, the deletion deletes nothing. */
    method DeleteSameForAllTTs(ghost ups: seq<Upload>, ghost cap: Capacities)
      requires Table(cap, |ups|) && allTTs == Candidates(ups, cap)
      modifies this`allTTs
      ensures allTTs == old(allTTs)
    {
      hide AllMerged, OnLinks, Schedules.Unmarked, Schedules.Covered, Dominates;
      var deleted := DominatedIndices();
      forall k: nat | k < |allTTs|
        ensures !Schedules.Covered(allTTs, Dominates, |allTTs|, k)
      {
        NotCovered(ups, cap, k);
      }
      assert deleted == {};
      Schedules.NothingMarked(allTTs, |allTTs|);
      EraseMarked(deleted);
    }

    lemma NotCovered(ups: seq<Upload>, cap: Capacities, k: nat)
      requires Table(cap, |ups|) && k < |Candidates(ups, cap)|
      ensures !Schedules.Covered(Candidates(ups, cap), Dominates, |Candidates(ups, cap)|, k)
    {
      hide AllMerged, OnLinks;
      var tts := Candidates(ups, cap);
      forall i | 0 <= i < k
        ensures !Dominates(tts[i], tts[k])
      {
        NothingDominated(ups, cap, i, k);
      }
    }

    // -------------------------------------------------------------------------
    // Conflicts, weights and results.

    /** Whether a sender reaches one of the receivers. */
    method ReachesAny(sender: nat, receivers: seq<nat>, ghost cap: Capacities) returns (hit: bool)
      requires shared.Linked(cap) && sender < |cap| && Nodes(receivers, |cap|)
      ensures hit <==> exists r :: r in receivers && r < |cap| && cap[sender][r] > 0
    {
      hit := false;
      for k := 0 to |receivers|
        invariant hit <==> exists m :: 0 <= m < k && cap[sender][receivers[m]] > 0
      {
        assert receivers[k] in receivers;
        if shared.channelInfo[sender, receivers[k]] > 0 {
          hit := true;
        }
      }
    }

    /** The decision for one pair, in the order the constraints are tried. */
    method PairConflicts(first: nat, second: nat, ghost cap: Capacities) returns (conflict: bool)
      requires shared.Linked(cap) && AllOnLinks(cap, allTTs) && first < |allTTs| && second < |allTTs|
      ensures conflict == Edge(cap, allTTs, first, second)
    {
      var a, b := allTTs[first], allTTs[second];
      var firstReceivers, secondReceivers := Elements(a.receivers), Elements(b.receivers);
      if a.sender == b.sender && a.items != b.items {
        conflict := true;
      } else if a.sender in secondReceivers || b.sender in firstReceivers {
        conflict := true;
      } else {
        assert Nodes(a.receivers, |cap|) by {
          assert forall k :: 0 <= k < |a.receivers| ==> a.receivers[k] in a.receivers;
        }
        assert Nodes(b.receivers, |cap|) by {
          assert forall k :: 0 <= k < |b.receivers| ==> b.receivers[k] in b.receivers;
        }
        var hit := ReachesAny(b.sender, a.receivers, cap);
        var hit' := ReachesAny(a.sender, b.receivers, cap);
        conflict := hit || hit';
      }
      if a.sender == b.sender && a.items == b.items && firstReceivers == secondReceivers {
        conflict := false;
      } else if a.sender == b.sender && a.items == b.items && firstReceivers != secondReceivers {
        conflict := true;
      }
      if first == second {
        conflict := false;
      }
    }

    ghost predicate GraphBelow(cap: Capacities, n: nat)
      requires AllOnLinks(cap, allTTs)
      reads this`conflictGraph, conflictGraph, this`allTTs
    {
      && conflictGraph.Length0 == |allTTs| && conflictGraph.Length1 == |allTTs|
      && forall i, j :: 0 <= i < n && 0 <= j < n && i < |allTTs| && j < |allTTs| ==>
          conflictGraph[i, j] == Edge(cap, allTTs, i, j)
    }

    method CheckForConflict(ghost cap: Capacities)
      requires shared.Linked(cap) && AllOnLinks(cap, allTTs) &&
                (conflictGraph as object) != (shared.channelInfo as object)
      requires conflictGraph.Length0 == |allTTs| && conflictGraph.Length1 == |allTTs|
      modifies conflictGraph
      ensures Matches(conflictGraph, |allTTs|, Conflicts(cap, allTTs))
    {
      hide Edge, AllOnLinks, Conflicts;
      ConflictsSimple(cap, allTTs);
      for first := 0 to |allTTs|
        invariant GraphBelow(cap, first)
      {
        for second := 0 to first + 1
          invariant GraphBelow(cap, first)
          invariant forall j :: 0 <= j < second ==> conflictGraph[first, j] == Edge(cap, allTTs, first, j)
          invariant forall j :: 0 <= j < second ==> conflictGraph[j, first] == Edge(cap, allTTs, j, first)
        {
          var conflict := PairConflicts(first, second, cap);
          assert Conflicts(cap, allTTs)[first][second] == Conflicts(cap, allTTs)[second][first];
          conflictGraph[first, second] := conflict;
          conflictGraph[second, first] := conflict;
        }
      }
    }

    /** Pushes a download for every chosen merged TT. */
    method HandlingResults(ghost cap: Capacities)
      requires AllOnLinks(cap, allTTs) && Feasible(cap, allTTs, chosenIds) && results == []
      modifies this`results
      ensures results == Downloads(allTTs, chosenIds, |allTTs|)
      ensures Schedules.DistinctNodes(results)
    {
      for i := 0 to |allTTs|
        invariant results == Downloads(allTTs, chosenIds, i)
      {
        if i in chosenIds {
          results := results + [Schedules.Download(allTTs[i].sender, allTTs[i].items)];
        }
      }
      OneDownloadPerSender(cap, allTTs, chosenIds, |allTTs|);
    }

    method GetWeightForEachTT(ghost ups: seq<Upload>)
      requires shared.Uploaded(ups) && weightForTT.Length == |allTTs| && AllNodes(ups, allTTs)
      modifies weightForTT
      ensures weightForTT[..] == Weights(ups, allTTs)
    {
      for first := 0 to |allTTs|
        invariant forall i :: 0 <= i < first ==> weightForTT[i] == Weights(ups, allTTs)[i]
      {
        weightForTT[first] := TotalWeight(allTTs[first], ups);
      }
    }

    method TotalWeight(t: MergedTT, ghost ups: seq<Upload>) returns (w: nat)
      requires shared.Uploaded(ups) && Nodes(t.receivers, |ups|)
      ensures w == WeightBelow(ups, t, |t.receivers|)
    {
      w := 0;
      for k := 0 to |t.receivers|
        invariant w == WeightBelow(ups, t, k)
      {
        w := (w + |t.items * shared.nodeInfo[t.receivers[k]].beta| % 256) % 256;
      }
    }

    // -------------------------------------------------------------------------
    // One scheduling period.

    method SchedulingBegin(distance: seq<seq<real>>, ghost ups: seq<Upload>)
        returns (sent: seq<Schedules.Download>, ghost selected: seq<set<nat>>, ghost cap: Capacities)
      requires shared.Uploaded(ups) && Scheduler.Distances(distance, shared.nodeNumber) &&
                shared.radio.maximumChannel > 0
      requires results == [] && chosenIds == {}
      modifies this, shared
      ensures Scheduler.LinkTable(ups, shared.selection, shared.radio, distance, selected, cap) && Table(cap, |ups|)
      ensures sent == Report(ups, cap) && Schedules.DistinctNodes(sent)
      ensures shared.nodeInfo == map[] && allTTs == [] && results == [] && chosenIds == {}
    {
      hide Scheduler.LinkTable, Report, Candidates, Schedules.Loopless, Scheduler.Distances, Schedules.DistinctNodes;
      var channelInfo := new nat[shared.nodeNumber, shared.nodeNumber]((i, j) => 0);
      shared.channelInfo := channelInfo;
      selected, cap := shared.GetChannelInfo(distance, ups);
      BuildCandidates(ups, cap);
      conflictGraph := new bool[|allTTs|, |allTTs|]((i, j) => false);
      weightForTT := new nat[|allTTs|];
      sent := ChooseAndReport(ups, cap);
      ClearForPerScheduling();
    }

    method BuildCandidates(ghost ups: seq<Upload>, ghost cap: Capacities)
      requires shared.Uploaded(ups) && shared.Linked(cap)
      modifies this`allTTs, shared`allCachedDatas, shared`allPossibleDataItems, shared`allReceivers,
               shared`allPossibleReceivers
      ensures allTTs == Candidates(ups, cap)
    {
      hide AllMerged;
      allTTs := [];
      GetAllTTsReduced(ups, cap);
      assert [] + AllMerged(ups, cap, |ups|) == AllMerged(ups, cap, |ups|);
      DeleteSameForAllTTs(ups, cap);
    }

    method ChooseAndReport(ghost ups: seq<Upload>, ghost cap: Capacities) returns (sent: seq<Schedules.Download>)
      requires shared.Uploaded(ups) && shared.Linked(cap) && allTTs == Candidates(ups, cap)
      requires conflictGraph.Length0 == |allTTs| && conflictGraph.Length1 == |allTTs| && weightForTT.Length == |allTTs|
      requires conflictGraph as object != shared.channelInfo as object && results == []
      modifies conflictGraph, weightForTT, this`chosenIds, this`results
      ensures sent == Report(ups, cap) && Schedules.DistinctNodes(sent)
    {
      hide Candidates, Chosen, Ratio, Edge, Clash, Feasible, Schedules.DistinctNodes;
      ghost var tts := allTTs;
      CandidatesNodes(ups, cap);
      ConflictsSimple(cap, tts);
      CheckForConflict(cap);
      GetWeightForEachTT(ups);
      chosenIds := GreedyAlgorithm(conflictGraph, weightForTT, |allTTs|, Conflicts(cap, tts));
      MergedScheduleFeasible(ups, cap, Weights(ups, tts));
      HandlingResults(cap);
      sent := results;
    }

    method ClearForPerScheduling()
      modifies shared`nodeInfo, this`allTTs, this`results, this`chosenIds
      ensures shared.nodeInfo == map[] && allTTs == [] && results == [] && chosenIds == {}
    {
      shared.nodeInfo := map[];
      allTTs := [];
      results := [];
      chosenIds := {};
    }
  }
}
