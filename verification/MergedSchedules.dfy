/**
 The merged variant of the scheduler: one tentative transmission names a whole vector of
 receivers, and every chosen one is reported as a download without further checks.
 */
module MergedSchedules {
  import opened Numbers
  import opened IndexSums
  import opened Subsets
  import opened Transmissions
  import opened ConflictGreedy
  import Schedules

  datatype MergedTT = MergedTT(sender: nat, items: set<nat>, receivers: seq<nat>)

  // ---------------------------------------------------------------------------
  // Enumeration: at most one merged TT per sender and receiver vector.

  /** Nothing, if no item set delivers anything, or the best set for all receivers at once. */
  ghost function ForReceivers(ups: seq<Upload>, row: seq<nat>, sender: nat, receivers: seq<nat>): seq<MergedTT>
    requires |row| == |ups| && sender < |ups| && Nodes(receivers, |ups|)
  {
    var best := BestItems(ups, row, sender, receivers);
    if best.count == 0 then [] else [MergedTT(sender, best.items, receivers)]
  }

  ghost function ForVectors(ups: seq<Upload>, row: seq<nat>, sender: nat, vectors: seq<seq<nat>>, k: nat): seq<MergedTT>
    requires |row| == |ups| && sender < |ups| && k <= |vectors|
    requires forall i :: 0 <= i < k ==> Nodes(vectors[i], |ups|)
  {
    if k == 0 then []
    else ForVectors(ups, row, sender, vectors, k - 1) + ForReceivers(ups, row, sender, vectors[k - 1])
  }

  lemma VectorsNodes(row: seq<nat>)
    ensures forall i :: 0 <= i < |Vectors(row)| ==> Nodes(Vectors(row)[i], |row|)
  {
    forall i | 0 <= i < |Vectors(row)|
      ensures Nodes(Vectors(row)[i], |row|)
    {
      VectorsAreNodes(row, i);
    }
  }

  ghost function OfSender(ups: seq<Upload>, row: seq<nat>, sender: nat): seq<MergedTT>
    requires |row| == |ups| && sender < |ups|
  {
    VectorsNodes(row);
    ForVectors(ups, row, sender, Vectors(row), |Vectors(row)|)
  }

  ghost function AllMerged(ups: seq<Upload>, cap: Capacities, s: nat): seq<MergedTT>
    requires Table(cap, |ups|) && s <= |ups|
  {
    if s == 0 then [] else AllMerged(ups, cap, s - 1) + OfSender(ups, cap[s - 1], s - 1)
  }

  /** No two merged TTs of one sender address the same receivers. */
  ghost predicate DistinctReceivers(tts: seq<MergedTT>) {
    forall i, j :: 0 <= i < |tts| && 0 <= j < |tts| && i != j && tts[i].sender == tts[j].sender ==>
      Elements(tts[i].receivers) != Elements(tts[j].receivers)
  }

  /** Every receiver of a merged TT has a link from its sender. */
  ghost predicate OnLinks(cap: Capacities, t: MergedTT)
    requires Table(cap, |cap|)
  {
    t.sender < |cap| && forall r :: r in t.receivers ==> r < |cap| && cap[t.sender][r] > 0
  }

  lemma VectorsDistinct(row: seq<nat>, a: nat, b: nat)
    requires a < |Vectors(row)| && b < |Vectors(row)| && a != b
    ensures Elements(Vectors(row)[a]) != Elements(Vectors(row)[b])
  {
    var l := NeighbourList(row, |row|);
    NeighbourListIncreases(row, |row|);
    if Elements(Vectors(row)[a]) == Elements(Vectors(row)[b]) {
      SublistsOrdered(l, 0, [], a, b);
      SublistsOrdered(l, 0, [], b, a);
    }
  }

  lemma {:induction false} ForVectorsDistinct(ups: seq<Upload>, row: seq<nat>, sender: nat, k: nat)
    requires |row| == |ups| && sender < |ups| && k <= |Vectors(row)|
    requires forall i :: 0 <= i < |Vectors(row)| ==> Nodes(Vectors(row)[i], |row|)
    ensures var l := ForVectors(ups, row, sender, Vectors(row), k);
            && (forall i :: 0 <= i < |l| ==>
                 l[i].sender == sender && exists m :: 0 <= m < k && Vectors(row)[m] == l[i].receivers)
            && DistinctReceivers(l)
  {
    hide BestItems;
    if k > 0 {
      ForVectorsDistinct(ups, row, sender, k - 1);
      var before := ForVectors(ups, row, sender, Vectors(row), k - 1);
      forall i | 0 <= i < |before|
        ensures Elements(before[i].receivers) != Elements(Vectors(row)[k - 1])
      {
        var m :| 0 <= m < k - 1 && Vectors(row)[m] == before[i].receivers;
        VectorsDistinct(row, m, k - 1);
      }
    }
  }

  lemma OfSenderDistinct(ups: seq<Upload>, cap: Capacities, sender: nat)
    requires Table(cap, |ups|) && sender < |ups|
    ensures var l := OfSender(ups, cap[sender], sender);
            && DistinctReceivers(l)
            && forall i :: 0 <= i < |l| ==> l[i].sender == sender && OnLinks(cap, l[i])
  {
    var row := cap[sender];
    VectorsNodes(row);
    ForVectorsDistinct(ups, row, sender, |Vectors(row)|);
    var l := OfSender(ups, row, sender);
    forall i | 0 <= i < |l|
      ensures OnLinks(cap, l[i])
    {
      var m :| 0 <= m < |Vectors(row)| && Vectors(row)[m] == l[i].receivers;
      VectorsAreNodes(row, m);
    }
  }

  lemma {:induction false} AllMergedDistinct(ups: seq<Upload>, cap: Capacities, s: nat)
    requires Table(cap, |ups|) && s <= |ups|
    ensures DistinctReceivers(AllMerged(ups, cap, s))
    ensures forall i :: 0 <= i < |AllMerged(ups, cap, s)| ==>
              AllMerged(ups, cap, s)[i].sender < s && OnLinks(cap, AllMerged(ups, cap, s)[i])
  {
    hide OfSender, OnLinks;
    if s > 0 {
      AllMergedDistinct(ups, cap, s - 1);
      OfSenderDistinct(ups, cap, s - 1);
    }
  }

  // ---------------------------------------------------------------------------
  // Deleting dominated merged TTs deletes nothing.

  predicate Dominates(a: MergedTT, b: MergedTT) {
    a.sender == b.sender && a.receivers == b.receivers && a.items <= b.items
  }

  lemma NothingDominated(ups: seq<Upload>, cap: Capacities, i: nat, j: nat)
    requires Table(cap, |ups|) && i < j < |AllMerged(ups, cap, |ups|)|
    ensures !Dominates(AllMerged(ups, cap, |ups|)[i], AllMerged(ups, cap, |ups|)[j])
  {
    hide AllMerged, OnLinks;
    AllMergedDistinct(ups, cap, |ups|);
  }

  // ---------------------------------------------------------------------------
  // The conflict graph.

  ghost predicate Crosses(cap: Capacities, a: MergedTT, b: MergedTT)
    requires Table(cap, |cap|) && OnLinks(cap, a) && OnLinks(cap, b)
  {
    a.sender in b.receivers || exists r :: r in b.receivers && cap[a.sender][r] > 0
  }

  /**
   Two merged TTs of one sender clash unless they are the same transmission to the same
   receivers; those of different senders clash when either reaches into the other.
   */
  ghost predicate Clash(cap: Capacities, a: MergedTT, b: MergedTT)
    requires Table(cap, |cap|) && OnLinks(cap, a) && OnLinks(cap, b)
  {
    if a.sender == b.sender then a.items != b.items || Elements(a.receivers) != Elements(b.receivers)
    else Crosses(cap, a, b) || Crosses(cap, b, a)
  }

  ghost predicate AllOnLinks(cap: Capacities, tts: seq<MergedTT>) {
    Table(cap, |cap|) && forall i :: 0 <= i < |tts| ==> OnLinks(cap, tts[i])
  }

  ghost predicate Edge(cap: Capacities, tts: seq<MergedTT>, i: nat, j: nat)
    requires AllOnLinks(cap, tts) && i < |tts| && j < |tts|
  {
    i != j && Clash(cap, tts[i], tts[j])
  }

  ghost function Row(cap: Capacities, tts: seq<MergedTT>, i: nat): (row: seq<bool>)
    requires AllOnLinks(cap, tts) && i < |tts|
    ensures |row| == |tts| && forall j :: 0 <= j < |tts| ==> row[j] == Edge(cap, tts, i, j)
  {
    seq(|tts|, j requires 0 <= j < |tts| => Edge(cap, tts, i, j))
  }

  ghost function Conflicts(cap: Capacities, tts: seq<MergedTT>): (g: Graph)
    requires AllOnLinks(cap, tts)
    ensures |g| == |tts| && Square(g)
    ensures forall i, j :: 0 <= i < |tts| && 0 <= j < |tts| ==> g[i][j] == Edge(cap, tts, i, j)
  {
    seq(|tts|, i requires 0 <= i < |tts| => Row(cap, tts, i))
  }

  lemma ConflictsSimple(cap: Capacities, tts: seq<MergedTT>)
    requires AllOnLinks(cap, tts)
    ensures Symmetric(Conflicts(cap, tts)) && Irreflexive(Conflicts(cap, tts))
  {
    hide Crosses;
  }

  // ---------------------------------------------------------------------------
  // One download per sender.

  /** What an independent set guarantees: senders are all different and disturb no other receiver. */
  ghost predicate Feasible(cap: Capacities, tts: seq<MergedTT>, chosen: set<nat>)
    requires AllOnLinks(cap, tts)
  {
    forall i, j :: i in chosen && j in chosen && i < |tts| && j < |tts| && i != j ==>
      && tts[i].sender != tts[j].sender
      && tts[i].sender !in tts[j].receivers
      && forall r :: r in tts[j].receivers ==> cap[tts[i].sender][r] == 0
  }

  lemma IndependentIsFeasible(cap: Capacities, tts: seq<MergedTT>, chosen: set<nat>)
    requires AllOnLinks(cap, tts) && DistinctReceivers(tts) && Independent(Conflicts(cap, tts), chosen)
    ensures Feasible(cap, tts, chosen)
  {
    forall i, j | i in chosen && j in chosen && i < |tts| && j < |tts| && i != j
      ensures tts[i].sender != tts[j].sender && tts[i].sender !in tts[j].receivers
      ensures forall r :: r in tts[j].receivers ==> cap[tts[i].sender][r] == 0
    {
      assert !Conflicts(cap, tts)[i][j];
      assert !Clash(cap, tts[i], tts[j]);
    }
  }

  /** A choice of merged TTs is independent in the conflict graph if and only if it is feasible. */
  lemma IndependentIffFeasible(cap: Capacities, tts: seq<MergedTT>, chosen: set<nat>)
    requires AllOnLinks(cap, tts) && DistinctReceivers(tts)
    ensures Independent(Conflicts(cap, tts), chosen) <==> Feasible(cap, tts, chosen)
  {
    if Independent(Conflicts(cap, tts), chosen) {
      IndependentIsFeasible(cap, tts, chosen);
    }
  }

  ghost function Candidates(ups: seq<Upload>, cap: Capacities): (tts: seq<MergedTT>)
    requires Table(cap, |ups|)
    ensures AllOnLinks(cap, tts) && DistinctReceivers(tts)
  {
    AllMergedDistinct(ups, cap, |ups|);
    AllMerged(ups, cap, |ups|)
  }

  /** The merged scheduler reports at most one download per sender although it never checks. */
  lemma MergedScheduleFeasible(ups: seq<Upload>, cap: Capacities, w: seq<nat>)
    requires Table(cap, |ups|) && |w| == |Candidates(ups, cap)|
    ensures var tts := Candidates(ups, cap);
            var chosen := Chosen(Conflicts(cap, tts), w, All(|tts|));
            Feasible(cap, tts, chosen) && Schedules.DistinctNodes(Downloads(tts, chosen, |tts|))
  {
    hide Ratio, Edge, Feasible;
    var tts := Candidates(ups, cap);
    var chosen := Chosen(Conflicts(cap, tts), w, All(|tts|));
    ConflictsSimple(cap, tts);
    ChosenIndependent(Conflicts(cap, tts), w, All(|tts|));
    IndependentIsFeasible(cap, tts, chosen);
    OneDownloadPerSender(cap, tts, chosen, |tts|);
  }

  ghost function Downloads(tts: seq<MergedTT>, chosen: set<nat>, n: nat): seq<Schedules.Download>
    requires n <= |tts|
  {
    if n == 0 then []
    else
      Downloads(tts, chosen, n - 1) +
      if n - 1 in chosen then [Schedules.Download(tts[n - 1].sender, tts[n - 1].items)] else []
  }

  lemma {:induction false} DownloadsFrom(tts: seq<MergedTT>, chosen: set<nat>, n: nat, a: nat) returns (i: nat)
    requires n <= |tts| && a < |Downloads(tts, chosen, n)|
    ensures i in chosen && i < n && Downloads(tts, chosen, n)[a] == Schedules.Download(tts[i].sender, tts[i].items)
  {
    i := n - 1;
    var before := Downloads(tts, chosen, n - 1);
    if a < |before| {
      i := DownloadsFrom(tts, chosen, n - 1, a);
    }
  }

  lemma {:induction false} OneDownloadPerSender(cap: Capacities, tts: seq<MergedTT>, chosen: set<nat>, n: nat)
    requires AllOnLinks(cap, tts) && Feasible(cap, tts, chosen) && n <= |tts|
    ensures Schedules.DistinctNodes(Downloads(tts, chosen, n))
  {
    if n > 0 {
      OneDownloadPerSender(cap, tts, chosen, n - 1);
      if n - 1 in chosen {
        var before := Downloads(tts, chosen, n - 1);
        forall a | 0 <= a < |before|
          ensures before[a].nodeId != tts[n - 1].sender
        {
          var i := DownloadsFrom(tts, chosen, n - 1, a);
          assert tts[i].sender != tts[n - 1].sender;
        }
        assert Schedules.DistinctNodes(before + [Schedules.Download(tts[n - 1].sender, tts[n - 1].items)]);
      }
    }
  }

  /** A download is reported if and only if it belongs to a chosen merged TT. */
  lemma {:induction false} DownloadsExact(tts: seq<MergedTT>, chosen: set<nat>, n: nat, d: Schedules.Download)
    requires n <= |tts|
    ensures d in Downloads(tts, chosen, n) <==>
              exists i :: i in chosen && i < n && d.nodeId == tts[i].sender && d.imti == tts[i].items
  {
    if n > 0 {
      DownloadsExact(tts, chosen, n - 1, d);
    }
  }

  /** The merged TTs that cannot be scheduled together with TT `i`. */
  ghost function Rivals(cap: Capacities, tts: seq<MergedTT>, i: nat): set<nat>
    requires AllOnLinks(cap, tts)
  {
    set j: nat | j < |tts| && j != i && !Feasible(cap, tts, {i, j})
  }

  lemma NeighboursAreRivals(cap: Capacities, tts: seq<MergedTT>, i: nat)
    requires AllOnLinks(cap, tts) && DistinctReceivers(tts) && i < |tts|
    ensures Neighbours(Conflicts(cap, tts), All(|tts|), i) == Rivals(cap, tts, i)
  {
    hide Feasible, Edge, DistinctReceivers, AllOnLinks;
    ConflictsSimple(cap, tts);
    forall j: nat | j < |tts| && j != i
      ensures Conflicts(cap, tts)[i][j] <==> !Feasible(cap, tts, {i, j})
    {
      IndependentIffFeasible(cap, tts, {i, j});
    }
  }

  /**
   For any weights, no feasible choice outweighs max(1, D) times the chosen one, where no merged TT
   has more than D rivals.
   */
  lemma MergedApproximates(ups: seq<Upload>, cap: Capacities, w: seq<nat>, opt: set<nat>, d: nat)
    requires Table(cap, |ups|) && |w| == |Candidates(ups, cap)| && Below(opt, |w|)
    requires Feasible(cap, Candidates(ups, cap), opt)
    requires forall i :: 0 <= i < |w| ==> |Rivals(cap, Candidates(ups, cap), i)| <= d
    ensures var tts := Candidates(ups, cap);
            Weight(w, opt) <= Times(Weight(w, Chosen(Conflicts(cap, tts), w, All(|tts|))), Max(1, d))
  {
    hide Ratio, Times, Edge, Weight, Independent, Feasible, Rivals, Neighbours, Candidates;
    var tts := Candidates(ups, cap);
    ConflictsSimple(cap, tts);
    IndependentIffFeasible(cap, tts, opt);
    forall i: nat | i < |tts|
      ensures |Neighbours(Conflicts(cap, tts), All(|tts|), i)| <= d
    {
      NeighboursAreRivals(cap, tts, i);
    }
    ChosenApproximates(Conflicts(cap, tts), w, All(|tts|), opt, d);
  }

  // ---------------------------------------------------------------------------
  // Weights, kept in a byte.

  /** The running weight of a merged TT after its first `k` receivers. */
  ghost function WeightBelow(ups: seq<Upload>, t: MergedTT, k: nat): (w: nat)
    requires Nodes(t.receivers, |ups|) && k <= |t.receivers|
    ensures w < 256
  {
    if k == 0 then 0 else (WeightBelow(ups, t, k - 1) + |t.items * ups[t.receivers[k - 1]].beta| % 256) % 256
  }

  /** The missing items a merged TT would bring to its first `k` receivers if all of them could take it. */
  ghost function Wanted(ups: seq<Upload>, t: MergedTT, k: nat): nat
    requires Nodes(t.receivers, |ups|) && k <= |t.receivers|
  {
    if k == 0 then 0 else Wanted(ups, t, k - 1) + |t.items * ups[t.receivers[k - 1]].beta|
  }

  /** Adding up in a byte is adding up and reducing once. */
  lemma {:induction false} WeightIsWanted(ups: seq<Upload>, t: MergedTT, k: nat)
    requires Nodes(t.receivers, |ups|) && k <= |t.receivers|
    ensures WeightBelow(ups, t, k) == Wanted(ups, t, k) % 256
  {
    if k > 0 {
      WeightIsWanted(ups, t, k - 1);
      ByteSum(Wanted(ups, t, k - 1), |t.items * ups[t.receivers[k - 1]].beta|);
    }
  }

  lemma ByteSum(a: nat, b: nat)
    ensures (a % 256 + b % 256) % 256 == (a + b) % 256
  {
    var x := a % 256 + b % 256;
    var k := a / 256 + b / 256;
    assert a + b == x + 256 * k;
    WholeBytes(x, k);
  }

  lemma WholeBytes(x: nat, k: nat)
    ensures (x + 256 * k) % 256 == x % 256
  {
  }

  ghost predicate AllNodes(ups: seq<Upload>, tts: seq<MergedTT>) {
    forall i :: 0 <= i < |tts| ==> Nodes(tts[i].receivers, |ups|)
  }

  ghost function Weights(ups: seq<Upload>, tts: seq<MergedTT>): (w: seq<nat>)
    requires AllNodes(ups, tts)
    ensures |w| == |tts|
    ensures forall i :: 0 <= i < |tts| ==> w[i] == WeightBelow(ups, tts[i], |tts[i].receivers|)
  {
    seq(|tts|, i requires 0 <= i < |tts| => WeightBelow(ups, tts[i], |tts[i].receivers|))
  }

  lemma CandidatesNodes(ups: seq<Upload>, cap: Capacities)
    requires Table(cap, |ups|)
    ensures AllNodes(ups, Candidates(ups, cap))
  {
    var tts := Candidates(ups, cap);
    forall i, k | 0 <= i < |tts| && 0 <= k < |tts[i].receivers|
      ensures tts[i].receivers[k] < |ups|
    {
      assert OnLinks(cap, tts[i]) && tts[i].receivers[k] in tts[i].receivers;
    }
  }

  /** What the merged scheduler reports. */
  ghost function Report(ups: seq<Upload>, cap: Capacities): seq<Schedules.Download>
    requires Table(cap, |ups|)
  {
    CandidatesNodes(ups, cap);
    var tts := Candidates(ups, cap);
    Downloads(tts, Chosen(Conflicts(cap, tts), Weights(ups, tts), All(|tts|)), |tts|)
  }
}
