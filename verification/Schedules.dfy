/**
 From the list of tentative transmissions to one round's schedule: dominated TTs are
 deleted, the rest become a weighted conflict graph, and the chosen ones become one
 download per sender.
 */
module Schedules {
  import opened Numbers
  import opened IndexSums
  import opened ConflictGreedy
  import opened Transmissions

  // ---------------------------------------------------------------------------
  // Deleting dominated TTs.

  /** An equal sender and receiver and no item that `b` does not send too. */
  predicate Dominates(a: TT, b: TT) {
    a.sender == b.sender && a.receiver == b.receiver && a.items <= b.items
  }

  /** Some element before `k`, below `first`, dominates `k`. */
  ghost predicate Covered<T(!new)>(tts: seq<T>, dominates: (T, T) -> bool, first: nat, k: nat)
    requires k < |tts|
  {
    exists i :: 0 <= i < first && i < k && dominates(tts[i], tts[k])
  }

  lemma NoneCovered<T(!new)>(tts: seq<T>, dominates: (T, T) -> bool)
    ensures forall k: nat :: k < |tts| ==> !Covered(tts, dominates, 0, k)
  {
  }

  lemma CoveredStep<T(!new)>(tts: seq<T>, dominates: (T, T) -> bool, first: nat, k: nat)
    requires first < k < |tts|
    ensures Covered(tts, dominates, first + 1, k) <==>
              Covered(tts, dominates, first, k) || dominates(tts[first], tts[k])
  {
  }

  lemma CoveredOnly<T(!new)>(tts: seq<T>, dominates: (T, T) -> bool, first: nat)
    ensures forall k: nat :: k <= first && k < |tts| ==>
              (Covered(tts, dominates, first + 1, k) <==> Covered(tts, dominates, first, k))
  {
  }

  /** The elements whose index is not marked. */
  ghost function Unmarked<T>(tts: seq<T>, deleted: set<nat>, n: nat): seq<T>
    requires n <= |tts|
  {
    if n == 0 then [] else Unmarked(tts, deleted, n - 1) + if n - 1 in deleted then [] else [tts[n - 1]]
  }

  lemma {:induction false} NothingMarked<T>(tts: seq<T>, n: nat)
    requires n <= |tts|
    ensures Unmarked(tts, {}, n) == tts[..n]
  {
    if n > 0 {
      NothingMarked(tts, n - 1);
      assert tts[..n] == tts[..n - 1] + [tts[n - 1]];
    }
  }

  lemma NoneMarkedYet<T>(tts: seq<T>, deleted: set<nat>)
    ensures Unmarked(tts, deleted, 0) == []
  {
  }

  lemma UnmarkedStep<T>(tts: seq<T>, deleted: set<nat>, n: nat)
    requires n < |tts|
    ensures Unmarked(tts, deleted, n + 1) == Unmarked(tts, deleted, n) + if n in deleted then [] else [tts[n]]
  {
  }

  /** Erasing the first element after a prefix. */
  lemma EraseFirst<T>(front: seq<T>, tts: seq<T>, k: nat)
    requires k < |tts|
    ensures var l := front + tts[k..]; l[..|front|] + l[|front| + 1..] == front + tts[k + 1..]
    ensures front + tts[k..] == front + [tts[k]] + tts[k + 1..]
  {
  }

  ghost predicate Kept(tts: seq<TT>, k: nat)
    requires k < |tts|
  {
    forall i :: 0 <= i < k ==> !Dominates(tts[i], tts[k])
  }

  ghost function KeptIndices(tts: seq<TT>, n: nat): (l: seq<nat>)
    requires n <= |tts|
    ensures forall i :: 0 <= i < |l| ==> l[i] < n
  {
    if n == 0 then []
    else KeptIndices(tts, n - 1) + if Kept(tts, n - 1) then [n - 1] else []
  }

  /** The TTs left after the first `n` have been looked at. */
  ghost function SurvivorsBelow(tts: seq<TT>, n: nat): (s: seq<TT>)
    requires n <= |tts|
    ensures |s| == |KeptIndices(tts, n)|
  {
    var l := KeptIndices(tts, n);
    seq(|l|, i requires 0 <= i < |l| => tts[l[i]])
  }

  /** With exactly the dominated ones marked, the unmarked ones are the survivors. */
  lemma {:induction false} UnmarkedSurvive(tts: seq<TT>, deleted: set<nat>, n: nat)
    requires n <= |tts| && forall k: nat :: k < n ==> (k in deleted <==> !Kept(tts, k))
    ensures Unmarked(tts, deleted, n) == SurvivorsBelow(tts, n)
  {
    hide Kept;
    if n > 0 {
      UnmarkedSurvive(tts, deleted, n - 1);
    }
  }

  ghost function Survivors(tts: seq<TT>): seq<TT> {
    SurvivorsBelow(tts, |tts|)
  }

  /** The survivors are picked in order, and exactly the undominated ones are picked. */
  lemma {:induction false} KeptIndicesExact(tts: seq<TT>, n: nat)
    requires n <= |tts|
    ensures Subsets.Increasing(KeptIndices(tts, n))
    ensures forall k: nat :: k in KeptIndices(tts, n) <==> k < n && Kept(tts, k)
  {
    if n > 0 {
      KeptIndicesExact(tts, n - 1);
    }
  }

  /** No survivor sends everything that an earlier survivor of its link sends. */
  lemma SurvivorsUndominated(tts: seq<TT>, i: nat, j: nat)
    requires i < j < |Survivors(tts)|
    ensures var a, b := Survivors(tts)[i], Survivors(tts)[j];
            !(a.sender == b.sender && a.receiver == b.receiver && a.items <= b.items)
    ensures !Dominates(Survivors(tts)[i], Survivors(tts)[j])
  {
    KeptIndicesExact(tts, |tts|);
    var l := KeptIndices(tts, |tts|);
    assert l[j] in l && l[i] < l[j];
  }

  /** Every deleted TT has an earlier survivor that dominates it. */
  lemma {:induction false} DeletedHasSurvivor(tts: seq<TT>, k: nat) returns (i: nat)
    requires k < |tts|
    ensures i <= k && Kept(tts, i)
    ensures tts[i].sender == tts[k].sender && tts[i].receiver == tts[k].receiver && tts[i].items <= tts[k].items
    ensures exists m :: 0 <= m < |Survivors(tts)| && Survivors(tts)[m] == tts[i]
    decreases k
  {
    if Kept(tts, k) {
      i := k;
      KeptIndicesExact(tts, |tts|);
      var l := KeptIndices(tts, |tts|);
      assert k in l;
      var m :| 0 <= m < |l| && l[m] == k;
      assert Survivors(tts)[m] == tts[k];
    } else {
      var d :| 0 <= d < k && Dominates(tts[d], tts[k]);
      i := DeletedHasSurvivor(tts, d);
    }
  }

  lemma SurvivorsFrom(tts: seq<TT>, m: nat) returns (k: nat)
    requires m < |Survivors(tts)|
    ensures k < |tts| && Survivors(tts)[m] == tts[k]
  {
    k := KeptIndices(tts, |tts|)[m];
  }

  // ---------------------------------------------------------------------------
  // The conflict graph.

  /**
   Two TTs of one sender clash unless they send the same items; two TTs of different
   senders clash when one node would send and receive, or a receiver hears both senders.
   */
  ghost predicate Clash(cap: Capacities, a: TT, b: TT)
    requires Hears(cap, a, b)
  {
    if a.sender == b.sender then a.items != b.items
    else
      || a.sender == b.receiver || a.receiver == b.sender
      || cap[a.sender][b.receiver] > 0 || cap[b.sender][a.receiver] > 0
  }

  /** The ids in both TTs index the capacity table. */
  ghost predicate Hears(cap: Capacities, a: TT, b: TT) {
    && Table(cap, |cap|)
    && a.sender < |cap| && a.receiver < |cap| && b.sender < |cap| && b.receiver < |cap|
  }

  ghost predicate InTable(cap: Capacities, tts: seq<TT>) {
    && Table(cap, |cap|)
    && forall i :: 0 <= i < |tts| ==> tts[i].sender < |cap| && tts[i].receiver < |cap|
  }

  ghost predicate Edge(cap: Capacities, tts: seq<TT>, i: nat, j: nat)
    requires InTable(cap, tts) && i < |tts| && j < |tts|
  {
    i != j && Clash(cap, tts[i], tts[j])
  }

  ghost function Row(cap: Capacities, tts: seq<TT>, i: nat): (row: seq<bool>)
    requires InTable(cap, tts) && i < |tts|
    ensures |row| == |tts| && forall j :: 0 <= j < |tts| ==> row[j] == Edge(cap, tts, i, j)
  {
    seq(|tts|, j requires 0 <= j < |tts| => Edge(cap, tts, i, j))
  }

  ghost function Conflicts(cap: Capacities, tts: seq<TT>): (g: Graph)
    requires InTable(cap, tts)
    ensures |g| == |tts| && Square(g)
    ensures forall i, j :: 0 <= i < |tts| && 0 <= j < |tts| ==> g[i][j] == Edge(cap, tts, i, j)
  {
    seq(|tts|, i requires 0 <= i < |tts| => Row(cap, tts, i))
  }

  lemma ConflictsSimple(cap: Capacities, tts: seq<TT>)
    requires InTable(cap, tts)
    ensures Symmetric(Conflicts(cap, tts)) && Irreflexive(Conflicts(cap, tts))
  {
  }

  /** The weight of a TT, cast to uint8_t. */
  ghost function Weights(ups: seq<Upload>, tts: seq<TT>): (w: seq<nat>)
    requires forall i :: 0 <= i < |tts| ==> tts[i].receiver < |ups|
    ensures |w| == |tts|
    ensures forall i :: 0 <= i < |tts| ==> w[i] == |tts[i].items * ups[tts[i].receiver].beta| % 256
  {
    seq(|tts|, i requires 0 <= i < |tts| => |tts[i].items * ups[tts[i].receiver].beta| % 256)
  }

  // ---------------------------------------------------------------------------
  // The chosen TTs and their downloads.

  datatype Download = Download(nodeId: nat, imti: set<nat>)

  ghost predicate Announced(l: seq<Download>, id: nat) {
    exists k :: 0 <= k < |l| && l[k].nodeId == id
  }

  /** One download per sender, in the order of the chosen identifiers below `n`. */
  ghost function Downloads(tts: seq<TT>, chosen: set<nat>, n: nat): seq<Download>
    requires n <= |tts|
  {
    if n == 0 then []
    else
      var l := Downloads(tts, chosen, n - 1);
      if n - 1 in chosen && !Announced(l, tts[n - 1].sender) then l + [Download(tts[n - 1].sender, tts[n - 1].items)]
      else l
  }

  /** All chosen TTs of one sender carry the same items. */
  ghost predicate Consistent(tts: seq<TT>, chosen: set<nat>) {
    forall i, j :: i in chosen && j in chosen && i < |tts| && j < |tts| && tts[i].sender == tts[j].sender ==>
      tts[i].items == tts[j].items
  }

  /** Every download comes from a chosen TT. */
  lemma {:induction false} DownloadsFrom(tts: seq<TT>, chosen: set<nat>, n: nat, a: nat) returns (i: nat)
    requires n <= |tts| && a < |Downloads(tts, chosen, n)|
    ensures i in chosen && i < n && Downloads(tts, chosen, n)[a] == Download(tts[i].sender, tts[i].items)
  {
    i := n - 1;
    var before := Downloads(tts, chosen, n - 1);
    if a < |before| {
      i := DownloadsFrom(tts, chosen, n - 1, a);
    }
  }

  ghost predicate DistinctNodes(l: seq<Download>) {
    forall a, b :: 0 <= a < b < |l| ==> l[a].nodeId != l[b].nodeId
  }

  lemma {:induction false} DownloadsDistinct(tts: seq<TT>, chosen: set<nat>, n: nat)
    requires n <= |tts|
    ensures DistinctNodes(Downloads(tts, chosen, n))
  {
    if n > 0 {
      DownloadsDistinct(tts, chosen, n - 1);
    }
  }

  lemma {:induction false} DownloadsCover(tts: seq<TT>, chosen: set<nat>, n: nat, i: nat)
    requires n <= |tts| && i in chosen && i < n
    ensures Announced(Downloads(tts, chosen, n), tts[i].sender)
  {
    var before, l := Downloads(tts, chosen, n - 1), Downloads(tts, chosen, n);
    if i < n - 1 || Announced(before, tts[i].sender) {
      if i < n - 1 {
        DownloadsCover(tts, chosen, n - 1, i);
      }
      var k :| 0 <= k < |before| && before[k].nodeId == tts[i].sender;
      assert l[k] == before[k];
    } else {
      assert l[|before|].nodeId == tts[i].sender;
    }
  }

  /** The node sends some chosen TT. */
  ghost predicate Active(tts: seq<TT>, chosen: set<nat>, n: nat, id: nat)
    requires n <= |tts|
  {
    exists i :: i in chosen && i < n && tts[i].sender == id
  }

  /** One download for each active sender and none for others. */
  ghost predicate OnePerSender(tts: seq<TT>, chosen: set<nat>, n: nat, l: seq<Download>)
    requires n <= |tts|
  {
    && DistinctNodes(l)
    && (forall i :: i in chosen && i < n ==> Announced(l, tts[i].sender))
    && (forall a :: 0 <= a < |l| ==> Active(tts, chosen, n, l[a].nodeId))
  }

  /** The schedule reports exactly one download for each active sender. */
  lemma DownloadsOnePerSender(tts: seq<TT>, chosen: set<nat>, n: nat)
    requires n <= |tts|
    ensures OnePerSender(tts, chosen, n, Downloads(tts, chosen, n))
  {
    hide Downloads, Announced, DistinctNodes;
    var l := Downloads(tts, chosen, n);
    DownloadsDistinct(tts, chosen, n);
    forall i | i in chosen && i < n
      ensures Announced(l, tts[i].sender)
    {
      DownloadsCover(tts, chosen, n, i);
    }
    forall a | 0 <= a < |l|
      ensures Active(tts, chosen, n, l[a].nodeId)
    {
      var j := DownloadsFrom(tts, chosen, n, a);
    }
  }

  /** A download carries the items of every chosen TT of its sender. */
  lemma DownloadItems(tts: seq<TT>, chosen: set<nat>, n: nat, a: nat, i: nat)
    requires n <= |tts| && Consistent(tts, chosen) && a < |Downloads(tts, chosen, n)|
    requires i in chosen && i < |tts| && Downloads(tts, chosen, n)[a].nodeId == tts[i].sender
    ensures Downloads(tts, chosen, n)[a].imti == tts[i].items
  {
    var j := DownloadsFrom(tts, chosen, n, a);
  }

  /** What a schedule must respect, for the TTs chosen from a list. */
  ghost predicate Feasible(cap: Capacities, tts: seq<TT>, chosen: set<nat>)
    requires InTable(cap, tts)
  {
    && Consistent(tts, chosen)
    // no node both sends and receives
    && (forall i, j :: i in chosen && j in chosen && i < |tts| && j < |tts| ==> tts[i].sender != tts[j].receiver)
    // a receiver hears its own sender and no other active one
    && (forall i, j :: i in chosen && j in chosen && i < |tts| && j < |tts| ==>
          (cap[tts[i].sender][tts[j].receiver] > 0 <==> tts[i].sender == tts[j].sender))
    // no two chosen TTs share a receiver
    && (forall i, j :: i in chosen && j in chosen && i < |tts| && j < |tts| && tts[i].receiver == tts[j].receiver ==>
        i == j)
  }

  /** The capacity table gives no node a link to itself. */
  ghost predicate Loopless(cap: Capacities)
    requires Table(cap, |cap|)
  {
    forall i :: 0 <= i < |cap| ==> cap[i][i] == 0
  }

  ghost predicate AllSound(ups: seq<Upload>, cap: Capacities, tts: seq<TT>)
    requires Table(cap, |ups|)
  {
    forall i :: 0 <= i < |tts| ==> Sound(ups, cap, tts[i])
  }

  ghost predicate Undominated(tts: seq<TT>) {
    forall i, j :: 0 <= i < j < |tts| ==> !Dominates(tts[i], tts[j])
  }

  /** A choice of TTs is independent in the conflict graph if and only if it is a feasible schedule. */
  lemma IndependentIffFeasible(ups: seq<Upload>, cap: Capacities, tts: seq<TT>, chosen: set<nat>)
    requires Table(cap, |ups|) && Loopless(cap) && AllSound(ups, cap, tts) && Undominated(tts) && InTable(cap, tts)
    ensures Independent(Conflicts(cap, tts), chosen) <==> Feasible(cap, tts, chosen)
  {
    if Independent(Conflicts(cap, tts), chosen) {
      IndependentIsFeasible(ups, cap, tts, chosen);
    }
  }

  /** Every independent set of the conflict graph is a feasible schedule. */
  lemma IndependentIsFeasible(ups: seq<Upload>, cap: Capacities, tts: seq<TT>, chosen: set<nat>)
    requires Table(cap, |ups|) && Loopless(cap) && AllSound(ups, cap, tts) && Undominated(tts)
    requires InTable(cap, tts) && Independent(Conflicts(cap, tts), chosen)
    ensures Feasible(cap, tts, chosen)
  {
    forall i, j | i in chosen && j in chosen && i < |tts| && j < |tts|
      ensures tts[i].sender == tts[j].sender ==> tts[i].items == tts[j].items
      ensures tts[i].sender != tts[j].receiver
      ensures cap[tts[i].sender][tts[j].receiver] > 0 <==> tts[i].sender == tts[j].sender
      ensures tts[i].receiver == tts[j].receiver ==> i == j
    {
      PairIsFeasible(ups, cap, tts, chosen, i, j);
    }
  }

  lemma PairIsFeasible(ups: seq<Upload>, cap: Capacities, tts: seq<TT>, chosen: set<nat>, i: nat, j: nat)
    requires Table(cap, |ups|) && Loopless(cap) && AllSound(ups, cap, tts) && Undominated(tts)
    requires InTable(cap, tts) && Independent(Conflicts(cap, tts), chosen)
    requires i in chosen && j in chosen && i < |tts| && j < |tts|
    ensures tts[i].sender == tts[j].sender ==> tts[i].items == tts[j].items
    ensures tts[i].sender != tts[j].receiver
    ensures cap[tts[i].sender][tts[j].receiver] > 0 <==> tts[i].sender == tts[j].sender
    ensures tts[i].receiver == tts[j].receiver ==> i == j
  {
    assert !Conflicts(cap, tts)[i][j];
    assert Sound(ups, cap, tts[i]) && Sound(ups, cap, tts[j]);
    assert cap[tts[j].sender][tts[j].receiver] > 0;
    if i < j {
      assert !Dominates(tts[i], tts[j]);
    } else if j < i {
      assert !Dominates(tts[j], tts[i]);
    }
  }

  // ---------------------------------------------------------------------------
  // The whole pipeline.

  /** The surviving TTs are sound, and none is dominated by an earlier one. */
  lemma SurvivorsSound(ups: seq<Upload>, cap: Capacities)
    requires Table(cap, |ups|)
    ensures var tts := Survivors(AllTTs(ups, cap, |ups|));
            AllSound(ups, cap, tts) && Undominated(tts) && InTable(cap, tts)
  {
    var all := AllTTs(ups, cap, |ups|);
    AllTTsSound(ups, cap, |ups|);
    var tts := Survivors(all);
    forall m | 0 <= m < |tts|
      ensures Sound(ups, cap, tts[m])
    {
      var k := SurvivorsFrom(all, m);
      assert all[k] in all;
    }
    forall i, j | 0 <= i < j < |tts|
      ensures !Dominates(tts[i], tts[j])
    {
      SurvivorsUndominated(all, i, j);
    }
  }

  ghost function Candidates(ups: seq<Upload>, cap: Capacities): (tts: seq<TT>)
    requires Table(cap, |ups|)
    ensures AllSound(ups, cap, tts) && Undominated(tts) && InTable(cap, tts)
  {
    SurvivorsSound(ups, cap);
    Survivors(AllTTs(ups, cap, |ups|))
  }

  ghost function Picks(ups: seq<Upload>, cap: Capacities): set<nat>
    requires Table(cap, |ups|)
  {
    var tts := Candidates(ups, cap);
    Chosen(Conflicts(cap, tts), Weights(ups, tts), All(|tts|))
  }

  /** What one scheduling period sends to the MAC layers. */
  ghost function Schedule(ups: seq<Upload>, cap: Capacities): seq<Download>
    requires Table(cap, |ups|)
  {
    var tts := Candidates(ups, cap);
    Downloads(tts, Picks(ups, cap), |tts|)
  }

  /** Safety of every emitted schedule: the chosen TTs are feasible, and each active sender has exactly one download. */
  lemma ScheduleFeasible(ups: seq<Upload>, cap: Capacities)
    requires Table(cap, |ups|) && Loopless(cap)
    ensures Feasible(cap, Candidates(ups, cap), Picks(ups, cap))
    ensures Below(Picks(ups, cap), |Candidates(ups, cap)|)
    ensures OnePerSender(Candidates(ups, cap), Picks(ups, cap), |Candidates(ups, cap)|, Schedule(ups, cap))
  {
    hide Ratio, OnePerSender;
    var tts := Candidates(ups, cap);
    var g, w := Conflicts(cap, tts), Weights(ups, tts);
    ConflictsSimple(cap, tts);
    ChosenIndependent(g, w, All(|tts|));
    ChosenWithin(g, w, All(|tts|));
    IndependentIsFeasible(ups, cap, tts, Picks(ups, cap));
    DownloadsOnePerSender(tts, Picks(ups, cap), |tts|);
  }

  /** The download of a sender carries the items of each of its chosen TTs. */
  lemma ScheduleItems(ups: seq<Upload>, cap: Capacities, i: nat, d: nat)
    requires Table(cap, |ups|) && Loopless(cap)
    requires i in Picks(ups, cap) && i < |Candidates(ups, cap)| && d < |Schedule(ups, cap)|
    requires Schedule(ups, cap)[d].nodeId == Candidates(ups, cap)[i].sender
    ensures Schedule(ups, cap)[d].imti == Candidates(ups, cap)[i].items
  {
    hide Picks;
    ScheduleFeasible(ups, cap);
    DownloadItems(Candidates(ups, cap), Picks(ups, cap), |Candidates(ups, cap)|, d, i);
  }

  /** The candidates that cannot be scheduled together with candidate `i`. */
  ghost function Rivals(cap: Capacities, tts: seq<TT>, i: nat): set<nat>
    requires InTable(cap, tts)
  {
    set j: nat | j < |tts| && j != i && !Feasible(cap, tts, {i, j})
  }

  /** The neighbours in the conflict graph are the rivals. */
  lemma NeighboursAreRivals(ups: seq<Upload>, cap: Capacities, tts: seq<TT>, i: nat)
    requires Table(cap, |ups|) && Loopless(cap) && AllSound(ups, cap, tts) && Undominated(tts) && InTable(cap, tts)
    requires i < |tts|
    ensures Neighbours(Conflicts(cap, tts), All(|tts|), i) == Rivals(cap, tts, i)
  {
    hide Feasible, Edge, AllSound, Undominated, InTable;
    ConflictsSimple(cap, tts);
    forall j: nat | j < |tts| && j != i
      ensures Conflicts(cap, tts)[i][j] <==> !Feasible(cap, tts, {i, j})
    {
      IndependentIffFeasible(ups, cap, tts, {i, j});
    }
  }

  /**
   No feasible schedule of candidates weighs more than max(1, D) times the chosen one, where no
   candidate has more than D rivals.
   */
  lemma PicksApproximate(ups: seq<Upload>, cap: Capacities, opt: set<nat>, d: nat)
    requires Table(cap, |ups|) && Loopless(cap) && Below(opt, |Candidates(ups, cap)|)
    requires Feasible(cap, Candidates(ups, cap), opt)
    requires forall i :: 0 <= i < |Candidates(ups, cap)| ==> |Rivals(cap, Candidates(ups, cap), i)| <= d
    ensures var w := Weights(ups, Candidates(ups, cap));
            Weight(w, opt) <= Times(Weight(w, Picks(ups, cap)), Max(1, d))
  {
    hide Ratio, Times, Edge, Weight, Independent, Feasible, Rivals, Neighbours;
    var tts := Candidates(ups, cap);
    ConflictsSimple(cap, tts);
    IndependentIffFeasible(ups, cap, tts, opt);
    forall i: nat | i < |tts|
      ensures |Neighbours(Conflicts(cap, tts), All(|tts|), i)| <= d
    {
      NeighboursAreRivals(ups, cap, tts, i);
    }
    ChosenApproximates(Conflicts(cap, tts), Weights(ups, tts), All(|tts|), opt, d);
  }

  /** Every candidate left out is a rival of a chosen one: nothing can be added to a schedule. */
  lemma ScheduleMaximal(ups: seq<Upload>, cap: Capacities, i: nat)
    requires Table(cap, |ups|) && Loopless(cap) && i < |Candidates(ups, cap)|
    ensures i in Picks(ups, cap) || exists j :: j in Picks(ups, cap) && j in Rivals(cap, Candidates(ups, cap), i)
  {
    hide Ratio, Edge, Feasible, Rivals, Chosen;
    var tts := Candidates(ups, cap);
    var g, w := Conflicts(cap, tts), Weights(ups, tts);
    ConflictsSimple(cap, tts);
    ChosenMaximal(g, w, All(|tts|), i);
    NeighboursAreRivals(ups, cap, tts, i);
    if i !in Picks(ups, cap) {
      var j: nat :| j in Picks(ups, cap) && j < |g| && g[i][j];
      assert j in Neighbours(g, All(|tts|), i);
    }
  }
}
