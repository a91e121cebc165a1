/**
 Scheduling rounds: the downloads of a schedule are broadcast, the nodes that hear them
 grow their caches, and the next round starts from the grown caches.
 */
module Rounds {
  import opened IndexSums
  import opened ConflictGreedy
  import opened Transmissions
  import opened Schedules

  /** The items each node caches. */
  type Caches = seq<set<nat>>

  /** WhetherReceive: all items of a packet are added, unless they exceed the capacity of the link. */
  function Received(cached: set<nat>, imti: set<nat>, capacity: nat): (s: set<nat>)
    ensures cached <= s <= cached + imti
    ensures |imti| > capacity ==> s == cached
    ensures |imti| <= capacity ==> imti <= s
  {
    if |imti| > capacity then cached else cached + imti
  }

  /** The data items are numbered below `universe`; uint8_t numbers keep it below 256. */
  ghost predicate Cached(caches: Caches, universe: nat) {
    universe < 256 && forall i :: 0 <= i < |caches| ==> Below(caches[i], universe)
  }

  /** What every node uploads: its cache and the complement of it. */
  ghost function Uploads(caches: Caches, universe: nat, types: seq<nat>): (ups: seq<Upload>)
    requires |types| == |caches|
    ensures |ups| == |caches|
    ensures forall i :: 0 <= i < |caches| ==>
              ups[i].alpha == caches[i] && ups[i].beta == All(universe) - caches[i] && ups[i].rsuOrObu == types[i]
  {
    seq(|caches|, i requires 0 <= i < |caches| => Upload(caches[i], All(universe) - caches[i], types[i]))
  }

  /** One receiver hearing one download. */
  datatype Delivery = Delivery(download: nat, receiver: nat)

  /**
   The node types, the link table the scheduler computed, the capacities that hold on the air, and
   who hears what, in order.
   */
  datatype Round = Round(types: seq<nat>, cap: Capacities, air: Capacities, deliveries: seq<Delivery>)

  ghost predicate WellFormed(caches: Caches, universe: nat, round: Round) {
    && Cached(caches, universe) && |round.types| == |caches|
    && Table(round.cap, |caches|) && Table(round.air, |caches|) && Loopless(round.cap)
    && UsefulLinks(caches, universe, round.cap, round.air)
    && Deliverable(|caches|, Plan(caches, universe, round), round.air, round.deliveries)
  }

  /** A link is listed only if it is useful, with at most its real capacity. */
  ghost predicate UsefulLink(caches: Caches, universe: nat, cap: Capacities, air: Capacities, s: nat, r: nat)
    requires Table(cap, |caches|) && Table(air, |caches|) && s < |caches| && r < |caches|
  {
    cap[s][r] > 0 ==> cap[s][r] <= air[s][r] && caches[s] * (All(universe) - caches[r]) != {}
  }

  ghost predicate UsefulLinks(caches: Caches, universe: nat, cap: Capacities, air: Capacities)
    requires Table(cap, |caches|) && Table(air, |caches|)
  {
    forall s, r :: 0 <= s < |caches| && 0 <= r < |caches| ==> UsefulLink(caches, universe, cap, air, s, r)
  }

  ghost function Plan(caches: Caches, universe: nat, round: Round): seq<Download>
    requires Table(round.cap, |caches|) && |round.types| == |caches|
  {
    Schedule(Uploads(caches, universe, round.types), round.cap)
  }

  ghost predicate Deliverable(n: nat, plan: seq<Download>, air: Capacities, deliveries: seq<Delivery>) {
    && Table(air, n)
    && forall k :: 0 <= k < |deliveries| ==>
         && deliveries[k].receiver < n && deliveries[k].download < |plan|
         && plan[deliveries[k].download].nodeId < n
  }

  /** The caches after the deliveries, taken in order. */
  ghost function Deliver(caches: Caches, plan: seq<Download>, air: Capacities,
                         deliveries: seq<Delivery>): (after: Caches)
    requires Deliverable(|caches|, plan, air, deliveries)
    ensures |after| == |caches|
  {
    if deliveries == [] then caches
    else
      var k := |deliveries| - 1;
      var before := Deliver(caches, plan, air, deliveries[..k]);
      var r, d := deliveries[k].receiver, plan[deliveries[k].download];
      before[r := Received(before[r], d.imti, air[d.nodeId][r])]
  }

  ghost function AfterRound(caches: Caches, universe: nat, round: Round): (after: Caches)
    requires WellFormed(caches, universe, round)
    ensures |after| == |caches|
  {
    Deliver(caches, Plan(caches, universe, round), round.air, round.deliveries)
  }

  // ---------------------------------------------------------------------------
  // What deliveries do to caches.

  lemma {:induction false} DeliverGrows(caches: Caches, plan: seq<Download>, air: Capacities, deliveries: seq<Delivery>,
                                        i: nat)
    requires Deliverable(|caches|, plan, air, deliveries) && i < |caches|
    ensures caches[i] <= Deliver(caches, plan, air, deliveries)[i]
  {
    if deliveries != [] {
      DeliverGrows(caches, plan, air, deliveries[..|deliveries| - 1], i);
    }
  }

  /** A receiver that hears a download within the capacity has all its items afterwards. */
  lemma {:induction false} DeliverAdds(caches: Caches, plan: seq<Download>, air: Capacities, deliveries: seq<Delivery>,
                                       k: nat)
    requires Deliverable(|caches|, plan, air, deliveries) && k < |deliveries|
    requires var d := plan[deliveries[k].download]; |d.imti| <= air[d.nodeId][deliveries[k].receiver]
    ensures plan[deliveries[k].download].imti <= Deliver(caches, plan, air, deliveries)[deliveries[k].receiver]
  {
    if k < |deliveries| - 1 {
      DeliverAdds(caches, plan, air, deliveries[..|deliveries| - 1], k);
    }
  }

  /** Items come from some cache or some download. */
  lemma {:induction false} DeliverOrigin(caches: Caches, plan: seq<Download>, air: Capacities,
                                         deliveries: seq<Delivery>, i: nat, x: nat)
    requires Deliverable(|caches|, plan, air, deliveries) && i < |caches|
    requires x in Deliver(caches, plan, air, deliveries)[i]
    ensures x in caches[i] || exists k :: 0 <= k < |plan| && x in plan[k].imti
  {
    if deliveries != [] {
      var k := |deliveries| - 1;
      if x in Deliver(caches, plan, air, deliveries[..k])[i] {
        DeliverOrigin(caches, plan, air, deliveries[..k], i, x);
      }
    }
  }

  // ---------------------------------------------------------------------------
  // The gain of one round.

  ghost function Sizes(caches: Caches): (l: seq<nat>)
    ensures |l| == |caches| && forall i :: 0 <= i < |l| ==> l[i] == |caches[i]|
  {
    seq(|caches|, i requires 0 <= i < |caches| => |caches[i]|)
  }

  /** How many items are cached in all. */
  ghost function Total(caches: Caches): real {
    Sum(Reals(Sizes(caches)), All(|caches|), |caches|)
  }

  /** New items per node. */
  ghost function News(before: Caches, after: Caches): (l: seq<nat>)
    requires |before| == |after|
    ensures |l| == |before| && forall i :: 0 <= i < |l| ==> l[i] == |after[i] - before[i]|
  {
    seq(|before|, i requires 0 <= i < |before| => |after[i] - before[i]|)
  }

  lemma {:induction false} TotalGrowth(before: Caches, after: Caches, s: set<nat>, n: nat)
    requires |before| == |after| && n <= |before|
    requires forall i :: 0 <= i < |before| ==> before[i] <= after[i]
    ensures Sum(Reals(Sizes(after)), s, n) == Sum(Reals(Sizes(before)), s, n) + Sum(Reals(News(before, after)), s, n)
  {
    if n > 0 {
      TotalGrowth(before, after, s, n - 1);
      assert after[n - 1] == before[n - 1] + (after[n - 1] - before[n - 1]);
    }
  }

  ghost function Receivers(tts: seq<TT>, chosen: set<nat>, n: nat): set<nat>
    requires n <= |tts|
  {
    if n == 0 then {}
    else Receivers(tts, chosen, n - 1) + if n - 1 in chosen then {tts[n - 1].receiver} else {}
  }

  lemma {:induction false} ReceiversExact(tts: seq<TT>, chosen: set<nat>, n: nat)
    requires n <= |tts|
    ensures forall r :: r in Receivers(tts, chosen, n) <==>
              exists i: nat :: i in chosen && i < n && tts[i].receiver == r
  {
    if n > 0 {
      ReceiversExact(tts, chosen, n - 1);
    }
  }

  /** Chosen TTs have different receivers, so their weights add up inside the news of the receivers. */
  lemma {:induction false} WeightsWithinNews(tts: seq<TT>, chosen: set<nat>, w: seq<nat>, news: seq<nat>, n: nat)
    requires n <= |tts| == |w|
    requires forall i, j ::
               i in chosen && j in chosen && i < |tts| && j < |tts| && tts[i].receiver == tts[j].receiver ==> i == j
    requires forall i :: i in chosen && i < |tts| ==> tts[i].receiver < |news| && w[i] <= news[tts[i].receiver]
    ensures Sum(Reals(w), chosen, n) <= Sum(Reals(news), Receivers(tts, chosen, n), |news|)
  {
    if n == 0 {
      SumOutside(Reals(news), {}, |news|);
    } else {
      WeightsWithinNews(tts, chosen, w, news, n - 1);
      if n - 1 in chosen {
        var r := tts[n - 1].receiver;
        ReceiversExact(tts, chosen, n - 1);
        SumSplit(Reals(news), Receivers(tts, chosen, n - 1), {r}, |news|);
        SumSingleton(Reals(news), r, |news|);
      } else {
        assert Receivers(tts, chosen, n) == Receivers(tts, chosen, n - 1);
      }
    }
  }

  lemma SumOfPart(w: seq<nat>, s: set<nat>, t: set<nat>)
    requires s <= t
    ensures Sum(Reals(w), s, |w|) <= Sum(Reals(w), t, |w|)
  {
    SumSplit(Reals(w), s, t - s, |w|);
    assert s + (t - s) == t;
    WeightNonNegative(w, t - s, |w|);
  }

  /** Every chosen receiver hears the download of its sender. */
  ghost predicate Heard(caches: Caches, universe: nat, round: Round)
    requires WellFormed(caches, universe, round)
  {
    var ups := Uploads(caches, universe, round.types);
    var tts := Candidates(ups, round.cap);
    var plan := Plan(caches, universe, round);
    forall i :: i in Picks(ups, round.cap) && i < |tts| ==>
      exists k :: 0 <= k < |round.deliveries| && round.deliveries[k].receiver == tts[i].receiver
               && plan[round.deliveries[k].download].nodeId == tts[i].sender
  }

  /** The chosen weight of a round. */
  ghost function RoundWeight(caches: Caches, universe: nat, round: Round): real
    requires WellFormed(caches, universe, round)
  {
    var ups := Uploads(caches, universe, round.types);
    var tts := Candidates(ups, round.cap);
    Weight(Weights(ups, tts), Picks(ups, round.cap))
  }

  /** The download heard for a chosen TT carries exactly the items of that TT. */
  lemma HeardItems(caches: Caches, universe: nat, round: Round, i: nat) returns (k: nat)
    requires WellFormed(caches, universe, round) && Heard(caches, universe, round)
    requires i in Picks(Uploads(caches, universe, round.types), round.cap) &&
              i < |Candidates(Uploads(caches, universe, round.types), round.cap)|
    ensures k < |round.deliveries|
    ensures var t := Candidates(Uploads(caches, universe, round.types), round.cap)[i];
            round.deliveries[k].receiver == t.receiver
            && Plan(caches, universe, round)[round.deliveries[k].download] == Download(t.sender, t.items)
  {
    hide Picks, Schedule, Candidates;
    var ups := Uploads(caches, universe, round.types);
    var t := Candidates(ups, round.cap)[i];
    k :| 0 <= k < |round.deliveries| && round.deliveries[k].receiver == t.receiver
      && Plan(caches, universe, round)[round.deliveries[k].download].nodeId == t.sender;
    ScheduleItems(ups, round.cap, i, round.deliveries[k].download);
  }

  /** The receiver of TT `i` caches at least as many new items as the TT weighs. */
  ghost predicate Brings(before: Caches, after: Caches, ups: seq<Upload>, tts: seq<TT>, i: nat)
    requires |before| == |after| == |ups| && i < |tts|
    requires forall k :: 0 <= k < |tts| ==> tts[k].receiver < |ups|
  {
    Weights(ups, tts)[i] <= News(before, after)[tts[i].receiver]
  }

  /** A chosen TT brings its receiver at least its weight in new items. */
  lemma ChosenGain(caches: Caches, universe: nat, round: Round, i: nat)
    requires WellFormed(caches, universe, round) && Heard(caches, universe, round)
    requires i in Picks(Uploads(caches, universe, round.types), round.cap) &&
              i < |Candidates(Uploads(caches, universe, round.types), round.cap)|
    ensures Brings(caches, AfterRound(caches, universe, round), Uploads(caches, universe, round.types),
                   Candidates(Uploads(caches, universe, round.types), round.cap), i)
  {
    hide Heard, Picks, Schedule, Candidates;
    var ups := Uploads(caches, universe, round.types);
    var t := Candidates(ups, round.cap)[i];
    assert Sound(ups, round.cap, t);
    assert UsefulLink(caches, universe, round.cap, round.air, t.sender, t.receiver);
    var k := HeardItems(caches, universe, round, i);
    DeliverAdds(caches, Plan(caches, universe, round), round.air, round.deliveries, k);
    var after := AfterRound(caches, universe, round);
    SubsetSize(t.items * ups[t.receiver].beta, after[t.receiver] - caches[t.receiver]);
  }

  /** One round caches at least as many new items as its chosen TTs weigh. */
  lemma RoundGain(caches: Caches, universe: nat, round: Round)
    requires WellFormed(caches, universe, round) && Heard(caches, universe, round)
    ensures Total(AfterRound(caches, universe, round)) >= Total(caches) + RoundWeight(caches, universe, round)
  {
    var ups := Uploads(caches, universe, round.types);
    var tts := Candidates(ups, round.cap);
    var chosen := Picks(ups, round.cap);
    var w := Weights(ups, tts);
    var after := AfterRound(caches, universe, round);
    var news := News(caches, after);
    ScheduleFeasible(ups, round.cap);
    forall i | i in chosen && i < |tts|
      ensures tts[i].receiver < |news| && w[i] <= news[tts[i].receiver]
    {
      ChosenGain(caches, universe, round, i);
    }
    WeightsWithinNews(tts, chosen, w, news, |tts|);
    ReceiversExact(tts, chosen, |tts|);
    SumOfPart(news, Receivers(tts, chosen, |tts|), All(|caches|));
    forall i | 0 <= i < |caches|
      ensures caches[i] <= after[i]
    {
      DeliverGrows(caches, Plan(caches, universe, round), round.air, round.deliveries, i);
    }
    TotalGrowth(caches, after, All(|caches|), |caches|);
  }

  // ---------------------------------------------------------------------------
  // Progress.

  ghost predicate Linked(cap: Capacities)
    requires Table(cap, |cap|)
  {
    exists s, r :: 0 <= s < |cap| && 0 <= r < |cap| && cap[s][r] > 0
  }

  /** TTs exist exactly when some link does. */
  lemma CandidatesIffLinked(caches: Caches, universe: nat, round: Round)
    requires WellFormed(caches, universe, round)
    ensures |Candidates(Uploads(caches, universe, round.types), round.cap)| > 0 <==> Linked(round.cap)
  {
    hide Deliverable, Plan, Undominated, All, Dominates, UsefulLink;
    var ups := Uploads(caches, universe, round.types);
    var tts := Candidates(ups, round.cap);
    if |tts| > 0 {
      assert Sound(ups, round.cap, tts[0]);
    } else if Linked(round.cap) {
      var s: nat, r: nat :| s < |caches| && r < |caches| && round.cap[s][r] > 0;
      LinkYieldsCandidate(caches, universe, round, s, r);
    }
  }

  lemma LinkYieldsCandidate(caches: Caches, universe: nat, round: Round, s: nat, r: nat)
    requires WellFormed(caches, universe, round) && s < |caches| && r < |caches| && round.cap[s][r] > 0
    ensures |Candidates(Uploads(caches, universe, round.types), round.cap)| > 0
  {
    hide Deliverable, Plan, Undominated, All, Dominates, AllTTs;
    var ups := Uploads(caches, universe, round.types);
    assert UsefulLink(caches, universe, round.cap, round.air, s, r);
    UploadsInRange(caches, universe, round.types);
    AllTTsCover(ups, round.cap, |ups|, s, r);
    var k := DeletedHasSurvivor(AllTTs(ups, round.cap, |ups|), 0);
  }

  lemma UploadsInRange(caches: Caches, universe: nat, types: seq<nat>)
    requires Cached(caches, universe) && |types| == |caches|
    ensures ItemsInRange(Uploads(caches, universe, types))
  {
  }

  /** The weight of a candidate fits in a byte and is positive. */
  lemma CandidateWeight(caches: Caches, universe: nat, round: Round, i: nat)
    requires WellFormed(caches, universe, round)
    requires i < |Candidates(Uploads(caches, universe, round.types), round.cap)|
    ensures var ups := Uploads(caches, universe, round.types);
            var t := Candidates(ups, round.cap)[i];
            Weights(ups, Candidates(ups, round.cap))[i] == |t.items * ups[t.receiver].beta| > 0
  {
    hide Deliverable, UsefulLinks, Plan, All;
    var ups := Uploads(caches, universe, round.types);
    var t := Candidates(ups, round.cap)[i];
    assert Sound(ups, round.cap, t);
    AllSize(universe);
    SubsetSize(t.items * ups[t.receiver].beta, All(universe));
  }

  lemma {:induction false} AllSize(n: nat)
    ensures |All(n)| == n
  {
    hide All;
    if n > 0 {
      AllSize(n - 1);
      assert All(n) == All(n - 1) + {n - 1};
    }
  }

  /** A round with any link at all chooses a positive weight. */
  lemma LinkedRoundProgress(caches: Caches, universe: nat, round: Round)
    requires WellFormed(caches, universe, round) && Linked(round.cap)
    ensures RoundWeight(caches, universe, round) >= 1.0
  {
    hide Chosen;
    var ups := Uploads(caches, universe, round.types);
    var tts := Candidates(ups, round.cap);
    CandidatesIffLinked(caches, universe, round);
    CandidateWeight(caches, universe, round, 0);
    ChosenPositive(Conflicts(round.cap, tts), Weights(ups, tts), All(|tts|), 0);
  }

  lemma RoundWeightNonNegative(caches: Caches, universe: nat, round: Round)
    requires WellFormed(caches, universe, round)
    ensures RoundWeight(caches, universe, round) >= 0.0
  {
    var ups := Uploads(caches, universe, round.types);
    var w := Weights(ups, Candidates(ups, round.cap));
    WeightNonNegative(w, Picks(ups, round.cap), |w|);
  }

  // ---------------------------------------------------------------------------
  // Every schedule can be heard.

  /** The chosen TTs below `n` are heard. */
  ghost predicate HeardBelow(tts: seq<TT>, chosen: set<nat>, plan: seq<Download>, deliveries: seq<Delivery>, n: nat)
    requires n <= |tts| && forall k :: 0 <= k < |deliveries| ==> deliveries[k].download < |plan|
  {
    forall i :: i in chosen && i < n ==>
      exists k :: 0 <= k < |deliveries| && deliveries[k].receiver == tts[i].receiver
               && plan[deliveries[k].download].nodeId == tts[i].sender
  }

  lemma {:induction false} DeliveriesExist(ups: seq<Upload>, cap: Capacities, air: Capacities, n: nat)
      returns (deliveries: seq<Delivery>)
    requires Table(cap, |ups|) && Table(air, |ups|) && n <= |Candidates(ups, cap)|
    ensures Deliverable(|ups|, Schedule(ups, cap), air, deliveries)
    ensures HeardBelow(Candidates(ups, cap), Picks(ups, cap), Schedule(ups, cap), deliveries, n)
  {
    hide Picks, Candidates, Downloads;
    deliveries := [];
    if n > 0 {
      var tts, plan := Candidates(ups, cap), Schedule(ups, cap);
      var before := DeliveriesExist(ups, cap, air, n - 1);
      deliveries := before;
      if n - 1 in Picks(ups, cap) {
        DownloadsCover(tts, Picks(ups, cap), |tts|, n - 1);
        var d: nat :| d < |plan| && plan[d].nodeId == tts[n - 1].sender;
        assert Sound(ups, cap, tts[n - 1]);
        deliveries := before + [Delivery(d, tts[n - 1].receiver)];
        assert deliveries[|before|] == Delivery(d, tts[n - 1].receiver);
        forall i | i in Picks(ups, cap) && i < n - 1
          ensures exists k :: 0 <= k < |deliveries| && deliveries[k].receiver == tts[i].receiver
                           && plan[deliveries[k].download].nodeId == tts[i].sender
        {
          var k :| 0 <= k < |before| && before[k].receiver == tts[i].receiver
                && plan[before[k].download].nodeId == tts[i].sender;
          assert deliveries[k] == before[k];
        }
      }
    }
  }

  /** Whatever the caches and links, there is a round in which every chosen receiver hears its sender. */
  lemma RoundExists(caches: Caches, universe: nat, types: seq<nat>, cap: Capacities, air: Capacities)
      returns (round: Round)
    requires Cached(caches, universe) && |types| == |caches| && Table(cap, |caches|) && Table(air, |caches|)
    requires Loopless(cap) && UsefulLinks(caches, universe, cap, air)
    ensures round.types == types && round.cap == cap && round.air == air
    ensures WellFormed(caches, universe, round) && Heard(caches, universe, round)
  {
    hide Picks, Candidates, Downloads, UsefulLinks, Schedule;
    var ups := Uploads(caches, universe, types);
    var deliveries := DeliveriesExist(ups, cap, air, |Candidates(ups, cap)|);
    round := Round(types, cap, air, deliveries);
  }

  /** A run: each round is scheduled from the caches the previous one left. */
  ghost predicate Run(caches: Caches, universe: nat, rounds: seq<Round>)
    decreases |rounds|
  {
    rounds != [] ==>
      && WellFormed(caches, universe, rounds[0]) && Heard(caches, universe, rounds[0])
      && Run(AfterRound(caches, universe, rounds[0]), universe, rounds[1..])
  }

  ghost function AfterRun(caches: Caches, universe: nat, rounds: seq<Round>): (after: Caches)
    requires Run(caches, universe, rounds)
    ensures |after| == |caches|
    decreases |rounds|
  {
    if rounds == [] then caches
    else AfterRun(AfterRound(caches, universe, rounds[0]), universe, rounds[1..])
  }

  /** How many rounds of a run had a link. */
  ghost function Productive(rounds: seq<Round>): nat
    requires forall k :: 0 <= k < |rounds| ==> Table(rounds[k].cap, |rounds[k].cap|)
  {
    if rounds == [] then 0 else (if Linked(rounds[0].cap) then 1 else 0) + Productive(rounds[1..])
  }

  lemma {:induction false} RunTables(caches: Caches, universe: nat, rounds: seq<Round>)
    requires Run(caches, universe, rounds)
    ensures forall k :: 0 <= k < |rounds| ==> Table(rounds[k].cap, |rounds[k].cap|)
    decreases |rounds|
  {
    if rounds != [] {
      RunTables(AfterRound(caches, universe, rounds[0]), universe, rounds[1..]);
      assert forall k :: 0 < k < |rounds| ==> rounds[k] == rounds[1..][k - 1];
    }
  }

  /** The items some node is still missing. */
  ghost function Lacks(caches: Caches, universe: nat): (l: seq<nat>)
    ensures |l| == |caches| && forall i :: 0 <= i < |l| ==> l[i] == |All(universe) - caches[i]|
  {
    seq(|caches|, i requires 0 <= i < |caches| => |All(universe) - caches[i]|)
  }

  ghost function TotalLack(caches: Caches, universe: nat): real {
    Sum(Reals(Lacks(caches, universe)), All(|caches|), |caches|)
  }

  /** Cached and missing items make up a constant total. */
  lemma {:induction false} LackComplement(a: Caches, b: Caches, universe: nat, s: set<nat>, n: nat)
    requires |a| == |b| && n <= |a| && Cached(a, universe) && Cached(b, universe)
    ensures Sum(Reals(Sizes(a)), s, n) + Sum(Reals(Lacks(a, universe)), s, n)
         == Sum(Reals(Sizes(b)), s, n) + Sum(Reals(Lacks(b, universe)), s, n)
  {
    if n > 0 {
      LackComplement(a, b, universe, s, n - 1);
      CacheComplement(a[n - 1], universe);
      CacheComplement(b[n - 1], universe);
    }
  }

  lemma CacheComplement(s: set<nat>, universe: nat)
    requires Below(s, universe)
    ensures |s| + |All(universe) - s| == universe
  {
    AllSize(universe);
    assert s + (All(universe) - s) == All(universe);
  }

  /** Every item a plan sends is cached by its sender. */
  lemma PlanFromCaches(caches: Caches, universe: nat, round: Round, k: nat, x: nat)
    requires WellFormed(caches, universe, round) && k < |Plan(caches, universe, round)|
    requires x in Plan(caches, universe, round)[k].imti
    ensures exists s :: 0 <= s < |caches| && x in caches[s]
  {
    hide Picks;
    var ups := Uploads(caches, universe, round.types);
    var tts := Candidates(ups, round.cap);
    var i := DownloadsFrom(tts, Picks(ups, round.cap), |tts|, k);
    assert Sound(ups, round.cap, tts[i]);
    assert x in caches[tts[i].sender];
  }

  /** A round invents no item. */
  lemma RoundOrigin(caches: Caches, universe: nat, round: Round, i: nat, x: nat)
    requires WellFormed(caches, universe, round) && i < |caches|
    requires x in AfterRound(caches, universe, round)[i]
    ensures exists s :: 0 <= s < |caches| && x in caches[s]
  {
    var plan := Plan(caches, universe, round);
    DeliverOrigin(caches, plan, round.air, round.deliveries, i, x);
    if x !in caches[i] {
      var k :| 0 <= k < |plan| && x in plan[k].imti;
      PlanFromCaches(caches, universe, round, k, x);
    }
  }

  lemma RoundCached(caches: Caches, universe: nat, round: Round)
    requires WellFormed(caches, universe, round)
    ensures Cached(AfterRound(caches, universe, round), universe)
  {
    hide Deliverable, UsefulLinks, Plan;
    var after := AfterRound(caches, universe, round);
    forall i, x | 0 <= i < |after| && x in after[i]
      ensures x < universe
    {
      RoundOrigin(caches, universe, round, i, x);
    }
  }

  /** Over any run, the rounds with a link number at most the items missing at the start. */
  lemma {:induction false} ProductiveRoundsBounded(caches: Caches, universe: nat, rounds: seq<Round>)
    requires Cached(caches, universe) && Run(caches, universe, rounds)
    requires forall k :: 0 <= k < |rounds| ==> Table(rounds[k].cap, |rounds[k].cap|)
    ensures Productive(rounds) as real <=
              TotalLack(caches, universe) - TotalLack(AfterRun(caches, universe, rounds), universe)
    ensures Productive(rounds) as real <= TotalLack(caches, universe)
    decreases |rounds|
  {
    hide RoundWeight, Heard, WellFormed;
    if rounds != [] {
      var next := AfterRound(caches, universe, rounds[0]);
      RoundCached(caches, universe, rounds[0]);
      ProductiveRoundsBounded(next, universe, rounds[1..]);
      RoundGain(caches, universe, rounds[0]);
      LackComplement(caches, next, universe, All(|caches|), |caches|);
      RoundWeightNonNegative(caches, universe, rounds[0]);
      if Linked(rounds[0].cap) {
        LinkedRoundProgress(caches, universe, rounds[0]);
      }
    } else {
      WeightNonNegative(Lacks(caches, universe), All(|caches|), |caches|);
    }
  }

  /** Every item cached at the end of a run was cached by some node at its start. */
  lemma {:induction false} RunOrigin(caches: Caches, universe: nat, rounds: seq<Round>, i: nat, x: nat)
    requires Run(caches, universe, rounds) && i < |caches|
    requires x in AfterRun(caches, universe, rounds)[i]
    ensures exists s :: 0 <= s < |caches| && x in caches[s]
    decreases |rounds|
  {
    if rounds == [] {
      assert x in caches[i];
    } else {
      var next := AfterRound(caches, universe, rounds[0]);
      RunOrigin(next, universe, rounds[1..], i, x);
      var s: nat :| s < |next| && x in next[s];
      RoundOrigin(caches, universe, rounds[0], s, x);
    }
  }
}
