/**
 Which links exist in a scheduling period and how many items each can carry.
 Distances are given as a table of reals; positions and square roots are not modelled.
 */
module Links {
  import opened Numbers
  import opened IndexSums

  /** The communication range and the largest number of items a link can carry. */
  datatype Radio = Radio(communicationRange: nat, maximumChannel: nat)

  /** The distance up to which a link loses at most `k` items of capacity. The first step divides integers. */
  ghost function Reach(radio: Radio, k: nat): real
    requires radio.maximumChannel > 0
  {
    if k == 0 then (radio.communicationRange / radio.maximumChannel) as real
    else Reach(radio, k - 1) + radio.communicationRange as real / radio.maximumChannel as real
  }

  lemma {:induction false} ReachGrows(radio: Radio, j: nat, k: nat)
    requires radio.maximumChannel > 0 && j <= k
    ensures Reach(radio, j) <= Reach(radio, k)
  {
    if j < k {
      ReachGrows(radio, j, k - 1);
      StepPositive(radio);
    }
  }

  lemma StepPositive(radio: Radio)
    requires radio.maximumChannel > 0
    ensures 0.0 <= radio.communicationRange as real / radio.maximumChannel as real
    ensures Times(radio.communicationRange as real / radio.maximumChannel as real, radio.maximumChannel)
         == radio.communicationRange as real
  {
  }

  lemma {:induction false} ReachProduct(radio: Radio, k: nat)
    requires radio.maximumChannel > 0
    ensures Times(radio.communicationRange as real / radio.maximumChannel as real, k) <= Reach(radio, k)
  {
    if k > 0 {
      ReachProduct(radio, k - 1);
      TimesNext(radio.communicationRange as real / radio.maximumChannel as real, k - 1);
    }
  }

  /** The reach of a level in closed form. */
  lemma {:induction false} ReachExact(radio: Radio, k: nat)
    requires radio.maximumChannel > 0
    ensures Reach(radio, k) == (radio.communicationRange / radio.maximumChannel) as real
                             + Times(radio.communicationRange as real / radio.maximumChannel as real, k)
  {
    if k > 0 {
      ReachExact(radio, k - 1);
      TimesNext(radio.communicationRange as real / radio.maximumChannel as real, k - 1);
    } else {
      NoSteps(radio.communicationRange as real / radio.maximumChannel as real);
    }
  }

  lemma NoSteps(x: real)
    ensures Times(x, 0) == 0.0
  {
  }

  /** After as many steps as there are levels, the whole range is covered. */
  lemma ReachCoversRange(radio: Radio)
    requires radio.maximumChannel > 0
    ensures radio.communicationRange as real <= Reach(radio, radio.maximumChannel)
  {
    hide Times, Reach;
    StepPositive(radio);
    ReachProduct(radio, radio.maximumChannel);
  }

  /** The capacity of a link on which at least `k` items are already lost. */
  ghost function CapacityFrom(radio: Radio, distance: real, k: nat): (c: nat)
    requires radio.maximumChannel > 0 && k <= radio.maximumChannel
    ensures c <= radio.maximumChannel - k
    decreases radio.maximumChannel - k
  {
    if k == radio.maximumChannel || distance <= Reach(radio, k) then radio.maximumChannel - k
    else CapacityFrom(radio, distance, k + 1)
  }

  /** The capacity of a link: none between two RSUs or out of range. */
  ghost function Capacity(radio: Radio, distance: real, senderType: nat, receiverType: nat): (c: nat)
    requires radio.maximumChannel > 0
    ensures c <= radio.maximumChannel
  {
    if senderType == 1 && receiverType == 1 then 0
    else if distance > radio.communicationRange as real then 0
    else CapacityFrom(radio, distance, 0)
  }

  lemma {:induction false} CapacityFromLevel(radio: Radio, distance: real, k: nat, c: nat)
    requires radio.maximumChannel > 0 && k <= radio.maximumChannel && 1 <= c <= radio.maximumChannel - k
    ensures CapacityFrom(radio, distance, k) >= c <==> distance <= Reach(radio, radio.maximumChannel - c)
    decreases radio.maximumChannel - k
  {
    hide Reach;
    if distance <= Reach(radio, k) {
      ReachGrows(radio, k, radio.maximumChannel - c);
    } else if c == radio.maximumChannel - k {
    } else {
      CapacityFromLevel(radio, distance, k + 1, c);
    }
  }

  /** A link carries `c` items exactly when it is not between RSUs and is no longer than the reach of that level. */
  lemma CapacityAtLeast(radio: Radio, distance: real, senderType: nat, receiverType: nat, c: nat)
    requires radio.maximumChannel > 0 && 1 <= c <= radio.maximumChannel
    ensures Capacity(radio, distance, senderType, receiverType) >= c <==>
            && !(senderType == 1 && receiverType == 1)
            && distance <= radio.communicationRange as real
            && distance <= (radio.communicationRange / radio.maximumChannel) as real
                         + Times(radio.communicationRange as real / radio.maximumChannel as real,
                             radio.maximumChannel - c)
  {
    hide Reach, Times;
    CapacityFromLevel(radio, distance, 0, c);
    ReachExact(radio, radio.maximumChannel - c);
  }

  /** Moving apart never raises the capacity. */
  lemma CapacityAntitone(radio: Radio, near: real, far: real, senderType: nat, receiverType: nat)
    requires radio.maximumChannel > 0 && near <= far
    ensures Capacity(radio, far, senderType, receiverType) <= Capacity(radio, near, senderType, receiverType)
  {
    var c := Capacity(radio, far, senderType, receiverType);
    if c > 0 {
      CapacityAtLeast(radio, far, senderType, receiverType, c);
      CapacityAtLeast(radio, near, senderType, receiverType, c);
    }
  }

  /** ChannelCapacity. The level counter never goes below zero, so the assertion in the loop holds. */
  method ChannelCapacity(radio: Radio, distance: real, senderType: nat, receiverType: nat) returns (c: nat)
    requires radio.maximumChannel > 0 && senderType <= 1 && receiverType <= 1
    ensures c == Capacity(radio, distance, senderType, receiverType)
  {
    if senderType == 1 && receiverType == 1 {
      return 0;
    }
    if distance > radio.communicationRange as real {
      return 0;
    }
    var i: nat := radio.maximumChannel;
    var beginDistance := (radio.communicationRange / radio.maximumChannel) as real;
    ReachCoversRange(radio);
    while beginDistance < distance
      invariant i <= radio.maximumChannel
      invariant beginDistance == Reach(radio, radio.maximumChannel - i)
      invariant CapacityFrom(radio, distance, radio.maximumChannel - i) == CapacityFrom(radio, distance, 0)
      decreases i
    {
      assert i > 0;
      i := i - 1;
      beginDistance := beginDistance + radio.communicationRange as real / radio.maximumChannel as real;
    }
    c := i;
  }

  // ---------------------------------------------------------------------------
  // Neighbour selection.

  /** The ranges of links with an RSU at one end and of all others, and how many neighbours to keep. */
  datatype Selection = Selection(rangeRsu: real, rangeObu: real, neighborNumber: nat)

  function RangeOf(cfg: Selection, a: nat, b: nat): real {
    if a + b == 1 then cfg.rangeRsu else cfg.rangeObu
  }

  ghost predicate InRange(cfg: Selection, types: seq<nat>, distance: seq<real>, sender: nat, j: nat)
    requires sender < |types| == |distance| && j < |types|
  {
    distance[j] < RangeOf(cfg, types[sender], types[j])
  }

  /** The start value of the minimum search is above every range. */
  predicate Bounded(cfg: Selection) {
    cfg.rangeRsu <= cfg.rangeRsu * 100000.0 && cfg.rangeObu <= cfg.rangeRsu * 100000.0
  }

  /**
   How far the search can get past node `b`: up to its range, or up to where it is if that
   is farther. The sender is such a node too.
   */
  function Barrier(cfg: Selection, types: seq<nat>, distance: seq<real>, sender: nat, b: nat): real
    requires sender < |types| == |distance| && b < |types|
  {
    var range := RangeOf(cfg, types[sender], types[b]);
    if distance[b] < range then range else distance[b]
  }

  /** The order of the search: nearer first, and the lower number first at equal distance. */
  predicate Nearer(x: real, i: nat, y: real, j: nat) {
    x < y || (x == y && i < j)
  }

  /** The search gets to `j`: its place comes before every barrier, its own range included. */
  ghost predicate Reached(cfg: Selection, types: seq<nat>, distance: seq<real>, sender: nat, j: nat)
    requires sender < |types| == |distance| && j < |types|
  {
    forall b: nat :: b < |types| ==> Nearer(distance[j], j, Barrier(cfg, types, distance, sender, b), b)
  }

  /** What the selection loop guarantees about the set it returns. */
  ghost predicate NearestSelected(cfg: Selection, types: seq<nat>, distance: seq<real>, sender: nat, selected: set<nat>)
    requires sender < |types| == |distance|
  {
    && |selected| <= cfg.neighborNumber
    // only other nodes in range
    && (forall i :: i in selected ==> i < |types| && i != sender && InRange(cfg, types, distance, sender, i))
    && (Bounded(cfg) ==>
          // only nodes the search gets to
          && (forall i :: i in selected ==> Reached(cfg, types, distance, sender, i))
          // nobody left out comes before somebody selected
          && (forall i, j: nat :: i in selected && j < |types| && j !in selected && j != sender ==>
                Nearer(distance[i], i, distance[j], j))
          // with room left, everybody the search gets to
          && (|selected| < cfg.neighborNumber ==>
                forall j: nat :: j < |types| && j != sender && Reached(cfg, types, distance, sender, j) ==>
                    j in selected))
  }

  /** A node the search gets to is in range. */
  lemma ReachedInRange(cfg: Selection, types: seq<nat>, distance: seq<real>, sender: nat, j: nat)
    requires sender < |types| == |distance| && j < |types| && Reached(cfg, types, distance, sender, j)
    ensures InRange(cfg, types, distance, sender, j)
  {
    assert Nearer(distance[j], j, Barrier(cfg, types, distance, sender, j), j);
  }

  /** The other nodes in range of the sender. */
  ghost function OthersInRange(cfg: Selection, types: seq<nat>, distance: seq<real>, sender: nat): (others: set<nat>)
    requires sender < |types| == |distance|
  {
    set j: nat | j < |types| && j != sender && InRange(cfg, types, distance, sender, j)
  }

  /** The other nodes the search gets to. */
  ghost function OthersReached(cfg: Selection, types: seq<nat>, distance: seq<real>, sender: nat): (others: set<nat>)
    requires sender < |types| == |distance|
  {
    set j: nat | j < |types| && j != sender && Reached(cfg, types, distance, sender, j)
  }

  lemma ProperPartIsSmaller(s: set<nat>, t: set<nat>)
    requires s <= t
    ensures |s| <= |t| && (|s| == |t| <==> s == t)
  {
    assert t == s + (t - s);
    if s != t {
      var x :| x in t - s;
      assert t - s == {x} + (t - s - {x});
    }
  }

  /**
   The selection is exactly as many of the nodes the search gets to as there is room for, and
   these come before all the others.
   */
  lemma SelectionExact(cfg: Selection, types: seq<nat>, distance: seq<real>, sender: nat, selected: set<nat>)
    requires sender < |types| == |distance| && Bounded(cfg)
    requires NearestSelected(cfg, types, distance, sender, selected)
    ensures var reached := OthersReached(cfg, types, distance, sender);
            && selected <= reached && |selected| == Min(cfg.neighborNumber, |reached|)
            && forall i, j: nat :: i in selected && j in reached - selected ==> Nearer(distance[i], i, distance[j], j)
  {
    hide Reached, InRange;
    ProperPartIsSmaller(selected, OthersReached(cfg, types, distance, sender));
  }

  /**
   All other nodes in range are selected if and only if there is room for them and each comes before
   every barrier.
   */
  lemma AllInRangeSelectedIff(cfg: Selection, types: seq<nat>, distance: seq<real>, sender: nat, selected: set<nat>)
    requires sender < |types| == |distance| && Bounded(cfg)
    requires NearestSelected(cfg, types, distance, sender, selected)
    ensures var others := OthersInRange(cfg, types, distance, sender);
            others <= selected <==>
              |others| <= cfg.neighborNumber && forall j :: j in others ==> Reached(cfg, types, distance, sender, j)
  {
    hide Reached, InRange;
    ProperPartIsSmaller(selected, OthersInRange(cfg, types, distance, sender));
  }

  /**
   A node out of range ends the search: node 1 is an RSU 15 away with a range of 10, so
   node 2 is never selected although it is in range at 20 and there is room for five.
   */
  lemma NodeOutOfRangeEndsSearch(selected: set<nat>)
    requires NearestSelected(Selection(10.0, 30.0, 5), [0, 1, 0], [0.0, 15.0, 20.0], 0, selected)
    ensures InRange(Selection(10.0, 30.0, 5), [0, 1, 0], [0.0, 15.0, 20.0], 0, 2)
    ensures selected == {}
  {
    var cfg, types, distance := Selection(10.0, 30.0, 5), [0, 1, 0], [0.0, 15.0, 20.0];
    assert Bounded(cfg);
    assert !Nearer(distance[1], 1, Barrier(cfg, types, distance, 0, 1), 1);
    assert !Nearer(distance[2], 2, Barrier(cfg, types, distance, 0, 1), 1);
    assert !Reached(cfg, types, distance, 0, 1) && !Reached(cfg, types, distance, 0, 2);
  }

  /** The sender's own entry is a barrier at the range between OBUs, so nothing beyond that range is selected. */
  lemma OwnEntryIsBarrier(cfg: Selection, types: seq<nat>, distance: seq<real>, sender: nat, selected: set<nat>, i: nat)
    requires sender < |types| == |distance| && Bounded(cfg) && distance[sender] <= cfg.rangeObu
    requires NearestSelected(cfg, types, distance, sender, selected) && i in selected
    ensures i < |distance| && distance[i] <= cfg.rangeObu
  {
    assert Reached(cfg, types, distance, sender, i);
    assert Barrier(cfg, types, distance, sender, sender) == cfg.rangeObu;
  }

  /** With equal ranges the selected nodes are the nearest ones in range, as many as there is room for. */
  lemma EqualRangesExact(cfg: Selection, types: seq<nat>, distance: seq<real>, sender: nat, selected: set<nat>)
    requires sender < |types| == |distance| && cfg.rangeRsu == cfg.rangeObu && 0.0 <= cfg.rangeRsu
    requires NearestSelected(cfg, types, distance, sender, selected)
    ensures var others := OthersInRange(cfg, types, distance, sender);
            && selected <= others && |selected| == Min(cfg.neighborNumber, |others|)
            && forall i, j: nat :: i in selected && j in others - selected ==> Nearer(distance[i], i, distance[j], j)
  {
    assert Bounded(cfg);
    forall j: nat | j < |types|
      ensures InRange(cfg, types, distance, sender, j) <==> Reached(cfg, types, distance, sender, j)
    {
      if Reached(cfg, types, distance, sender, j) {
        ReachedInRange(cfg, types, distance, sender, j);
      }
    }
    assert OthersInRange(cfg, types, distance, sender) == OthersReached(cfg, types, distance, sender);
    SelectionExact(cfg, types, distance, sender, selected);
  }

  /** The first index of the smallest entry; 0 when no entry is below the start value. */
  method Nearest(cfg: Selection, current: seq<real>) returns (m: nat)
    requires |current| > 0
    ensures m < |current|
    ensures Minimal(cfg, current, m)
  {
    m := 0;
    var minDistance := cfg.rangeRsu * 100000.0;
    for index := 0 to |current|
      invariant m < |current|
      invariant forall j :: 0 <= j < index ==> minDistance <= current[j]
      invariant minDistance == cfg.rangeRsu * 100000.0 || (m < index && minDistance == current[m])
      invariant minDistance < cfg.rangeRsu * 100000.0 ==>
                  forall j: nat :: j < index && j != m ==> Nearer(current[m], m, current[j], j)
      invariant minDistance <= cfg.rangeRsu * 100000.0
    {
      if current[index] < minDistance {
        m := index;
        minDistance := current[index];
      }
    }
  }

  /** The entries of nodes already looked at are overwritten with their range. */
  ghost predicate Overwritten(cfg: Selection, types: seq<nat>, distance: seq<real>, sender: nat, current: seq<real>,
                              visited: set<nat>)
    requires sender < |types| == |distance|
  {
    && |current| == |types|
    && (forall i :: i in visited ==> i < |types|)
    && forall i :: 0 <= i < |types| ==>
         if i in visited then current[i] == RangeOf(cfg, types[sender], types[i]) && distance[i] < current[i]
         else current[i] == distance[i]
  }

  /** The nodes looked at come before the others and before every barrier. */
  ghost predicate Closest(cfg: Selection, types: seq<nat>, distance: seq<real>, sender: nat, visited: set<nat>)
    requires sender < |types| == |distance|
  {
    forall i :: i in visited && i < |distance| ==>
      && (forall j: nat :: j < |distance| && j !in visited ==> Nearer(distance[i], i, distance[j], j))
      && Reached(cfg, types, distance, sender, i)
  }

  /** `m` is where the minimum search ends. */
  ghost predicate Minimal(cfg: Selection, current: seq<real>, m: nat)
    requires m < |current|
  {
    || (forall j: nat :: j < |current| && j != m ==> Nearer(current[m], m, current[j], j))
    || (forall j :: 0 <= j < |current| ==> cfg.rangeRsu * 100000.0 <= current[j])
  }

  /** One pass either looks at a new node, the next in order, or shows that the search gets to no other. */
  lemma StepClosest(cfg: Selection, types: seq<nat>, distance: seq<real>, sender: nat, current: seq<real>,
                    visited: set<nat>, m: nat)
    requires sender < |types| == |distance| && m < |types|
    requires Overwritten(cfg, types, distance, sender, current, visited) && Minimal(cfg, current, m)
    ensures current[m] < RangeOf(cfg, types[sender], types[m]) ==>
              m !in visited && Overwritten(cfg, types, distance, sender,
                  current[m := RangeOf(cfg, types[sender], types[m])], visited + {m})
    ensures Bounded(cfg) && Closest(cfg, types, distance, sender, visited) &&
              current[m] < RangeOf(cfg, types[sender], types[m]) ==>
              Closest(cfg, types, distance, sender, visited + {m})
    ensures current[m] >= RangeOf(cfg, types[sender], types[m]) ==> Exhausted(cfg, types, distance, sender, visited)
  {
    if Bounded(cfg) {
      if current[m] < RangeOf(cfg, types[sender], types[m]) {
        LookedAtIsClosest(cfg, types, distance, sender, current, visited, m);
      } else {
        StoppedIsExhausted(cfg, types, distance, sender, current, visited, m);
      }
    }
  }

  lemma LookedAtIsClosest(cfg: Selection, types: seq<nat>, distance: seq<real>, sender: nat, current: seq<real>,
                          visited: set<nat>, m: nat)
    requires sender < |types| == |distance| && m < |types| && Bounded(cfg)
    requires Overwritten(cfg, types, distance, sender, current, visited) && Minimal(cfg, current, m)
    requires current[m] < RangeOf(cfg, types[sender], types[m])
    ensures Reached(cfg, types, distance, sender, m)
    ensures forall j: nat :: j < |types| && j !in visited && j != m ==> Nearer(distance[m], m, distance[j], j)
  {
    forall b: nat | b < |types|
      ensures Nearer(distance[m], m, Barrier(cfg, types, distance, sender, b), b)
      ensures b !in visited && b != m ==> Nearer(distance[m], m, distance[b], b)
    {
      assert b != m ==> Nearer(current[m], m, current[b], b);
    }
  }

  lemma StoppedIsExhausted(cfg: Selection, types: seq<nat>, distance: seq<real>, sender: nat, current: seq<real>,
                           visited: set<nat>, m: nat)
    requires sender < |types| == |distance| && m < |types| && Bounded(cfg)
    requires Overwritten(cfg, types, distance, sender, current, visited) && Minimal(cfg, current, m)
    requires current[m] >= RangeOf(cfg, types[sender], types[m])
    ensures Exhausted(cfg, types, distance, sender, visited)
  {
    forall j: nat | j < |types| && j !in visited
      ensures !Reached(cfg, types, distance, sender, j)
    {
      if j != m && Nearer(current[m], m, current[j], j) {
        assert !Nearer(distance[j], j, Barrier(cfg, types, distance, sender, m), m);
      } else {
        assert !Nearer(distance[j], j, Barrier(cfg, types, distance, sender, j), j);
      }
    }
  }

  ghost predicate Exhausted(cfg: Selection, types: seq<nat>, distance: seq<real>, sender: nat, visited: set<nat>)
    requires sender < |types| == |distance|
  {
    Bounded(cfg) ==> forall j: nat :: j < |types| && j !in visited ==> !Reached(cfg, types, distance, sender, j)
  }

  lemma SelectionDone(cfg: Selection, types: seq<nat>, distance: seq<real>, sender: nat, current: seq<real>,
                      visited: set<nat>, selected: set<nat>)
    requires sender < |types| == |distance| && selected == visited - {sender} && |selected| <= cfg.neighborNumber
    requires Overwritten(cfg, types, distance, sender, current, visited)
    requires Bounded(cfg) ==> Closest(cfg, types, distance, sender, visited)
    requires |selected| < cfg.neighborNumber ==> Exhausted(cfg, types, distance, sender, visited)
    ensures NearestSelected(cfg, types, distance, sender, selected)
  {
  }

  /** The selection loop of GetChannelInfor for one sender. */
  method SelectNeighbours(cfg: Selection, types: seq<nat>, distance: seq<real>, sender: nat)
      returns (selected: set<nat>)
    requires sender < |types| == |distance|
    requires forall i :: 0 <= i < |types| ==> types[i] <= 1
    ensures NearestSelected(cfg, types, distance, sender, selected)
  {
    hide All, RangeOf, Closest, Exhausted, Bounded, Overwritten, NearestSelected;
    var current := distance;
    selected := {};
    ghost var visited: set<nat> := {};
    ghost var rest := All(|types|);
    SelectionStart(cfg, types, distance, sender);
    while |selected| < cfg.neighborNumber
      invariant |current| == |types| && Overwritten(cfg, types, distance, sender, current, visited)
      invariant selected == visited - {sender} && |selected| <= cfg.neighborNumber
      invariant forall i: nat :: i in rest <==> i < |types| && i !in visited
      invariant Bounded(cfg) ==> Closest(cfg, types, distance, sender, visited)
      decreases rest
    {
      var m := Nearest(cfg, current);
      var actual := RangeOf(cfg, types[sender], types[m]);
      StepClosest(cfg, types, distance, sender, current, visited, m);
      if current[m] < actual {
        if m != sender {
          selected := selected + {m};
        }
      } else {
        assert Exhausted(cfg, types, distance, sender, visited);
        break;
      }
      current := current[m := actual];
      visited := visited + {m};
      rest := rest - {m};
    }
    SelectionDone(cfg, types, distance, sender, current, visited, selected);
  }

  lemma SelectionStart(cfg: Selection, types: seq<nat>, distance: seq<real>, sender: nat)
    requires sender < |types| == |distance|
    ensures Closest(cfg, types, distance, sender, {}) && Overwritten(cfg, types, distance, sender, distance, {})
  {
  }
}
