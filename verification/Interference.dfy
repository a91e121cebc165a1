/**
 Received power over time. Overlapping events are stored as a sorted list of power changes
 after a base power; while no packet is being received, old changes are folded into the base.
 Times are integers and powers are exact reals.
 */
module Interference {

  /** A signal on the air: present from `start` up to but not including `end`. */
  datatype Event = Event(start: int, end: int, power: real)

  datatype NiChange = NiChange(time: int, delta: real)

  datatype Record = Record(changes: seq<NiChange>, firstPower: real, rxing: bool)

  ghost predicate Sorted(l: seq<NiChange>) {
    forall i, j :: 0 <= i < j < |l| ==> l[i].time <= l[j].time
  }

  /** The first position whose time is after `moment`. */
  function GetPosition(l: seq<NiChange>, moment: int): (pos: nat)
    ensures pos <= |l|
    ensures forall i :: 0 <= i < pos ==> l[i].time <= moment
    ensures pos < |l| ==> moment < l[pos].time
  {
    if l == [] || moment < l[0].time then 0 else 1 + GetPosition(l[1..], moment)
  }

  function Insert(l: seq<NiChange>, c: NiChange): seq<NiChange> {
    var pos := GetPosition(l, c.time);
    l[..pos] + [c] + l[pos..]
  }

  /** The changes up to and including time `t`, added up. */
  ghost function SumUpTo(l: seq<NiChange>, t: int): real {
    if l == [] then 0.0
    else SumUpTo(l[..|l| - 1], t) + if l[|l| - 1].time <= t then l[|l| - 1].delta else 0.0
  }

  ghost function SumAll(l: seq<NiChange>): real {
    if l == [] then 0.0 else SumAll(l[..|l| - 1]) + l[|l| - 1].delta
  }

  /** The received power that the record gives for time `t`. */
  ghost function PowerAt(r: Record, t: int): real {
    r.firstPower + SumUpTo(r.changes, t)
  }

  /** AppendEvent, for an event that starts now. */
  ghost function Append(r: Record, e: Event): Record {
    var up, down := NiChange(e.start, e.power), NiChange(e.end, -e.power);
    if r.rxing then r.(changes := Insert(Insert(r.changes, up), down))
    else
      var pos := GetPosition(r.changes, e.start);
      r.(firstPower := r.firstPower + SumAll(r.changes[..pos]), changes := Insert([up] + r.changes[pos..], down))
  }

  const EMPTY: Record := Record([], 0.0, false)

  // ---------------------------------------------------------------------------
  // Sums over lists.

  lemma {:induction false} SumConcat(a: seq<NiChange>, b: seq<NiChange>, t: int)
    ensures SumUpTo(a + b, t) == SumUpTo(a, t) + SumUpTo(b, t)
    ensures SumAll(a + b) == SumAll(a) + SumAll(b)
  {
    if b == [] {
      assert a + b == a;
    } else {
      var k := |b| - 1;
      SumConcat(a, b[..k], t);
      assert (a + b)[..|a + b| - 1] == a + b[..k];
    }
  }

  lemma SumOne(c: NiChange, t: int)
    ensures SumUpTo([c], t) == if c.time <= t then c.delta else 0.0
    ensures SumAll([c]) == c.delta
  {
    assert [c][..0] == [];
  }

  lemma SumAllNone()
    ensures SumAll([]) == 0.0
  {
  }

  lemma SumAllStep(l: seq<NiChange>, i: nat)
    requires i < |l|
    ensures SumAll(l[..i + 1]) == SumAll(l[..i]) + l[i].delta
  {
    assert l[..i + 1][..i] == l[..i];
  }

  lemma InsertSums(l: seq<NiChange>, c: NiChange, t: int)
    ensures SumUpTo(Insert(l, c), t) == SumUpTo(l, t) + if c.time <= t then c.delta else 0.0
    ensures SumAll(Insert(l, c)) == SumAll(l) + c.delta
  {
    var pos := GetPosition(l, c.time);
    SumConcat(l[..pos], l[pos..], t);
    assert l[..pos] + l[pos..] == l;
    SumConcat(l[..pos] + [c], l[pos..], t);
    SumConcat(l[..pos], [c], t);
    SumOne(c, t);
  }

  lemma InsertSorted(l: seq<NiChange>, c: NiChange)
    requires Sorted(l)
    ensures Sorted(Insert(l, c))
  {
  }

  /** A list whose changes all come by time `t` sums completely. */
  lemma {:induction false} SumComplete(l: seq<NiChange>, t: int)
    requires forall i :: 0 <= i < |l| ==> l[i].time <= t
    ensures SumUpTo(l, t) == SumAll(l)
  {
    if l != [] {
      SumComplete(l[..|l| - 1], t);
    }
  }

  lemma {:induction false} SumNothing(l: seq<NiChange>, t: int)
    requires forall i :: 0 <= i < |l| ==> t < l[i].time
    ensures SumUpTo(l, t) == 0.0
  {
    if l != [] {
      SumNothing(l[..|l| - 1], t);
    }
  }

  // ---------------------------------------------------------------------------
  // The record against the events themselves.

  ghost function Contribution(e: Event, t: int): real {
    if e.start <= t < e.end then e.power else 0.0
  }

  /** The total power of the events present at time `t`. */
  ghost function Present(events: seq<Event>, t: int): real {
    if events == [] then 0.0 else Present(events[..|events| - 1], t) + Contribution(events[|events| - 1], t)
  }

  lemma {:induction false} PresentConcat(a: seq<Event>, b: seq<Event>, t: int)
    ensures Present(a + b, t) == Present(a, t) + Present(b, t)
  {
    if b == [] {
      assert a + b == a;
    } else {
      PresentConcat(a, b[..|b| - 1], t);
      assert (a + b)[..|a + b| - 1] == a + b[..|b| - 1];
    }
  }

  /** From `since` on, the record gives the power of the events; all changes cancel in the end. */
  ghost predicate Represents(r: Record, events: seq<Event>, since: int) {
    && Sorted(r.changes)
    && r.firstPower + SumAll(r.changes) == 0.0
    && forall t :: since <= t ==> PowerAt(r, t) == Present(events, t)
  }

  lemma EmptyRepresents(since: int)
    ensures Represents(EMPTY, [], since)
  {
  }

  /** Folding old changes into the base power is invisible from the present on. */
  lemma CompactionInvisible(r: Record, now: int, t: int)
    requires Sorted(r.changes) && now <= t
    ensures var pos := GetPosition(r.changes, now);
            PowerAt(r.(firstPower := r.firstPower + SumAll(r.changes[..pos]), changes := r.changes[pos..]), t) ==
                PowerAt(r, t)
  {
    hide SumUpTo, SumAll, Sorted;
    var pos := GetPosition(r.changes, now);
    SumConcat(r.changes[..pos], r.changes[pos..], t);
    assert r.changes[..pos] + r.changes[pos..] == r.changes;
    SumComplete(r.changes[..pos], t);
  }

  lemma AppendPower(r: Record, e: Event, t: int)
    requires Sorted(r.changes) && e.start <= e.end && (!r.rxing ==> e.start <= t)
    ensures PowerAt(Append(r, e), t) == PowerAt(r, t) + Contribution(e, t)
  {
    hide SumUpTo, SumAll, Insert, Sorted;
    var up, down := NiChange(e.start, e.power), NiChange(e.end, -e.power);
    if r.rxing {
      InsertSums(r.changes, up, t);
      InsertSums(Insert(r.changes, up), down, t);
    } else {
      var rest := r.changes[GetPosition(r.changes, e.start)..];
      CompactionInvisible(r, e.start, t);
      SumConcat([up], rest, t);
      SumOne(up, t);
      InsertSums([up] + rest, down, t);
    }
  }

  lemma AppendCancels(r: Record, e: Event)
    requires Sorted(r.changes) && r.firstPower + SumAll(r.changes) == 0.0
    ensures Sorted(Append(r, e).changes)
    ensures Append(r, e).firstPower + SumAll(Append(r, e).changes) == 0.0
  {
    hide SumUpTo, SumAll, Insert;
    var up, down := NiChange(e.start, e.power), NiChange(e.end, -e.power);
    if r.rxing {
      InsertSums(r.changes, up, 0);
      InsertSums(Insert(r.changes, up), down, 0);
      InsertSorted(r.changes, up);
      InsertSorted(Insert(r.changes, up), down);
    } else {
      var pos := GetPosition(r.changes, e.start);
      var rest := r.changes[pos..];
      SumConcat(r.changes[..pos], rest, 0);
      assert r.changes[..pos] + rest == r.changes;
      SumConcat([up], rest, 0);
      SumOne(up, 0);
      InsertSums([up] + rest, down, 0);
      assert Sorted([up] + rest);
      InsertSorted([up] + rest, down);
    }
  }

  /** Each appended event is accounted for; only a compaction moves the horizon, to the present. */
  lemma AppendRepresents(r: Record, events: seq<Event>, since: int, e: Event)
    requires Represents(r, events, since) && since <= e.start <= e.end
    ensures Represents(Append(r, e), events + [e], if r.rxing then since else e.start)
  {
    hide Append, PowerAt, Present, Contribution, SumAll;
    AppendCancels(r, e);
    var since' := if r.rxing then since else e.start;
    forall t | since' <= t
      ensures PowerAt(Append(r, e), t) == Present(events + [e], t)
    {
      AppendPower(r, e, t);
      PresentAppend(events, e, t);
    }
  }

  lemma PresentAppend(events: seq<Event>, e: Event, t: int)
    ensures Present(events + [e], t) == Present(events, t) + Contribution(e, t)
  {
    assert (events + [e])[..|events|] == events;
  }

  // ---------------------------------------------------------------------------
  // Runs.

  datatype Step = Arrival(e: Event) | RxStart | RxEnd | Erase

  ghost function Apply(r: Record, s: Step): Record {
    match s
    case Arrival(e) => Append(r, e)
    case RxStart => r.(rxing := true)
    case RxEnd => r.(rxing := false)
    case Erase => EMPTY
  }

  ghost function Run(r: Record, steps: seq<Step>): Record {
    if steps == [] then r else Apply(Run(r, steps[..|steps| - 1]), steps[|steps| - 1])
  }

  /** The events that arrived since the last erasure. */
  ghost function Arrived(steps: seq<Step>): seq<Event> {
    if steps == [] then []
    else
      var before := Arrived(steps[..|steps| - 1]);
      match steps[|steps| - 1]
      case Arrival(e) => before + [e]
      case Erase => []
      case _ => before
  }

  /** Time does not go back: `now` is the latest start so far. */
  ghost predicate Chronological(steps: seq<Step>, now: int) {
    steps != [] ==>
      match steps[|steps| - 1]
      case Arrival(e) => e.start <= e.end && e.start <= now && Chronological(steps[..|steps| - 1], e.start)
      case _ => Chronological(steps[..|steps| - 1], now)
  }

  /** The last time at which a compaction happened, or the start of the run. */
  ghost function Horizon(r: Record, steps: seq<Step>, start: int): int {
    if steps == [] then start
    else
      var before := steps[..|steps| - 1];
      match steps[|steps| - 1]
      case Arrival(e) => if Run(r, before).rxing then Horizon(r, before, start) else e.start
      case _ => Horizon(r, before, start)
  }

  /** Over any run, the list stays sorted and gives the true power from the last compaction on. */
  lemma {:induction false} RunRepresents(steps: seq<Step>, start: int, now: int)
    requires Chronological(steps, now) && start <= now
    requires forall i :: 0 <= i < |steps| && steps[i].Arrival? ==> start <= steps[i].e.start
    ensures Horizon(EMPTY, steps, start) <= now
    ensures Represents(Run(EMPTY, steps), Arrived(steps), Horizon(EMPTY, steps, start))
  {
    hide Append, Represents;
    if steps == [] {
      EmptyRepresents(start);
    } else {
      var k := |steps| - 1;
      var r := Run(EMPTY, steps[..k]);
      match steps[k]
      case Arrival(e) =>
        RunRepresents(steps[..k], start, e.start);
        AppendRepresents(r, Arrived(steps[..k]), Horizon(EMPTY, steps[..k], start), e);
      case Erase =>
        RunRepresents(steps[..k], start, now);
        EmptyRepresents(Horizon(EMPTY, steps, start));
      case RxStart =>
        RunRepresents(steps[..k], start, now);
        SwitchRepresents(r, Arrived(steps[..k]), Horizon(EMPTY, steps[..k], start), true);
      case RxEnd =>
        RunRepresents(steps[..k], start, now);
        SwitchRepresents(r, Arrived(steps[..k]), Horizon(EMPTY, steps[..k], start), false);
    }
  }

  lemma SwitchRepresents(r: Record, events: seq<Event>, since: int, rxing: bool)
    requires Represents(r, events, since)
    ensures Represents(r.(rxing := rxing), events, since)
  {
    assert forall t :: PowerAt(r.(rxing := rxing), t) == PowerAt(r, t);
  }

  // ---------------------------------------------------------------------------
  // The noise during a reception.

  /** The position of the end change of `e`, or the length of the list. */
  function EndPosition(l: seq<NiChange>, e: Event, from: nat): (k: nat)
    requires from <= |l|
    ensures from <= k <= |l|
    ensures k < |l| ==> l[k].time == e.end && e.power == -l[k].delta
    ensures forall i :: from <= i < k ==> !(l[i].time == e.end && e.power == -l[i].delta)
    decreases |l| - from
  {
    if from == |l| || (l[from].time == e.end && e.power == -l[from].delta) then from else EndPosition(l, e, from + 1)
  }

  /** The list handed to the packet error rate: the base noise, the other changes, and the end. */
  ghost function NoiseList(r: Record, e: Event): seq<NiChange>
    requires r.changes != []
  {
    [NiChange(e.start, r.firstPower)] + r.changes[1..EndPosition(r.changes, e, 1)] + [NiChange(e.end, 0.0)]
  }

  /** `e` opened the reception in progress: its start is the first change, and its end is recorded. */
  ghost predicate Opened(r: Record, e: Event) {
    && r.rxing && r.changes != [] && Sorted(r.changes)
    && r.changes[0] == NiChange(e.start, e.power)
    && exists k :: 1 <= k < |r.changes| && r.changes[k] == NiChange(e.end, -e.power)
  }

  lemma InsertPositions(l: seq<NiChange>, c: NiChange)
    ensures var pos := GetPosition(l, c.time);
            && |Insert(l, c)| == |l| + 1 && Insert(l, c)[pos] == c
            && (forall i :: 0 <= i < pos ==> Insert(l, c)[i] == l[i])
            && (forall i :: pos <= i < |l| ==> Insert(l, c)[i + 1] == l[i])
  {
    hide GetPosition;
    var pos := GetPosition(l, c.time);
    forall i | pos <= i < |l|
      ensures Insert(l, c)[i + 1] == l[i]
    {
      assert l[pos..][i - pos] == l[i];
    }
  }

  lemma OpeningOpens(r: Record, e: Event)
    requires Sorted(r.changes) && !r.rxing && e.start <= e.end
    ensures Opened(Append(r, e).(rxing := true), e)
  {
    hide Insert;
    var up, down := NiChange(e.start, e.power), NiChange(e.end, -e.power);
    var l := [up] + r.changes[GetPosition(r.changes, e.start)..];
    assert Sorted(l);
    InsertSorted(l, down);
    InsertPositions(l, down);
    assert GetPosition(l, e.end) > 0;
  }

  lemma InsertKeepsOpened(r: Record, e: Event, c: NiChange)
    requires Opened(r, e) && e.start <= c.time
    ensures Opened(r.(changes := Insert(r.changes, c)), e)
  {
    hide Insert;
    var pos := GetPosition(r.changes, c.time);
    var l := Insert(r.changes, c);
    InsertSorted(r.changes, c);
    InsertPositions(r.changes, c);
    assert pos > 0;
    var k :| 1 <= k < |r.changes| && r.changes[k] == NiChange(e.end, -e.power);
    assert l[if k < pos then k else k + 1] == NiChange(e.end, -e.power);
  }

  lemma AppendKeepsOpened(r: Record, e: Event, other: Event)
    requires Opened(r, e) && e.start <= other.start <= other.end
    ensures Opened(Append(r, other), e)
  {
    hide Insert;
    var up, down := NiChange(other.start, other.power), NiChange(other.end, -other.power);
    InsertKeepsOpened(r, e, up);
    InsertKeepsOpened(r.(changes := Insert(r.changes, up)), e, down);
  }

  /** Up to the end of the packet, the list gives the recorded power less that of the packet. */
  lemma NoiseIsPowerLessSignal(r: Record, e: Event, t: int)
    requires Opened(r, e) && e.start <= t < e.end
    ensures SumUpTo(NoiseList(r, e), t) == PowerAt(r, t) - e.power
  {
    hide SumUpTo, SumAll, NoiseList;
    var k := EndPosition(r.changes, e, 1);
    NoiseListSum(r, e, t);
    SumParts(r.changes, k, t);
    SumOne(r.changes[0], t);
    SumNothing(r.changes[k..], t);
  }

  lemma NoiseListSum(r: Record, e: Event, t: int)
    requires r.changes != [] && e.start <= t < e.end
    ensures SumUpTo(NoiseList(r, e), t) == r.firstPower + SumUpTo(r.changes[1..EndPosition(r.changes, e, 1)], t)
  {
    hide SumUpTo, SumAll;
    var middle := r.changes[1..EndPosition(r.changes, e, 1)];
    var first, last := NiChange(e.start, r.firstPower), NiChange(e.end, 0.0);
    SumConcat([first] + middle, [last], t);
    SumConcat([first], middle, t);
    SumOne(first, t);
    SumOne(last, t);
  }

  lemma SumParts(l: seq<NiChange>, k: nat, t: int)
    requires 1 <= k <= |l|
    ensures SumUpTo(l, t) == SumUpTo([l[0]], t) + SumUpTo(l[1..k], t) + SumUpTo(l[k..], t)
  {
    hide SumUpTo, SumAll;
    SumConcat([l[0]], l[1..], t);
    SumConcat(l[1..k], l[k..], t);
    assert [l[0]] + l[1..] == l && l[1..k] + l[k..] == l[1..];
  }

  ghost function ReceiveAll(r: Record, events: seq<Event>): Record {
    if events == [] then r else Append(ReceiveAll(r, events[..|events| - 1]), events[|events| - 1])
  }

  /** Later arrivals, in order, none before `from`. */
  ghost predicate Later(events: seq<Event>, from: int) {
    forall i :: 0 <= i < |events| ==> from <= events[i].start <= events[i].end
  }

  lemma {:induction false} ReceptionRepresents(r: Record, before: seq<Event>, e: Event, since: int, others: seq<Event>)
    requires Represents(r, before, since) && Opened(r, e) && since <= e.start && Later(others, e.start)
    ensures Represents(ReceiveAll(r, others), before + others, since) && Opened(ReceiveAll(r, others), e)
  {
    hide Append, Represents, Opened;
    if others == [] {
      assert before + others == before;
    } else {
      var k := |others| - 1;
      ReceptionRepresents(r, before, e, since, others[..k]);
      var rk := ReceiveAll(r, others[..k]);
      StillReceiving(rk, e);
      AppendRepresents(rk, before + others[..k], since, others[k]);
      AppendKeepsOpened(rk, e, others[k]);
      assert before + others[..k] + [others[k]] == before + others;
    }
  }

  lemma StillReceiving(r: Record, e: Event)
    requires Opened(r, e)
    ensures r.rxing
  {
  }

  /**
   For the packet that opened a reception, the list handed to the packet error rate gives,
   at every instant of the packet, exactly the power of all other events.
   */
  lemma NoiseIsOtherPower(r: Record, before: seq<Event>, since: int, e: Event, others: seq<Event>, t: int)
    requires Represents(r, before, since) && !r.rxing && since <= e.start <= t < e.end && Later(others, e.start)
    ensures var end := ReceiveAll(Append(r, e).(rxing := true), others);
            Opened(end, e) && SumUpTo(NoiseList(end, e), t) == Present(before, t) + Present(others, t)
  {
    hide Append, NoiseList;
    AppendRepresents(r, before, since, e);
    SwitchRepresents(Append(r, e), before + [e], e.start, true);
    OpeningOpens(r, e);
    var opening := Append(r, e).(rxing := true);
    ReceptionRepresents(opening, before + [e], e, e.start, others);
    var end := ReceiveAll(opening, others);
    NoiseIsPowerLessSignal(end, e, t);
    PresentConcat(before + [e], others, t);
    assert (before + [e])[..|before|] == before;
  }

  /** The noise list runs in order from the start to the end of the packet. */
  lemma NoiseListSpansPacket(r: Record, e: Event)
    requires Opened(r, e)
    ensures var ni := NoiseList(r, e);
            && Sorted(ni) && |ni| >= 2
            && ni[0] == NiChange(e.start, r.firstPower) && ni[|ni| - 1] == NiChange(e.end, 0.0)
  {
    var k := EndPosition(r.changes, e, 1);
    EndFound(r, e);
    assert r.changes[0].time <= r.changes[k].time;
  }

  lemma EndFound(r: Record, e: Event)
    requires Opened(r, e)
    ensures EndPosition(r.changes, e, 1) < |r.changes|
  {
    var k :| 1 <= k < |r.changes| && r.changes[k] == NiChange(e.end, -e.power);
    assert r.changes[k].time == e.end && e.power == -r.changes[k].delta;
  }

  // ---------------------------------------------------------------------------
  // The object.

  class InterferenceHelper {
    var niChanges: seq<NiChange>
    var firstPower: real
    var rxing: bool

    ghost function State(): Record
      reads this
    {
      Record(niChanges, firstPower, rxing)
    }

    constructor ()
      ensures State() == EMPTY
    {
      niChanges, firstPower, rxing := [], 0.0, false;
    }

    method AddNiChangeEvent(c: NiChange)
      modifies this`niChanges
      ensures niChanges == Insert(old(niChanges), c)
    {
      var pos := GetPosition(niChanges, c.time);
      niChanges := niChanges[..pos] + [c] + niChanges[pos..];
    }

    method AppendEvent(now: int, e: Event)
      requires e.start == now
      modifies this
      ensures State() == Append(old(State()), e)
    {
      hide SumAll, Insert, GetPosition;
      SumAllNone();
      if !rxing {
        var nowPosition := GetPosition(niChanges, now);
        for i := 0 to nowPosition
          invariant niChanges == old(niChanges) && rxing == old(rxing)
          invariant firstPower == old(firstPower) + SumAll(niChanges[..i])
        {
          SumAllStep(niChanges, i);
          firstPower := firstPower + niChanges[i].delta;
        }
        niChanges := niChanges[nowPosition..];
        niChanges := [NiChange(e.start, e.power)] + niChanges;
      } else {
        AddNiChangeEvent(NiChange(e.start, e.power));
      }
      AddNiChangeEvent(NiChange(e.end, -e.power));
    }

    method NotifyRxStart()
      modifies this`rxing
      ensures State() == Apply(old(State()), RxStart)
    {
      rxing := true;
    }

    method NotifyRxEnd()
      modifies this`rxing
      ensures State() == Apply(old(State()), RxEnd)
    {
      rxing := false;
    }

    method EraseEvents()
      modifies this
      ensures State() == Apply(old(State()), Erase)
    {
      niChanges := [];
      rxing := false;
      firstPower := 0.0;
    }

    method CalculateNoiseInterferenceW(e: Event) returns (noise: real, ni: seq<NiChange>)
      requires rxing && niChanges != []
      ensures noise == firstPower && ni == NoiseList(State(), e)
    {
      noise := firstPower;
      ni := [];
      var i := 1;
      while i != |niChanges|
        invariant 1 <= i <= |niChanges|
        invariant ni == niChanges[1..i]
        invariant EndPosition(niChanges, e, 1) == EndPosition(niChanges, e, i)
        decreases |niChanges| - i
      {
        if e.end == niChanges[i].time && e.power == -niChanges[i].delta {
          break;
        }
        ni := ni + [niChanges[i]];
        i := i + 1;
      }
      ni := [NiChange(e.start, noise)] + ni;
      ni := ni + [NiChange(e.end, 0.0)];
    }
  }
}
