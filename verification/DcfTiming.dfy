/**
 Backoff of the channel access functions (section 9.19.2.5 of IEEE 802.11-2012). Slots are
 counted lazily, in batches; the reference is a countdown that takes one slot at a time.
 Times are integers in nanoseconds.
 */
module DcfTiming {
  import opened Numbers

  /** Elapsed microseconds are held in a uint32_t. */
  const WRAP: int := 0x1_0000_0000

  /** A slot that was counted: when it began, and the access grant start plus AIFSN slots then in force. */
  datatype Slot = Slot(start: int, floor: int)

  /** A record kept beside a backoff: how many slots it had, when it began, the slots counted since. */
  datatype Log = Log(total: nat, begun: int, counted: seq<Slot>)

  datatype Dcf = Dcf(aifsn: nat, slots: nat, start: int, cwMin: nat, cwMax: nat, cw: nat, requested: bool, log: Log)

  /** What the manager remembers about the medium. */
  datatype Medium = Medium(
    slotUs: nat, sifs: int, eifsNoDifs: int,
    ackTimeoutEnd: int, ctsTimeoutEnd: int,
    navStart: int, navDuration: int,
    rxStart: int, rxDuration: int, rxReceivedOk: bool, rxEnd: int, rxing: bool,
    txStart: int, txDuration: int,
    busyStart: int, busyDuration: int,
    switchingStart: int, switchingDuration: int)

  /** The slot time has been set, to a uint32_t value. */
  predicate Configured(m: Medium) {
    0 < m.slotUs < WRAP
  }

  function SlotTime(m: Medium): int {
    m.slotUs * MICROSECOND
  }

  /** `n` slot times. */
  function SlotTimes(m: Medium, n: nat): (t: int)
    ensures 0 <= t
  {
    MICROSECOND * (n * m.slotUs)
  }

  function RxAccessStart(m: Medium): int {
    if m.rxing then m.rxStart + m.rxDuration + m.sifs
    else if m.rxReceivedOk then m.rxEnd + m.sifs
    else m.rxEnd + m.sifs + m.eifsNoDifs
  }

  /** GetAccessGrantStart: the latest of seven instants from which the medium is free again. */
  function GrantStart(m: Medium): (g: int)
    ensures g >= RxAccessStart(m)
    ensures g >= m.busyStart + m.busyDuration + m.sifs
    ensures g >= m.txStart + m.txDuration + m.sifs
    ensures g >= m.navStart + m.navDuration + m.sifs
    ensures g >= m.ackTimeoutEnd + m.sifs
    ensures g >= m.ctsTimeoutEnd + m.sifs
    ensures g >= m.switchingStart + m.switchingDuration + m.sifs
  {
    var h := Max(RxAccessStart(m), m.busyStart + m.busyDuration + m.sifs);
    var i := Max(m.txStart + m.txDuration + m.sifs, m.navStart + m.navDuration + m.sifs);
    var j := Max(m.ackTimeoutEnd + m.sifs, m.ctsTimeoutEnd + m.sifs);
    Max(Max(h, i), Max(j, m.switchingStart + m.switchingDuration + m.sifs))
  }

  /** The access grant start plus AIFSN slots. */
  function Floor(m: Medium, d: Dcf): int {
    GrantStart(m) + SlotTimes(m, d.aifsn)
  }

  function BackoffStart(m: Medium, d: Dcf): (t: int)
    ensures t >= d.start && t >= Floor(m, d)
  {
    Max(d.start, Floor(m, d))
  }

  function BackoffEnd(m: Medium, d: Dcf): (t: int)
    ensures t >= BackoffStart(m, d)
  {
    BackoffStart(m, d) + SlotTimes(m, d.slots)
  }

  /** Whole microseconds from `from` to `now`. */
  function Elapsed(from: int, now: int): (us: int)
    requires from <= now
    ensures 0 <= us
  {
    (now - from) / MICROSECOND
  }

  /** Whole slots in this many microseconds. */
  function WholeIn(us: int, slotUs: nat): (n: nat)
    requires 0 <= us && 0 < slotUs
  {
    us / slotUs
  }

  /** The slots counted at `now`, with the truncation of the elapsed time to 32 bits. */
  function Counted(m: Medium, d: Dcf, now: int): (n: nat)
    requires Configured(m)
    ensures n <= d.slots
  {
    var from := BackoffStart(m, d);
    if from <= now then
      var whole := WholeIn(Elapsed(from, now) % WRAP, m.slotUs);
      if whole < d.slots then whole else d.slots
    else 0
  }

  /** `n` consecutive slots from `from` on. */
  ghost function SlotsFrom(m: Medium, from: int, floor: int, n: nat): (l: seq<Slot>)
    ensures |l| == n
  {
    if n == 0 then [] else SlotsFrom(m, from, floor, n - 1) + [Slot(from + SlotTimes(m, n - 1), floor)]
  }

  /** UpdateBackoff for one state. */
  ghost function Updated(m: Medium, d: Dcf, now: int): Dcf
    requires Configured(m)
  {
    var from := BackoffStart(m, d);
    if from <= now then Advanced(m, d, Counted(m, d, now)) else d
  }

  /** `n` slots counted off at once. */
  ghost function Advanced(m: Medium, d: Dcf, n: nat): Dcf
    requires n <= d.slots
  {
    var from := BackoffStart(m, d);
    d.(slots := d.slots - n, start := from + SlotTimes(m, n),
       log := d.log.(counted := d.log.counted + SlotsFrom(m, from, Floor(m, d), n)))
  }

  // ---------------------------------------------------------------------------
  // Multiples of the slot time.

  lemma SlotTimesAdd(m: Medium, a: nat, b: nat)
    ensures SlotTimes(m, a + b) == SlotTimes(m, a) + SlotTimes(m, b)
  {
    assert (a + b) * m.slotUs == a * m.slotUs + b * m.slotUs;
  }

  lemma SlotTimesOne(m: Medium)
    ensures SlotTimes(m, 0) == 0 && SlotTimes(m, 1) == SlotTime(m)
  {
  }

  lemma SlotTimesOrder(m: Medium, a: nat, b: nat)
    requires a <= b
    ensures SlotTimes(m, a) <= SlotTimes(m, b)
  {
    SlotTimesAdd(m, a, b - a);
  }

  lemma SlotTimesStrict(m: Medium, a: nat, b: nat)
    requires a < b && Configured(m)
    ensures SlotTimes(m, a) + SlotTime(m) <= SlotTimes(m, b)
  {
    SlotTimesAdd(m, a, 1);
    SlotTimesOne(m);
    SlotTimesOrder(m, a + 1, b);
  }

  /** Dividing microseconds by the slot time counts the whole slots of a duration. */
  lemma WholeSlots(m: Medium, from: int, now: int) returns (k: nat)
    requires Configured(m) && from <= now
    ensures k == Elapsed(from, now) / m.slotUs
    ensures from + SlotTimes(m, k) <= now < from + SlotTimes(m, k + 1)
  {
    var us := Elapsed(from, now);
    k := us / m.slotUs;
    DivideBounds(us, m.slotUs);
    assert (k + 1) * m.slotUs == k * m.slotUs + m.slotUs;
  }

  lemma DivideBounds(x: int, y: int)
    requires 0 <= x && 0 < y
    ensures 0 <= x / y && (x / y) * y <= x < (x / y) * y + y
  {
  }

  // ---------------------------------------------------------------------------
  // The slot-by-slot countdown.

  /** Takes one slot at a time while a whole one has passed since the backoff start. */
  ghost function CountDown(m: Medium, d: Dcf, now: int): Dcf
    decreases d.slots
  {
    if d.slots > 0 && BackoffStart(m, d) + SlotTime(m) <= now then CountDown(m, Advanced(m, d, 1), now)
    else Advanced(m, d, 0)
  }

  /** How many slots the countdown takes. */
  ghost predicate Passed(m: Medium, d: Dcf, now: int, n: nat) {
    && n <= d.slots
    && BackoffStart(m, d) + SlotTimes(m, n) <= now
    && (n < d.slots ==> now < BackoffStart(m, d) + SlotTimes(m, n + 1))
  }

  lemma AdvancedStart(m: Medium, d: Dcf, n: nat)
    requires n <= d.slots
    ensures BackoffStart(m, Advanced(m, d, n)) == BackoffStart(m, d) + SlotTimes(m, n)
    ensures Floor(m, Advanced(m, d, n)) == Floor(m, d)
  {
  }

  lemma {:induction false} SlotsFromConcat(m: Medium, from: int, floor: int, a: nat, b: nat)
    ensures SlotsFrom(m, from, floor, a + b) ==
              SlotsFrom(m, from, floor, a) + SlotsFrom(m, from + SlotTimes(m, a), floor, b)
  {
    hide SlotTimes;
    if b > 0 {
      SlotsFromConcat(m, from, floor, a, b - 1);
      SlotTimesAdd(m, a, b - 1);
    }
  }

  /** Counting `a` slots and then `b` more is counting `a + b`. */
  lemma AdvancedTwice(m: Medium, d: Dcf, a: nat, b: nat)
    requires a + b <= d.slots
    ensures Advanced(m, Advanced(m, d, a), b) == Advanced(m, d, a + b)
  {
    hide SlotTimes, BackoffStart, Floor;
    AdvancedStart(m, d, a);
    SlotTimesAdd(m, a, b);
    SlotsFromConcat(m, BackoffStart(m, d), Floor(m, d), a, b);
    var l, f := d.log.counted, BackoffStart(m, d);
    assert (l + SlotsFrom(m, f, Floor(m, d), a)) + SlotsFrom(m, f + SlotTimes(m, a), Floor(m, d), b)
        == l + SlotsFrom(m, f, Floor(m, d), a + b);
  }

  lemma {:induction false} CountDownPassed(m: Medium, d: Dcf, now: int, n: nat)
    requires Configured(m) && Passed(m, d, now, n)
    ensures CountDown(m, d, now) == Advanced(m, d, n)
    decreases n
  {
    hide SlotTimes, BackoffStart, Floor, Advanced;
    SlotTimesOne(m);
    if n > 0 {
      SlotTimesOrder(m, 1, n);
      AdvancedStart(m, d, 1);
      AdvancedSlots(m, d, 1);
      SlotTimesAdd(m, 1, n - 1);
      SlotTimesAdd(m, 1, n);
      CountDownPassed(m, Advanced(m, d, 1), now, n - 1);
      AdvancedTwice(m, d, 1, n - 1);
    }
  }

  lemma AdvancedSlots(m: Medium, d: Dcf, n: nat)
    requires n <= d.slots
    ensures Advanced(m, d, n).slots == d.slots - n
    ensures Advanced(m, d, n).aifsn == d.aifsn && Advanced(m, d, n).requested == d.requested
  {
  }

  lemma PassedExists(m: Medium, d: Dcf, now: int) returns (n: nat)
    requires Configured(m) && BackoffStart(m, d) <= now
    ensures Passed(m, d, now, n)
    ensures var whole := Elapsed(BackoffStart(m, d), now) / m.slotUs; n == if whole < d.slots then whole else d.slots
  {
    hide SlotTimes, BackoffStart;
    var k := WholeSlots(m, BackoffStart(m, d), now);
    n := if k < d.slots then k else d.slots;
    SlotTimesOrder(m, n, k);
  }

  /** The elapsed time fits its 32 bits, or what is left of it is still enough for all slots. */
  predicate Exact(m: Medium, d: Dcf, now: int)
    requires Configured(m)
  {
    BackoffStart(m, d) <= now ==>
      || Elapsed(BackoffStart(m, d), now) < WRAP
      || d.slots <= (Elapsed(BackoffStart(m, d), now) % WRAP) / m.slotUs
  }

  /**
   One batch counts exactly what the slot-by-slot countdown counts if and only if the
   elapsed time did not overflow its 32 bits in a way that matters.
   */
  lemma BatchIsCountDown(m: Medium, d: Dcf, now: int)
    requires Configured(m) && BackoffStart(m, d) <= now
    ensures Updated(m, d, now) == CountDown(m, d, now) <==> Exact(m, d, now)
  {
    hide SlotTimes, BackoffStart, Floor, Advanced;
    var n := PassedExists(m, d, now);
    CountDownPassed(m, d, now, n);
    var us := Elapsed(BackoffStart(m, d), now);
    WrapLoses(us, m.slotUs);
    AdvancedSlots(m, d, n);
    AdvancedSlots(m, d, Counted(m, d, now));
  }

  lemma WrapLoses(us: int, slotUs: int)
    requires 0 <= us && 0 < slotUs < WRAP
    ensures us < WRAP ==> us % WRAP == us
    ensures us >= WRAP ==> 0 <= (us % WRAP) / slotUs < us / slotUs
  {
    if us >= WRAP {
      var r := us % WRAP;
      DivideBounds(r, slotUs);
      DivideBounds(us, slotUs);
      assert r + slotUs < us;
      LowerQuotient(r, us, slotUs);
    }
  }

  lemma LowerQuotient(r: int, x: int, y: int)
    requires 0 <= r && 0 < y && r + y <= x
    ensures r / y < x / y
  {
    DivideBounds(r, y);
    DivideBounds(x, y);
    OrderFromProducts(r / y, x / y, y);
  }

  lemma OrderFromProducts(p: int, q: int, y: int)
    requires 0 < y && p * y < q * y
    ensures p < q
  {
    if q <= p {
      ProductsInOrder(q, p, y);
    }
  }

  lemma ProductsInOrder(q: int, p: int, y: int)
    requires 0 < y && q <= p
    ensures q * y <= p * y
  {
    assert (p - q) * y >= 0;
  }

  /** After 2^32 idle microseconds no slot is counted although all of them have passed. */
  lemma WrapStallsBackoff(m: Medium, d: Dcf)
    requires Configured(m) && 0 < d.slots && d.slots * m.slotUs <= WRAP
    ensures var now := BackoffStart(m, d) + MICROSECOND * WRAP;
            Updated(m, d, now).slots == d.slots && BackoffEnd(m, d) <= now
  {
    hide BackoffStart;
    var now := BackoffStart(m, d) + MICROSECOND * WRAP;
    assert Elapsed(BackoffStart(m, d), now) == WRAP;
    assert WRAP % WRAP == 0;
    assert Counted(m, d, now) == 0;
  }

  // ---------------------------------------------------------------------------
  // Repeated updates.

  /** Updating never moves the end of a backoff. */
  lemma UpdateKeepsEnd(m: Medium, d: Dcf, now: int)
    requires Configured(m)
    ensures BackoffEnd(m, Updated(m, d, now)) == BackoffEnd(m, d)
    ensures Updated(m, d, now).requested == d.requested && Updated(m, d, now).aifsn == d.aifsn
  {
    hide SlotTimes, Floor;
    var n := Counted(m, d, now);
    AdvancedStart(m, d, n);
    SlotTimesAdd(m, n, d.slots - n);
  }

  lemma ExactPassed(m: Medium, d: Dcf, now: int)
    requires Configured(m) && Exact(m, d, now) && BackoffStart(m, d) <= now
    ensures Passed(m, d, now, Counted(m, d, now))
  {
    hide SlotTimes, BackoffStart;
    var n := PassedExists(m, d, now);
    WrapLoses(Elapsed(BackoffStart(m, d), now), m.slotUs);
  }

  /** The elapsed time fits its 32 bits, or there is nothing to count. */
  predicate Fresh(m: Medium, d: Dcf, now: int) {
    d.slots == 0 || (BackoffStart(m, d) <= now ==> Elapsed(BackoffStart(m, d), now) < WRAP)
  }

  /** The elapsed time left in 32 bits holds as many whole slots at `t2` as at `t1`, or enough for the backoff. */
  predicate Covering(m: Medium, d: Dcf, t1: int, t2: int)
    requires Configured(m) && t1 <= t2
  {
    var from := BackoffStart(m, d);
    from <= t1 ==>
      var later := WholeIn(Elapsed(from, t2) % WRAP, m.slotUs);
      WholeIn(Elapsed(from, t1) % WRAP, m.slotUs) <= later || d.slots <= later
  }

  /**
   Without an event in between, updating twice is updating once at the later time if and only if no
   wrap in between hides slots.
   */
  lemma UpdateTwice(m: Medium, d: Dcf, t1: int, t2: int)
    requires Configured(m) && t1 <= t2
    ensures Updated(m, Updated(m, d, t1), t2) == Updated(m, d, t2) <==> Covering(m, d, t1, t2)
  {
    hide SlotTimes, BackoffStart, Floor, Advanced;
    if BackoffStart(m, d) <= t1 {
      var a := Counted(m, d, t1);
      var d1 := Advanced(m, d, a);
      SecondBatch(m, d, t1, t2);
      var b, c := Counted(m, d1, t2), Counted(m, d, t2);
      AdvancedSlots(m, d, a);
      AdvancedTwice(m, d, a, b);
      AdvancedSlots(m, d, a + b);
      AdvancedSlots(m, d, c);
    }
  }

  /** What the second of two updates counts. */
  lemma SecondBatch(m: Medium, d: Dcf, t1: int, t2: int)
    requires Configured(m) && BackoffStart(m, d) <= t1 <= t2
    ensures var a := Counted(m, d, t1);
            && BackoffStart(m, Advanced(m, d, a)) <= t2
            && (a + Counted(m, Advanced(m, d, a), t2) == Counted(m, d, t2) <==> Covering(m, d, t1, t2))
  {
    hide BackoffStart, Floor;
    var from, a := BackoffStart(m, d), Counted(m, d, t1);
    AdvancedStart(m, d, a);
    AdvancedSlots(m, d, a);
    CountedHavePassed(m, d, t1);
    CountedFits(m, d, t1);
    assert Elapsed(from + SlotTimes(m, a), t2) == Elapsed(from, t2) - a * m.slotUs;
    TwoBatches(Elapsed(from, t2), m.slotUs, a, d.slots);
    ProductFits(Elapsed(from, t2) % WRAP, m.slotUs, a);
  }

  lemma CountedFits(m: Medium, d: Dcf, now: int)
    requires Configured(m) && BackoffStart(m, d) <= now
    ensures Counted(m, d, now) * m.slotUs <= Elapsed(BackoffStart(m, d), now) % WRAP < WRAP
  {
    hide BackoffStart;
    var r := Elapsed(BackoffStart(m, d), now) % WRAP;
    DivideBounds(r, m.slotUs);
    ProductsInOrder(Counted(m, d, now), r / m.slotUs, m.slotUs);
  }

  lemma TwoBatches(us: int, slotUs: nat, a: nat, slots: nat)
    requires 0 < slotUs < WRAP && a <= slots && a * slotUs <= us && a * slotUs < WRAP
    ensures var one, two := (us % WRAP) / slotUs, ((us - a * slotUs) % WRAP) / slotUs;
            a + (if two < slots - a then two else slots - a) == (if one < slots then one else slots)
            <==> a * slotUs <= us % WRAP
  {
    var one, two := (us % WRAP) / slotUs, ((us - a * slotUs) % WRAP) / slotUs;
    if a * slotUs <= us % WRAP {
      WrapDrop(us, a * slotUs);
      QuotientDrop(us % WRAP, slotUs, a);
      assert two == one - a;
    } else {
      QuotientBelow(us % WRAP, slotUs, a);
      DivideBounds((us - a * slotUs) % WRAP, slotUs);
      assert one < a && 0 <= two;
    }
  }

  lemma WrapDrop(us: int, p: int)
    requires 0 <= p <= us % WRAP
    ensures (us - p) % WRAP == us % WRAP - p
  {
  }

  lemma QuotientDrop(r: int, y: nat, a: nat)
    requires 0 < y && a * y <= r
    ensures (r - a * y) / y == r / y - a
  {
    DivideBounds(r, y);
    DivideBounds(r - a * y, y);
    var q, q' := r / y - a, (r - a * y) / y;
    assert q * y == (r / y) * y - a * y;
    if q < q' {
      ProductsInOrder(q + 1, q', y);
    } else if q' < q {
      ProductsInOrder(q' + 1, q, y);
    }
  }

  lemma ProductFits(r: int, y: nat, a: nat)
    requires 0 <= r && 0 < y
    ensures a * y <= r <==> a <= r / y
  {
    DivideBounds(r, y);
    if a <= r / y {
      ProductsInOrder(a, r / y, y);
    } else {
      ProductsInOrder(r / y + 1, a, y);
    }
  }

  lemma QuotientsInOrder(x: int, y: int, k: nat)
    requires 0 <= x <= y && 0 < k
    ensures x / k <= y / k
  {
    DivideBounds(x, k);
    ProductFits(y, k, x / k);
  }

  lemma QuotientBelow(r: int, y: nat, a: nat)
    requires 0 <= r < a * y && 0 < y
    ensures r / y < a
  {
    DivideBounds(r, y);
    OrderFromProducts(r / y, a, y);
  }

  /** Updating again at the same time changes nothing, whatever the elapsed time. */
  lemma UpdateIdempotent(m: Medium, d: Dcf, now: int)
    requires Configured(m)
    ensures Updated(m, Updated(m, d, now), now) == Updated(m, d, now)
  {
    hide SlotTimes, BackoffStart, Updated;
    UpdateTwice(m, d, now, now);
  }

  // ---------------------------------------------------------------------------
  // After an update, an expired backoff has no slots left.

  /** After an update, an expired backoff has no slots left if and only if the batch was exact. */
  lemma ExpiredHasNoSlots(m: Medium, d: Dcf, now: int)
    requires Configured(m) && BackoffEnd(m, d) <= now
    ensures Updated(m, d, now).slots == 0 <==> Exact(m, d, now)
  {
    hide SlotTimes, BackoffStart, Floor, Advanced;
    assert BackoffStart(m, d) <= now;
    var n := Counted(m, d, now);
    AdvancedSlots(m, d, n);
    if Exact(m, d, now) {
      ExactPassed(m, d, now);
      if n < d.slots {
        SlotTimesOrder(m, n + 1, d.slots);
      }
    }
  }

  // ---------------------------------------------------------------------------
  // The log of a backoff.

  /**
   The counted slots and the remaining ones make up the backoff; the counted ones are whole,
   disjoint, in order, inside the time from the beginning to the last update, and each began
   no earlier than the access grant start plus AIFSN slots in force when it was counted.
   */
  ghost predicate LogOk(m: Medium, d: Dcf) {
    && |d.log.counted| + d.slots == d.log.total
    && d.log.begun <= d.start
    && InOrder(m, d.log.counted, d.log.begun, d.start)
  }

  /** Slots one after the other, none before `from` and all over by `to`. */
  ghost predicate InOrder(m: Medium, l: seq<Slot>, from: int, to: int) {
    && (forall k :: 0 <= k < |l| ==> l[k].floor <= l[k].start && from <= l[k].start && l[k].start + SlotTime(m) <= to)
    && (forall j, k :: 0 <= j < k < |l| ==> l[j].start + SlotTime(m) <= l[k].start)
  }

  lemma InOrderAppend(m: Medium, a: seq<Slot>, b: seq<Slot>, from: int, mid: int, to: int)
    requires InOrder(m, a, from, mid) && InOrder(m, b, mid, to) && from <= mid <= to
    ensures InOrder(m, a + b, from, to)
  {
  }

  lemma InOrderOne(m: Medium, s: Slot)
    requires s.floor <= s.start
    ensures InOrder(m, [s], s.start, s.start + SlotTime(m))
  {
  }

  lemma {:induction false} SlotsFromInOrder(m: Medium, from: int, floor: int, n: nat)
    requires floor <= from
    ensures InOrder(m, SlotsFrom(m, from, floor, n), from, from + SlotTimes(m, n))
  {
    hide SlotTimes, SlotTime, InOrder;
    SlotTimesOne(m);
    SlotTimesOrder(m, 0, n);
    if n == 0 {
      InOrderNone(m, from);
    } else {
      SlotsFromInOrder(m, from, floor, n - 1);
      SlotTimesAdd(m, n - 1, 1);
      SlotTimesOrder(m, 0, n - 1);
      SlotTimesOrder(m, n - 1, n);
      var last := Slot(from + SlotTimes(m, n - 1), floor);
      InOrderOne(m, last);
      InOrderAppend(m, SlotsFrom(m, from, floor, n - 1), [last], from, last.start, from + SlotTimes(m, n));
    }
  }

  lemma InOrderNone(m: Medium, from: int)
    ensures InOrder(m, [], from, from)
  {
  }

  /** Updating keeps the log in order, and counts only slots that have passed. */
  lemma UpdateKeepsLog(m: Medium, d: Dcf, now: int)
    requires Configured(m) && LogOk(m, d) && d.start <= now
    ensures LogOk(m, Updated(m, d, now)) && Updated(m, d, now).start <= now
  {
    hide SlotTimes, Floor, Counted;
    var from := BackoffStart(m, d);
    if from <= now {
      var n := Counted(m, d, now);
      CountedHavePassed(m, d, now);
      AppendLog(m, d, n);
    }
  }

  lemma AppendLog(m: Medium, d: Dcf, n: nat)
    requires LogOk(m, d) && n <= d.slots
    ensures LogOk(m, Advanced(m, d, n))
  {
    hide SlotTimes, SlotTime, Floor, InOrder;
    var from := BackoffStart(m, d);
    SlotTimesOne(m);
    SlotTimesOrder(m, 0, n);
    SlotsFromInOrder(m, from, Floor(m, d), n);
    LaterEnd(m, d.log.counted, d.log.begun, d.start, from);
    InOrderAppend(m, d.log.counted, SlotsFrom(m, from, Floor(m, d), n), d.log.begun, from, from + SlotTimes(m, n));
  }

  lemma LaterEnd(m: Medium, l: seq<Slot>, from: int, to: int, to': int)
    requires InOrder(m, l, from, to) && to <= to'
    ensures InOrder(m, l, from, to')
  {
  }

  lemma CountedHavePassed(m: Medium, d: Dcf, now: int)
    requires Configured(m) && BackoffStart(m, d) <= now
    ensures BackoffStart(m, d) + SlotTimes(m, Counted(m, d, now)) <= now
  {
    hide SlotTimes, BackoffStart;
    var k := WholeSlots(m, BackoffStart(m, d), now);
    WrapLoses(Elapsed(BackoffStart(m, d), now), m.slotUs);
    SlotTimesOrder(m, Counted(m, d, now), k);
  }
}
