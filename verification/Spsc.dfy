/** The ring's size_t counters: wrap-around, distances and slot numbers. */
module Counters {
  import opened Types
  import opened Division

  // ---- Counters modulo 2^64

  function Wrap(n: nat): uint64 {
    n % TWO_64
  }

  /** Unsigned subtraction of two counters. */
  function Sub64(a: uint64, b: uint64): uint64 {
    if a >= b then a - b else a - b + TWO_64
  }

  function Next64(a: uint64): uint64 {
    if a == TWO_64 - 1 then 0 else a + 1
  }

  lemma NextWraps(n: nat)
    ensures Next64(Wrap(n)) == Wrap(n + 1)
  {
  }

  /** The difference of two wrapped counters is the true distance as long as that distance fits. */
  lemma SubWraps(a: nat, b: nat)
    requires b <= a < b + TWO_64
    ensures Sub64(Wrap(a), Wrap(b)) == a - b
    ensures Wrap(a) == Wrap(b) <==> a == b
  {
  }

  /** The slot the source uses for the n-th element: counter modulo capacity. */
  function SlotOf(capacity: nat, n: nat): nat
    requires capacity > 0
  {
    Wrap(n) % capacity
  }

  /** When the capacity divides 2^64, wrapping the counter does not disturb the slot order. */
  lemma SlotInOrder(capacity: nat, n: nat)
    requires capacity > 0 && (TWO_64 % capacity == 0 || n < TWO_64)
    ensures SlotOf(capacity, n) == n % capacity
  {
    if TWO_64 % capacity == 0 {
      var k, q, r := TWO_64 / capacity, n / TWO_64, n % TWO_64;
      assert TWO_64 == k * capacity;
      var q', r' := r / capacity, r % capacity;
      assert n == q * (k * capacity) + q' * capacity + r' == (q * k + q') * capacity + r' by {
        assert q * (k * capacity) == (q * k) * capacity;
        assert (q * k + q') * capacity == (q * k) * capacity + q' * capacity;
      }
      QuotientIs(n, capacity, q * k + q', r');
    }
  }

  lemma NearbyDiffer(capacity: nat, i: nat, j: nat)
    requires i < j < i + capacity
    ensures i % capacity != j % capacity
  {
    var p, q := j / capacity, i / capacity;
    DivMod(i, capacity);
    DivMod(j, capacity);
    if p > q {
      MulSum(q, p - q, capacity);
    } else {
      MulSum(p, q - p, capacity);
    }
  }

  lemma SlotsDiffer(capacity: nat, i: nat, j: nat)
    requires i < j < i + capacity && (TWO_64 % capacity == 0 || j < TWO_64)
    ensures SlotOf(capacity, i) != SlotOf(capacity, j)
  {
    SlotInOrder(capacity, i);
    SlotInOrder(capacity, j);
    NearbyDiffer(capacity, i, j);
  }

  ghost predicate SlotsNeverClash(capacity: nat)
    requires capacity > 0
  {
    forall i: nat, j: nat :: i < j < i + capacity ==> SlotOf(capacity, i) != SlotOf(capacity, j)
  }

  /**
   Past 2^64 pushes the slots of a full window stay distinct exactly when the capacity divides 2^64.
   Otherwise element 2^64 falls on the slot of an element fewer than `capacity` places before it.
   */
  lemma SlotsClashIff(capacity: nat)
    requires 0 < capacity < TWO_64
    ensures SlotsNeverClash(capacity) <==> TWO_64 % capacity == 0
  {
    if TWO_64 % capacity == 0 {
      forall i: nat, j: nat | i < j < i + capacity ensures SlotOf(capacity, i) != SlotOf(capacity, j) {
        SlotsDiffer(capacity, i, j);
      }
    } else {
      WrappedSlot(capacity);
      var i := TWO_64 - TWO_64 % capacity;
      assert i < TWO_64 < i + capacity;
    }
  }

  lemma WrappedSlot(capacity: nat)
    requires 0 < capacity < TWO_64 && TWO_64 % capacity != 0
    ensures SlotOf(capacity, TWO_64) == 0 && SlotOf(capacity, TWO_64 - TWO_64 % capacity) == 0
  {
    var i := TWO_64 - TWO_64 % capacity;
    DivMod(TWO_64, capacity);
    QuotientIs(i, capacity, TWO_64 / capacity, 0);
    QuotientIs(0, capacity, 0, 0);
  }
}

/**
 The ring as interleaved atomic steps. Each call is split where another thread can run in between:
 load the own index, load the other side's index, touch the slot, store the own index.

 An acquire load of the other side's index may return any value between the last one this side has
 seen and the current one. `pushed` and `popped` are history: the elements of completed calls.
 */
module Spsc {
  import opened Types
  import opened Counters

  datatype Producer<T> =
    | PIdle
    | PLoaded(value: T, tail: uint64)
    | PReady(value: T, tail: uint64)
    | PWritten(value: T, tail: uint64)

  datatype Consumer<T> =
    | CIdle
    | CLoaded(head: uint64)
    | CReady(head: uint64)
    | CRead(head: uint64, value: T)

  datatype Queue<T> = Queue(
    slots: seq<T>, head: uint64, tail: uint64, seenHead: nat, seenTail: nat,
    producer: Producer<T>, consumer: Consumer<T>, pushed: seq<T>, popped: seq<T>)

  function Fresh<T>(slots: seq<T>): Queue<T> {
    Queue(slots, 0, 0, 0, 0, PIdle, CIdle, [], [])
  }

  // ---- Steps

  datatype Action<T> =
    | StartPush(value: T)
    | LoadHead(seen: nat)
    | WriteSlot
    | StoreTail
    | StartPop
    | LoadTail(seen: nat)
    | ReadSlot
    | StoreHead

  predicate Enabled<T>(q: Queue<T>, a: Action<T>) {
    match a
    case StartPush(_) => q.producer.PIdle?
    case LoadHead(seen) => q.producer.PLoaded? && q.seenHead <= seen <= |q.popped|
    case WriteSlot => q.producer.PReady? && |q.slots| > 0
    case StoreTail => q.producer.PWritten?
    case StartPop => q.consumer.CIdle?
    case LoadTail(seen) => q.consumer.CLoaded? && q.seenTail <= seen <= |q.pushed|
    case ReadSlot => q.consumer.CReady? && |q.slots| > 0
    case StoreHead => q.consumer.CRead?
  }

  function Do<T>(q: Queue<T>, a: Action<T>): Queue<T>
    requires Enabled(q, a)
  {
    match a
    case StartPush(v) => if |q.slots| == 0 then q else q.(producer := PLoaded(v, q.tail))
    case LoadHead(seen) =>
      var p := q.producer;
      q.(seenHead := seen,
         producer := if Sub64(p.tail, Wrap(seen)) == |q.slots| then PIdle else PReady(p.value, p.tail))
    case WriteSlot =>
      var p := q.producer;
      q.(slots := q.slots[p.tail % |q.slots| := p.value], producer := PWritten(p.value, p.tail))
    case StoreTail =>
      q.(tail := Next64(q.producer.tail), producer := PIdle, pushed := q.pushed + [q.producer.value])
    case StartPop => if |q.slots| == 0 then q else q.(consumer := CLoaded(q.head))
    case LoadTail(seen) =>
      var c := q.consumer;
      q.(seenTail := seen, consumer := if c.head == Wrap(seen) then CIdle else CReady(c.head))
    case ReadSlot =>
      var c := q.consumer;
      q.(consumer := CRead(c.head, q.slots[c.head % |q.slots|]))
    case StoreHead =>
      q.(head := Next64(q.consumer.head), consumer := CIdle, popped := q.popped + [q.consumer.value])
  }

  // ---- What every interleaving keeps

  ghost predicate CountersOk<T>(q: Queue<T>) {
    && |q.slots| < TWO_64
    && |q.popped| <= |q.pushed| <= |q.popped| + |q.slots|
    && q.popped == q.pushed[..|q.popped|]
    && q.head == Wrap(|q.popped|) && q.tail == Wrap(|q.pushed|)
    && q.seenHead <= |q.popped| && |q.popped| <= q.seenTail <= |q.pushed| <= q.seenHead + |q.slots|
  }

  /** The slot of every unread element holds it. */
  ghost predicate SlotsOk<T>(q: Queue<T>)
    requires |q.popped| <= |q.pushed|
  {
    forall i :: |q.popped| <= i < |q.pushed| ==> |q.slots| > 0 && q.slots[SlotOf(|q.slots|, i)] == q.pushed[i]
  }

  ghost predicate ProducerOk<T>(q: Queue<T>) {
    match q.producer
    case PIdle => true
    case PLoaded(_, tail) => tail == q.tail && |q.slots| > 0
    case PReady(_, tail) => tail == q.tail && |q.pushed| < q.seenHead + |q.slots|
    case PWritten(v, tail) =>
      && tail == q.tail && |q.pushed| < q.seenHead + |q.slots| && |q.slots| > 0
      && q.slots[SlotOf(|q.slots|, |q.pushed|)] == v
  }

  ghost predicate ConsumerOk<T>(q: Queue<T>) {
    match q.consumer
    case CIdle => true
    case CLoaded(head) => head == q.head && |q.slots| > 0
    case CReady(head) => head == q.head && |q.popped| < q.seenTail
    case CRead(head, v) => head == q.head && |q.popped| < q.seenTail <= |q.pushed| && v == q.pushed[|q.popped|]
  }

  ghost predicate QueueOk<T>(q: Queue<T>) {
    CountersOk(q) && SlotsOk(q) && ProducerOk(q) && ConsumerOk(q)
  }

  /** The slot order survives so far: the capacity divides 2^64, or the counter has not wrapped yet. */
  predicate InOrder<T>(q: Queue<T>) {
    |q.slots| > 0 && (TWO_64 % |q.slots| == 0 || |q.pushed| < TWO_64)
  }

  lemma {:induction false} IndexSlots<T>(q: Queue<T>)
    requires CountersOk(q) && |q.slots| > 0
    ensures q.tail % |q.slots| == SlotOf(|q.slots|, |q.pushed|)
    ensures q.head % |q.slots| == SlotOf(|q.slots|, |q.popped|)
  {
    hide Wrap;
  }

  /** A producer about to write does not touch any unread slot, nor the one a pop is in the middle of. */
  lemma {:induction false} WriteTouchesNoUnreadSlot<T>(q: Queue<T>)
    requires QueueOk(q) && q.producer.PReady? && InOrder(q)
    ensures forall i :: |q.popped| <= i < |q.pushed| ==> SlotOf(|q.slots|, i) != q.producer.tail % |q.slots|
    ensures q.consumer.CReady? ==> q.consumer.head % |q.slots| != q.producer.tail % |q.slots|
  {
    IndexSlots(q);
    hide SlotOf, Wrap;
    forall i | |q.popped| <= i < |q.pushed| ensures SlotOf(|q.slots|, i) != SlotOf(|q.slots|, |q.pushed|) {
      SlotsDiffer(|q.slots|, i, |q.pushed|);
    }
  }

  lemma {:induction false} WriteKeepsSlots<T>(q: Queue<T>)
    requires QueueOk(q) && q.producer.PReady? && InOrder(q)
    ensures SlotsOk(Do(q, WriteSlot)) && Do(q, WriteSlot).slots[SlotOf(|q.slots|, |q.pushed|)] == q.producer.value
  {
    hide Wrap;
    WriteTouchesNoUnreadSlot(q);
  }

  lemma {:induction false} StoreKeepsSlots<T>(q: Queue<T>)
    requires QueueOk(q) && q.producer.PWritten?
    ensures SlotsOk(Do(q, StoreTail))
  {
    hide SlotOf, Wrap, Next64;
  }

  lemma {:induction false} HeadSlot<T>(q: Queue<T>)
    requires QueueOk(q) && q.consumer.CReady?
    ensures |q.slots| > 0 && q.slots[q.head % |q.slots|] == q.pushed[|q.popped|]
  {
    hide Wrap;
    assert q.slots[SlotOf(|q.slots|, |q.popped|)] == q.pushed[|q.popped|];
  }

  /** Every step of either side, with any stale load, keeps the ring sound. */
  lemma {:induction false} StepKeepsQueue<T>(q: Queue<T>, a: Action<T>)
    requires QueueOk(q) && Enabled(q, a) && (a.WriteSlot? ==> InOrder(q))
    ensures QueueOk(Do(q, a))
  {
    hide SlotOf, Wrap, Sub64, Next64;
    match a {
      case StartPush(_) =>
      case LoadHead(seen) => SubWraps(|q.pushed|, seen);
      case WriteSlot => WriteKeepsSlots(q);
      case StoreTail =>
        NextWraps(|q.pushed|);
        StoreKeepsSlots(q);
      case StartPop =>
      case LoadTail(seen) => SubWraps(seen, |q.popped|);
      case ReadSlot => HeadSlot(q);
      case StoreHead => NextWraps(|q.popped|);
    }
  }

  // ---- Whole runs

  predicate Legal<T>(q: Queue<T>, actions: seq<Action<T>>)
    decreases |actions|
  {
    actions == [] || (Enabled(q, actions[0]) && Legal(Do(q, actions[0]), actions[1..]))
  }

  function After<T>(q: Queue<T>, actions: seq<Action<T>>): Queue<T>
    requires Legal(q, actions)
    decreases |actions|
  {
    if actions == [] then q else After(Do(q, actions[0]), actions[1..])
  }

  /** How many elements have been written to slots, the one being pushed included. */
  function Written<T>(q: Queue<T>): nat {
    |q.pushed| + if q.producer.PWritten? then 1 else 0
  }

  lemma {:induction false} WritesCount<T>(q: Queue<T>, a: Action<T>)
    requires Enabled(q, a)
    ensures |Do(q, a).slots| == |q.slots|
    ensures Written(q) <= Written(Do(q, a)) && (a.WriteSlot? ==> Written(Do(q, a)) == |q.pushed| + 1)
  {
  }

  lemma {:induction false} WrittenGrows<T>(q: Queue<T>, actions: seq<Action<T>>)
    requires Legal(q, actions)
    ensures Written(q) <= Written(After(q, actions)) && |After(q, actions).slots| == |q.slots|
    decreases |actions|
  {
    hide Enabled, Do, Written;
    if actions != [] {
      WritesCount(q, actions[0]);
      WrittenGrows(Do(q, actions[0]), actions[1..]);
    }
  }

  /** Every interleaving in which at most 2^64 elements are written, or any if wrapping is harmless. */
  lemma {:induction false} RunKeepsQueue<T>(q: Queue<T>, actions: seq<Action<T>>)
    requires QueueOk(q) && Legal(q, actions)
    requires |q.slots| > 0 ==> TWO_64 % |q.slots| == 0 || Written(After(q, actions)) <= TWO_64
    ensures QueueOk(After(q, actions)) && |After(q, actions).slots| == |q.slots|
    decreases |actions|
  {
    hide QueueOk, Do, Written;
    if actions != [] {
      WritesCount(q, actions[0]);
      WrittenGrows(Do(q, actions[0]), actions[1..]);
      StepKeepsQueue(q, actions[0]);
      RunKeepsQueue(Do(q, actions[0]), actions[1..]);
    }
  }

  /**
   From an empty ring, whatever the interleaving: never more than `capacity` unread elements, and the
   consumer has popped a prefix of what was pushed, in order.
   */
  lemma {:induction false} RingIsFifo<T>(slots: seq<T>, actions: seq<Action<T>>)
    requires |slots| < TWO_64 && Legal(Fresh(slots), actions)
    requires |slots| > 0 ==> TWO_64 % |slots| == 0 || Written(After(Fresh(slots), actions)) <= TWO_64
    ensures var q := After(Fresh(slots), actions);
            && q.popped <= q.pushed && |q.pushed| - |q.popped| <= |slots|
            && Sub64(q.tail, q.head) == |q.pushed| - |q.popped|
  {
    hide Wrap, SlotOf, Sub64;
    FreshOk(slots);
    RunKeepsQueue(Fresh(slots), actions);
    var q := After(Fresh(slots), actions);
    SubWraps(|q.pushed|, |q.popped|);
  }

  lemma {:induction false} FreshOk<T>(slots: seq<T>)
    requires |slots| < TWO_64
    ensures QueueOk(Fresh(slots))
  {
  }

  // ---- A run that is not first in, first out

  lemma {:induction false} LegalAppend<T>(q: Queue<T>, a: seq<Action<T>>, b: seq<Action<T>>)
    requires Legal(q, a) && Legal(After(q, a), b)
    ensures Legal(q, a + b) && After(q, a + b) == After(After(q, a), b)
    decreases |a|
  {
    hide Enabled, Do;
    if a == [] {
      assert a + b == b;
    } else {
      assert (a + b)[0] == a[0] && (a + b)[1..] == a[1..] + b;
      LegalAppend(Do(q, a[0]), a[1..], b);
    }
  }

  lemma {:induction false} FourSteps<T>(q: Queue<T>, a: Action<T>, b: Action<T>, c: Action<T>, d: Action<T>)
    requires Enabled(q, a)
    requires var q1 := Do(q, a); Enabled(q1, b)
    requires var q2 := Do(Do(q, a), b); Enabled(q2, c)
    requires var q3 := Do(Do(Do(q, a), b), c); Enabled(q3, d)
    ensures Legal(q, [a, b, c, d]) && After(q, [a, b, c, d]) == Do(Do(Do(Do(q, a), b), c), d)
  {
    hide Enabled, Do;
    var steps := [a, b, c, d];
    assert steps[1..] == [b, c, d] && steps[1..][1..] == [c, d] && [c, d][1..] == [d] && [d][1..] == [];
    var q3 := Do(Do(Do(q, a), b), c);
    assert Legal(q3, [d]) && After(q3, [d]) == Do(q3, d);
    assert Legal(Do(Do(q, a), b), [c, d]) && After(Do(Do(q, a), b), [c, d]) == Do(q3, d);
    assert Legal(Do(q, a), [b, c, d]) && After(Do(q, a), [b, c, d]) == Do(q3, d);
  }

  predicate Idle<T>(q: Queue<T>) {
    q.producer.PIdle? && q.consumer.CIdle? && |q.slots| > 0
  }

  function PushRun<T>(q: Queue<T>, v: T): seq<Action<T>> {
    [StartPush(v), LoadHead(|q.popped|), WriteSlot, StoreTail]
  }

  function PopRun<T>(q: Queue<T>): seq<Action<T>> {
    [StartPop, LoadTail(|q.pushed|), ReadSlot, StoreHead]
  }

  /** A push without interruption. */
  lemma {:induction false} PushAlone<T>(q: Queue<T>, v: T)
    requires CountersOk(q) && Idle(q) && |q.pushed| < |q.popped| + |q.slots|
    ensures Legal(q, PushRun(q, v)) && q.tail % |q.slots| < |q.slots|
    ensures After(q, PushRun(q, v))
            == q.(slots := q.slots[q.tail % |q.slots| := v], tail := Wrap(|q.pushed| + 1), seenHead := |q.popped|,
                  pushed := q.pushed + [v])
  {
    hide Wrap, Sub64, Next64, Legal, After;
    SubWraps(|q.pushed|, |q.popped|);
    NextWraps(|q.pushed|);
    FourSteps(q, StartPush(v), LoadHead(|q.popped|), WriteSlot, StoreTail);
  }

  /** A pop without interruption. */
  lemma {:induction false} PopAlone<T>(q: Queue<T>)
    requires CountersOk(q) && Idle(q) && |q.popped| < |q.pushed|
    ensures Legal(q, PopRun(q)) && q.head % |q.slots| < |q.slots|
    ensures After(q, PopRun(q))
            == q.(head := Wrap(|q.popped| + 1), seenTail := |q.pushed|,
                  popped := q.popped + [q.slots[q.head % |q.slots|]])
  {
    hide Wrap, Next64, Legal, After;
    SubWraps(|q.pushed|, |q.popped|);
    NextWraps(|q.popped|);
    FourSteps(q, StartPop, LoadTail(|q.pushed|), ReadSlot, StoreHead);
  }

  lemma {:induction false} PushKeeps<T>(q: Queue<T>, x: T)
    requires QueueOk(q) && Idle(q) && |q.pushed| < TWO_64 && |q.pushed| < |q.popped| + |q.slots|
    ensures Legal(q, PushRun(q, x)) && QueueOk(After(q, PushRun(q, x))) && Idle(After(q, PushRun(q, x)))
    ensures var r := After(q, PushRun(q, x));
            |r.slots| == |q.slots| && r.popped == q.popped && r.pushed == q.pushed + [x]
  {
    PushAlone(q, x);
    hide SlotsOk, Wrap, PushRun;
    RunKeepsQueue(q, PushRun(q, x));
  }

  /** `n` pushes of one value into a ring with room for them. */
  lemma {:induction false} PushMany<T>(q: Queue<T>, x: T, n: nat) returns (actions: seq<Action<T>>)
    requires QueueOk(q) && Idle(q) && |q.pushed| + n <= TWO_64 && |q.pushed| + n <= |q.popped| + |q.slots|
    ensures Legal(q, actions) && QueueOk(After(q, actions)) && Idle(After(q, actions))
    ensures var r := After(q, actions);
            && |r.slots| == |q.slots| && r.popped == q.popped && |r.pushed| == |q.pushed| + n
            && q.pushed <= r.pushed && (n > 0 ==> r.pushed[|q.pushed|] == x)
    decreases n
  {
    if n == 0 {
      actions := [];
    } else {
      hide QueueOk, PushRun, Idle, Legal, After;
      PushKeeps(q, x);
      var r := After(q, PushRun(q, x));
      var rest := PushMany(r, x, n - 1);
      LegalAppend(q, PushRun(q, x), rest);
      actions := PushRun(q, x) + rest;
    }
  }

  /** `n` times a push and a pop, on a ring with nothing unread. */
  lemma {:induction false} PushPopMany<T>(q: Queue<T>, x: T, n: nat) returns (actions: seq<Action<T>>)
    requires QueueOk(q) && Idle(q) && |q.pushed| == |q.popped| && |q.pushed| + n <= TWO_64
    ensures Legal(q, actions) && QueueOk(After(q, actions)) && Idle(After(q, actions))
    ensures var r := After(q, actions);
            |r.slots| == |q.slots| && |r.pushed| == |r.popped| == |q.pushed| + n
    decreases n
  {
    if n == 0 {
      actions := [];
    } else {
      var pushes := PushMany(q, x, 1);
      var r := After(q, pushes);
      PopAlone(r);
      hide SlotsOk, Wrap, PopRun;
      RunKeepsQueue(r, PopRun(r));
      LegalAppend(q, pushes, PopRun(r));
      var once := pushes + PopRun(r);
      var rest := PushPopMany(After(q, once), x, n - 1);
      LegalAppend(q, once, rest);
      actions := once + rest;
    }
  }

  /**
   A capacity that does not divide 2^64 has a run from the empty ring that pops an element out of
   order: element 2^64 lands on a slot that is still unread.
   */
  lemma {:induction false} FifoBreaks<T>(slots: seq<T>, x: T, y: T) returns (actions: seq<Action<T>>)
    requires 0 < |slots| < TWO_64 && TWO_64 % |slots| != 0 && x != y
    ensures Legal(Fresh(slots), actions) && !IsFifo(slots, actions)
  {
    var r := TWO_64 % |slots|;
    FreshOk(slots);
    var many := PushPopMany(Fresh(slots), x, TWO_64 - r);
    var q1 := After(Fresh(slots), many);
    var fill := PushMany(q1, x, r);
    LegalAppend(Fresh(slots), many, fill);
    var q2 := After(q1, fill);
    var last := OverwriteAndPop(q2, x, y);
    LegalAppend(Fresh(slots), many + fill, last);
    actions := many + fill + last;
  }

  lemma {:induction false} OverwriteAndPop<T>(q: Queue<T>, x: T, y: T) returns (actions: seq<Action<T>>)
    requires QueueOk(q) && Idle(q) && TWO_64 % |q.slots| != 0 && x != y
    requires |q.pushed| == TWO_64 && |q.popped| == TWO_64 - TWO_64 % |q.slots| && q.pushed[|q.popped|] == x
    ensures Legal(q, actions) && !(After(q, actions).popped <= After(q, actions).pushed)
  {
    hide SlotsOk, Wrap, SlotOf;
    var i := |q.popped|;
    IndexSlots(q);
    WrappedSlot(|q.slots|);
    PushAlone(q, y);
    hide PushRun, PopRun;
    var q1 := After(q, PushRun(q, y));
    PopAlone(q1);
    assert q1.slots[q1.head % |q1.slots|] == y;
    LegalAppend(q, PushRun(q, y), PopRun(q1));
    actions := PushRun(q, y) + PopRun(q1);
    assert After(q, actions).popped[i] == y && After(q, actions).pushed[i] == x;
  }

  predicate IsFifo<T(==)>(slots: seq<T>, actions: seq<Action<T>>)
    requires Legal(Fresh(slots), actions)
  {
    After(Fresh(slots), actions).popped <= After(Fresh(slots), actions).pushed
  }

  /** Every run is first in, first out exactly when the capacity divides 2^64. */
  lemma {:induction false} AlwaysFifoIff<T(!new)>(slots: seq<T>, x: T, y: T)
    requires 0 < |slots| < TWO_64 && x != y
    ensures (forall actions :: Legal(Fresh(slots), actions) ==> IsFifo(slots, actions)) <==> TWO_64 % |slots| == 0
  {
    if TWO_64 % |slots| == 0 {
      forall actions | Legal(Fresh(slots), actions) ensures IsFifo(slots, actions) {
        RingIsFifo(slots, actions);
      }
    } else {
      var actions := FifoBreaks(slots, x, y);
    }
  }

  // ---- Refused calls

  /** What a push or a pop may change for others: the slots, the indices and the completed calls. */
  predicate SameContents<T(==)>(q: Queue<T>, r: Queue<T>) {
    q.slots == r.slots && q.head == r.head && q.tail == r.tail && q.pushed == r.pushed && q.popped == r.popped
  }

  /** A push is refused only when it saw the ring full, a pop only when it saw it empty; neither changes it. */
  lemma {:induction false} RefusedChangesNothing<T>(q: Queue<T>, a: Action<T>)
    requires QueueOk(q) && Enabled(q, a)
    ensures a.LoadHead? ==>
              (Do(q, a).producer.PIdle? <==> |q.pushed| == a.seen + |q.slots|) && SameContents(q, Do(q, a))
    ensures a.LoadTail? ==> (Do(q, a).consumer.CIdle? <==> |q.popped| == a.seen) && SameContents(q, Do(q, a))
    ensures a.StartPush? || a.StartPop? ==> SameContents(q, Do(q, a))
    ensures |q.slots| == 0 && (a.StartPush? || a.StartPop?) ==> Do(q, a) == q
  {
    hide Wrap, SlotOf, Sub64;
    if a.LoadHead? {
      SubWraps(|q.pushed|, a.seen);
    } else if a.LoadTail? {
      SubWraps(a.seen, |q.popped|);
    }
  }
}

/** The ring used from one thread: each call as one step. */
module SpscClass {
  import opened Types
  import opened Counters
  import opened Spsc

  class SpscQueue<T(0)> {
    const capacity: nat
    var slots: array<T>
    var head: uint64
    var tail: uint64
    ghost var pushCount: nat
    ghost var popCount: nat

    ghost predicate Valid()
      reads this
    {
      && capacity == slots.Length < TWO_64
      && popCount <= pushCount <= popCount + capacity
      && head == Wrap(popCount) && tail == Wrap(pushCount)
    }

    /** The unread elements, oldest first. */
    ghost function Contents(): seq<T>
      requires Valid()
      reads this, slots
    {
      Window(slots[..], popCount, pushCount)
    }

    constructor (capacity: nat)
      requires capacity < TWO_64
      ensures Valid() && fresh(slots) && this.capacity == capacity && Contents() == [] && pushCount == 0
    {
      this.capacity := capacity;
      slots := new T[capacity];
      head, tail := 0, 0;
      pushCount, popCount := 0, 0;
    }

    /** The value goes in last; the others stay as they were while wrapping does not disturb the slots. */
    method TryPush(value: T) returns (pushed: bool)
      requires Valid()
      modifies this`tail, this`pushCount, slots
      ensures Valid()
      ensures pushed <==> |old(Contents())| < capacity
      ensures pushed ==> |Contents()| == |old(Contents())| + 1 && Contents()[|Contents()| - 1] == value
      ensures pushed && (TWO_64 % capacity == 0 || old(pushCount) < TWO_64) ==> Contents() == old(Contents()) + [value]
      ensures !pushed ==> Contents() == old(Contents())
      ensures pushCount == old(pushCount) + if pushed then 1 else 0
    {
      hide SlotOf, Wrap, Sub64, Next64, Window;
      if capacity == 0 {
        return false;
      }
      SubWraps(pushCount, popCount);
      if Sub64(tail, head) == capacity {
        return false;
      }
      NextWraps(pushCount);
      SlotIs(capacity, pushCount);
      ghost var before := slots[..];
      WindowLast(before, popCount, pushCount, value);
      if TWO_64 % capacity == 0 || pushCount < TWO_64 {
        WindowPush(before, popCount, pushCount, value);
      }
      slots[tail % capacity] := value;
      assert slots[..] == before[SlotOf(capacity, pushCount) := value];
      tail := Next64(tail);
      pushCount := pushCount + 1;
      pushed := true;
    }

    method TryPop() returns (popped: bool, value: T)
      requires Valid()
      modifies this`head, this`popCount
      ensures Valid()
      ensures popped <==> old(Contents()) != []
      ensures popped ==> [value] + Contents() == old(Contents())
      ensures !popped ==> Contents() == old(Contents())
    {
      hide SlotOf, Wrap, Next64, Window;
      popped, value := false, *;
      if capacity == 0 {
        return;
      }
      SubWraps(pushCount, popCount);
      if head == tail {
        return;
      }
      NextWraps(popCount);
      SlotIs(capacity, popCount);
      WindowPop(slots[..], popCount, pushCount);
      popped, value := true, slots[head % capacity];
      head := Next64(head);
      popCount := popCount + 1;
    }
  }

  /** The elements numbered `from` to `to` as the slots hold them. */
  function Window<T>(slots: seq<T>, from: nat, to: nat): (w: seq<T>)
    requires from <= to <= from + |slots|
    ensures |w| == to - from
  {
    seq(to - from, i requires 0 <= i < to - from => slots[SlotOf(|slots|, from + i)])
  }

  lemma {:induction false} WindowPush<T>(slots: seq<T>, from: nat, to: nat, value: T)
    requires from <= to < from + |slots| && (TWO_64 % |slots| == 0 || to < TWO_64)
    ensures SlotOf(|slots|, to) < |slots|
    ensures Window(slots[SlotOf(|slots|, to) := value], from, to + 1) == Window(slots, from, to) + [value]
  {
    hide SlotOf;
    SlotIs(|slots|, to);
    var slots' := slots[SlotOf(|slots|, to) := value];
    forall i | 0 <= i < to - from ensures Window(slots', from, to + 1)[i] == Window(slots, from, to)[i] {
      SlotIs(|slots|, from + i);
      SlotsDiffer(|slots|, from + i, to);
    }
  }

  lemma {:induction false} WindowLast<T>(slots: seq<T>, from: nat, to: nat, value: T)
    requires from <= to < from + |slots|
    ensures SlotOf(|slots|, to) < |slots|
    ensures Window(slots[SlotOf(|slots|, to) := value], from, to + 1)[to - from] == value
  {
    hide SlotOf;
    SlotIs(|slots|, to);
  }

  lemma {:induction false} WindowPop<T>(slots: seq<T>, from: nat, to: nat)
    requires from < to <= from + |slots|
    ensures Window(slots, from, to) == [slots[SlotOf(|slots|, from)]] + Window(slots, from + 1, to)
  {
    hide SlotOf;
  }

  lemma {:induction false} SlotIs(capacity: nat, n: nat)
    requires capacity > 0
    ensures Wrap(n) % capacity == SlotOf(capacity, n) < capacity
  {
  }

  /** The class and the interleaved ring hold the same unread elements in the same slots. */
  lemma {:induction false} UnreadIsWindow<T>(q: Queue<T>)
    requires QueueOk(q)
    ensures Window(q.slots, |q.popped|, |q.pushed|) == q.pushed[|q.popped|..]
  {
    hide SlotOf, Wrap;
  }
}
