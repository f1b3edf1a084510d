/**
 The partition lab: one writer routes events to N rings, N matchers each feed a book of their own
 and stop by a done flag followed by a drain. Every thread may be interrupted between any two of
 its atomic accesses.
 */
module Partition {
  import opened Types
  import opened Reference
  import opened Counters
  import opened Division
  import opened Spsc

  datatype Routed = Routed(event: Event, shard: nat, sequence: nat)

  datatype Mode = Polling | CheckingDone | Draining | Exited

  datatype Shard = Shard(
    queue: Queue<Routed>, mode: Mode, staged: seq<Routed>, consumed: seq<Routed>, pushed: nat, full: nat,
    book: State, trades: seq<Trade>)

  datatype Writer = Fetching | Pushing(shard: nat) | Stopped

  datatype Lab = Lab(events: seq<Event>, next: nat, writer: Writer, done: bool, shards: seq<Shard>)

  /** The shard of an event: a function of its order id alone. */
  function RouteSymbol(e: Event, shardCount: nat): (s: nat)
    requires shardCount > 0
    ensures s < shardCount && Remainder(e.id, shardCount, s)
  {
    DivMod(e.id, shardCount);
    assert e.id == (e.id / shardCount) * shardCount + e.id % shardCount;
    e.id % shardCount
  }

  /** Counting up to `id` in whole rounds of `n` leaves `r`. */
  ghost predicate Remainder(id: nat, n: nat, r: nat) {
    r < n && exists k: nat :: id == k * n + r
  }

  function RoutedAt(events: seq<Event>, shardCount: nat, k: nat): Routed
    requires k < |events| && shardCount > 0
  {
    Routed(events[k], RouteSymbol(events[k], shardCount), k)
  }

  /** The part of an input that belongs to one shard, in input order. */
  function ShareOf(events: seq<Event>, shardCount: nat, s: nat): seq<Routed>
    requires shardCount > 0
  {
    if events == [] then []
    else
      var k := |events| - 1;
      ShareOf(events[..k], shardCount, s)
      + if RouteSymbol(events[k], shardCount) == s then [RoutedAt(events, shardCount, k)] else []
  }

  function EventsOf(rs: seq<Routed>): seq<Event> {
    seq(|rs|, i requires 0 <= i < |rs| => rs[i].event)
  }

  // ---- Setting up

  datatype Setup = Refused(reason: string) | Ready(lab: Lab)

  function Start(events: seq<Event>, shardCount: nat, queueCapacity: nat, blank: Routed): Setup {
    if shardCount == 0 then Refused("shard_count must be at least 1")
    else if queueCapacity == 0 then Refused("queue_capacity must be at least 1")
    else
      var slots := seq(queueCapacity, _ => blank);
      Ready(Lab(events, 0, Fetching, false,
                seq(shardCount, _ => Shard(Fresh(slots), Polling, [], [], 0, 0, EMPTY, []))))
  }

  // ---- Steps

  datatype LabStep =
    | Route
    | Write(action: Action<Routed>)
    | Finish
    | MatchOn(shard: nat, action: Action<Routed>)
    | ReadDone(shard: nat, sees: bool)

  predicate IsPush(a: Action<Routed>) {
    a.StartPush? || a.LoadHead? || a.WriteSlot? || a.StoreTail?
  }

  predicate CanStep(lab: Lab, step: LabStep) {
    && |lab.shards| > 0
    && match step
       case Route => lab.writer == Fetching && lab.next < |lab.events|
       case Write(a) =>
         && lab.writer.Pushing? && lab.writer.shard < |lab.shards| && lab.next < |lab.events|
         && IsPush(a) && Enabled(lab.shards[lab.writer.shard].queue, a)
         && (a.StartPush? ==> a.value == RoutedAt(lab.events, |lab.shards|, lab.next))
       case Finish => lab.writer == Fetching && lab.next == |lab.events|
       case MatchOn(s, a) =>
         && s < |lab.shards| && !IsPush(a) && Enabled(lab.shards[s].queue, a)
         && (lab.shards[s].mode == Polling || lab.shards[s].mode == Draining)
       case ReadDone(s, sees) =>
         s < |lab.shards| && lab.shards[s].mode == CheckingDone && (sees ==> lab.done)
  }

  /** A push attempt that found the ring full is counted and tried again. */
  function WriterDoes(shard: Shard, a: Action<Routed>): Shard
    requires IsPush(a) && Enabled(shard.queue, a)
  {
    var q := Do(shard.queue, a);
    shard.(queue := q,
           full := shard.full + if a.LoadHead? && q.producer.PIdle? then 1 else 0,
           pushed := shard.pushed + if a.StoreTail? then 1 else 0)
  }

  /** A popped event is recorded and processed; a pop that found the ring empty moves the loop on. */
  function MatcherDoes(shard: Shard, a: Action<Routed>): Shard
    requires !IsPush(a) && Enabled(shard.queue, a)
  {
    var q := Do(shard.queue, a);
    if a.StoreHead? then
      var routed := shard.queue.consumer.value;
      var outcome := Step(shard.book, routed.event);
      shard.(queue := q, consumed := shard.consumed + [routed],
             book := outcome.state, trades := shard.trades + outcome.trades)
    else if a.LoadTail? && q.consumer.CIdle? then
      shard.(queue := q, mode := if shard.mode == Draining then Exited else CheckingDone)
    else
      shard.(queue := q)
  }

  /** Seeing the flag set is an acquire: from then on the matcher sees the final tail. */
  function MatcherSees(shard: Shard, done: bool): Shard {
    if done then shard.(mode := Draining, queue := shard.queue.(seenTail := |shard.queue.pushed|))
    else shard.(mode := Polling)
  }

  function WithShard(lab: Lab, s: nat, shard: Shard): Lab
    requires s < |lab.shards|
  {
    lab.(shards := lab.shards[s := shard])
  }

  function Take(lab: Lab, step: LabStep): Lab
    requires CanStep(lab, step)
  {
    match step
    case Route =>
      var routed := RoutedAt(lab.events, |lab.shards|, lab.next);
      var shard := lab.shards[routed.shard];
      WithShard(lab, routed.shard, shard.(staged := shard.staged + [routed])).(writer := Pushing(routed.shard))
    case Write(a) =>
      var s := lab.writer.shard;
      var lab' := WithShard(lab, s, WriterDoes(lab.shards[s], a));
      if a.StoreTail? then lab'.(writer := Fetching, next := lab.next + 1) else lab'
    case Finish => lab.(writer := Stopped, done := true)
    case MatchOn(s, a) => WithShard(lab, s, MatcherDoes(lab.shards[s], a))
    case ReadDone(s, sees) => WithShard(lab, s, MatcherSees(lab.shards[s], sees))
  }

  // ---- What every schedule keeps

  /** How much of the input has been staged. */
  function StagedUpTo(lab: Lab): nat {
    lab.next + if lab.writer.Pushing? then 1 else 0
  }

  predicate WriterOk(lab: Lab) {
    && |lab.shards| > 0 && StagedUpTo(lab) <= |lab.events|
    && (lab.done <==> lab.writer == Stopped) && (lab.done ==> lab.next == |lab.events|)
    && (lab.writer.Pushing? ==> lab.writer.shard == RouteSymbol(lab.events[lab.next], |lab.shards|))
  }

  /** The event a shard's producer is busy with, if any. */
  function InHand(lab: Lab, s: nat): seq<Routed>
    requires WriterOk(lab)
  {
    if lab.writer == Pushing(s) then [RoutedAt(lab.events, |lab.shards|, lab.next)] else []
  }

  ghost predicate RingOk(lab: Lab, q: Queue<Routed>) {
    && QueueOk(q) && |q.slots| > 0
    && (TWO_64 % |q.slots| == 0 || |lab.events| <= TWO_64)
  }

  ghost predicate StagedOk(lab: Lab, s: nat, shard: Shard)
    requires WriterOk(lab)
  {
    && shard.staged == ShareOf(lab.events[..StagedUpTo(lab)], |lab.shards|, s)
    && shard.staged == shard.queue.pushed + InHand(lab, s)
    && shard.pushed == |shard.queue.pushed|
    && (shard.queue.producer.PIdle? || InHand(lab, s) == [shard.queue.producer.value])
  }

  ghost predicate MatcherOk(lab: Lab, shard: Shard) {
    && shard.consumed == shard.queue.popped
    && shard.book == Run(EventsOf(shard.consumed)) && shard.trades == RunTrades(EventsOf(shard.consumed))
    && (shard.mode == CheckingDone || shard.mode == Exited ==> shard.queue.consumer.CIdle?)
    && (shard.mode == Draining || shard.mode == Exited ==>
          lab.done && shard.queue.seenTail == |shard.queue.pushed|)
    && (shard.mode == Exited ==> |shard.queue.popped| == |shard.queue.pushed|)
  }

  ghost predicate ShardOk(lab: Lab, s: nat, shard: Shard)
    requires WriterOk(lab)
  {
    RingOk(lab, shard.queue) && StagedOk(lab, s, shard) && MatcherOk(lab, shard)
  }

  ghost predicate LabOk(lab: Lab) {
    WriterOk(lab) && forall s :: 0 <= s < |lab.shards| ==> ShardOk(lab, s, lab.shards[s])
  }

  // ---- Shares of the input

  lemma {:induction false} ShareNext(events: seq<Event>, shardCount: nat, k: nat, s: nat)
    requires k < |events| && shardCount > 0
    ensures ShareOf(events[..k + 1], shardCount, s)
            == ShareOf(events[..k], shardCount, s)
               + if RouteSymbol(events[k], shardCount) == s then [RoutedAt(events, shardCount, k)] else []
  {
    assert events[..k + 1][..k] == events[..k];
  }

  lemma {:induction false} OneRemainder(id: nat, n: nat, r: nat, s: nat)
    requires Remainder(id, n, r) && Remainder(id, n, s)
    ensures r == s
  {
    var j: nat :| id == j * n + r;
    var k: nat :| id == k * n + s;
    SameQuotient(j, k, n, r, s);
  }

  /** An order and every later event that names it go to one shard. */
  lemma {:induction false} OneShardPerOrder(e: Event, f: Event, shardCount: nat)
    requires shardCount > 0 && e.id == f.id
    ensures RouteSymbol(e, shardCount) == RouteSymbol(f, shardCount)
  {
    hide RouteSymbol, Remainder;
    OneRemainder(e.id, shardCount, RouteSymbol(e, shardCount), RouteSymbol(f, shardCount));
  }

  /** Input event number `k` as it is routed to shard `s`. */
  ghost predicate IsRouted(events: seq<Event>, r: Routed, s: nat, k: nat) {
    k < |events| && r.event == events[k] && r.shard == s && r.sequence == k
  }

  /**
   The share of a shard holds the events whose ids leave its number as remainder, all of them and no
   others, each once and in input order.
   */
  ghost predicate ShareIs(share: seq<Routed>, events: seq<Event>, shardCount: nat, s: nat) {
    && (forall i :: 0 <= i < |share| ==>
          && IsRouted(events, share[i], s, share[i].sequence)
          && Remainder(share[i].event.id, shardCount, s))
    && (forall i, j :: 0 <= i < j < |share| ==> share[i].sequence < share[j].sequence)
    && (forall k :: 0 <= k < |events| && Remainder(events[k].id, shardCount, s) ==> Routed(events[k], s, k) in share)
  }

  lemma {:induction false} ShareIsByRemainder(events: seq<Event>, shardCount: nat, s: nat)
    requires s < shardCount
    ensures ShareIs(ShareOf(events, shardCount, s), events, shardCount, s)
  {
    if events != [] {
      var k := |events| - 1;
      ShareIsByRemainder(events[..k], shardCount, s);
      ShareGrows(ShareOf(events[..k], shardCount, s), events, shardCount, s);
    }
  }

  lemma {:induction false} ShareGrows(share: seq<Routed>, events: seq<Event>, shardCount: nat, s: nat)
    requires s < shardCount && events != []
    requires var k := |events| - 1; ShareIs(share, events[..k], shardCount, s)
    ensures var k := |events| - 1; var mine := RouteSymbol(events[k], shardCount) == s;
            ShareIs(share + if mine then [RoutedAt(events, shardCount, k)] else [], events, shardCount, s)
  {
    hide RouteSymbol, Remainder;
    var k := |events| - 1;
    var share' := share + if RouteSymbol(events[k], shardCount) == s then [RoutedAt(events, shardCount, k)] else [];
    forall i | 0 <= i < |share'|
      ensures IsRouted(events, share'[i], s, share'[i].sequence) && Remainder(share'[i].event.id, shardCount, s)
    {
      assert i < |share| ==> share'[i] == share[i];
    }
    forall i, j | 0 <= i < j < |share'| ensures share'[i].sequence < share'[j].sequence {
      assert IsRouted(events[..k], share[i], s, share[i].sequence);
    }
    forall n | 0 <= n < |events| && Remainder(events[n].id, shardCount, s) ensures Routed(events[n], s, n) in share' {
      if n < k {
        assert events[..k][n] == events[n];
      } else {
        OneRemainder(events[k].id, shardCount, RouteSymbol(events[k], shardCount), s);
        assert share'[|share|] == Routed(events[k], s, k);
      }
    }
  }

  lemma {:induction false} ShareLength(events: seq<Event>, shardCount: nat, s: nat)
    requires shardCount > 0
    ensures |ShareOf(events, shardCount, s)| <= |events|
  {
    if events != [] {
      ShareLength(events[..|events| - 1], shardCount, s);
    }
  }

  lemma {:induction false} RunSnoc(rs: seq<Routed>, r: Routed)
    ensures EventsOf(rs + [r]) == EventsOf(rs) + [r.event]
    ensures Run(EventsOf(rs + [r])) == Step(Run(EventsOf(rs)), r.event).state
    ensures RunTrades(EventsOf(rs + [r])) == RunTrades(EventsOf(rs)) + Step(Run(EventsOf(rs)), r.event).trades
  {
    var es := EventsOf(rs);
    assert EventsOf(rs + [r]) == es + [r.event];
    assert (es + [r.event])[..|es|] == es;
  }

  // ---- Steps keep the invariant

  /** What a shard's condition looks at outside the shard. */
  predicate SameOutside(lab: Lab, lab': Lab) {
    && lab.events == lab'.events && lab.next == lab'.next && lab.writer == lab'.writer && lab.done == lab'.done
    && |lab.shards| == |lab'.shards|
  }

  lemma {:induction false} OneShardChanges(lab: Lab, s: nat, shard: Shard)
    requires LabOk(lab) && s < |lab.shards| && ShardOk(lab, s, shard)
    ensures LabOk(WithShard(lab, s, shard))
  {
    hide RingOk, MatcherOk, ShareOf;
    var lab' := WithShard(lab, s, shard);
    forall i | 0 <= i < |lab'.shards| ensures ShardOk(lab', i, lab'.shards[i]) {
      assert ShardOk(lab, i, lab'.shards[i]);
      OutsideSame(lab, lab', i, lab'.shards[i]);
    }
  }

  lemma {:induction false} OutsideSame(lab: Lab, lab': Lab, i: nat, shard: Shard)
    requires WriterOk(lab) && SameOutside(lab, lab') && ShardOk(lab, i, shard)
    ensures ShardOk(lab', i, shard)
  {
    hide QueueOk, ShareOf, Run, RunTrades;
  }

  lemma {:induction false} ConsumerFrame(q: Queue<Routed>, a: Action<Routed>)
    requires Enabled(q, a) && !IsPush(a)
    ensures var q' := Do(q, a);
            q'.pushed == q.pushed && q'.producer == q.producer && q'.slots == q.slots
  {
  }

  lemma {:induction false} MatcherKeeps(lab: Lab, s: nat, a: Action<Routed>)
    requires LabOk(lab) && CanStep(lab, MatchOn(s, a))
    ensures LabOk(Take(lab, MatchOn(s, a)))
  {
    hide ShareOf, Run, RunTrades, Step, QueueOk, EventsOf;
    var shard := lab.shards[s];
    assert ShardOk(lab, s, shard);
    StepKeepsQueue(shard.queue, a);
    ConsumerFrame(shard.queue, a);
    PopOutcome(shard.queue, a);
    if a.StoreHead? {
      RunSnoc(shard.consumed, shard.queue.consumer.value);
    }
    OneShardChanges(lab, s, MatcherDoes(shard, a));
  }

  /** What a consumer step does to the completed pops, and when it may leave the consumer idle. */
  lemma {:induction false} PopOutcome(q: Queue<Routed>, a: Action<Routed>)
    requires QueueOk(q) && Enabled(q, a) && !IsPush(a)
    ensures var q' := Do(q, a);
            && q'.popped == (if a.StoreHead? then q.popped + [q.consumer.value] else q.popped)
            && (a.LoadTail? ==> q.seenTail <= q'.seenTail <= |q.pushed|)
            && (a.LoadTail? && q'.consumer.CIdle? ==> |q.popped| == q'.seenTail)
            && (!a.LoadTail? ==> q'.seenTail == q.seenTail)
  {
    RefusedChangesNothing(q, a);
  }

  lemma {:induction false} DoneKeeps(lab: Lab, s: nat, sees: bool)
    requires LabOk(lab) && CanStep(lab, ReadDone(s, sees))
    ensures LabOk(Take(lab, ReadDone(s, sees)))
  {
    hide ShareOf, Run, RunTrades, EventsOf, SlotOf;
    var shard := lab.shards[s];
    assert ShardOk(lab, s, shard);
    OneShardChanges(lab, s, MatcherSees(shard, sees));
  }

  lemma {:induction false} FinishKeeps(lab: Lab)
    requires LabOk(lab) && CanStep(lab, Finish)
    ensures LabOk(Take(lab, Finish))
  {
    hide ShareOf, Run, RunTrades, EventsOf, QueueOk;
    var lab' := Take(lab, Finish);
    forall i | 0 <= i < |lab'.shards| ensures ShardOk(lab', i, lab'.shards[i]) {
      assert ShardOk(lab, i, lab.shards[i]);
    }
  }

  lemma {:induction false} RouteKeeps(lab: Lab)
    requires LabOk(lab) && CanStep(lab, Route)
    ensures LabOk(Take(lab, Route))
  {
    hide ShareOf, Run, RunTrades, EventsOf, QueueOk, RouteSymbol;
    var lab' := Take(lab, Route);
    forall i | 0 <= i < |lab'.shards| ensures ShardOk(lab', i, lab'.shards[i]) {
      assert ShardOk(lab, i, lab.shards[i]);
      ShareNext(lab.events, |lab.shards|, lab.next, i);
    }
  }

  lemma {:induction false} ProducerFrame(q: Queue<Routed>, a: Action<Routed>)
    requires Enabled(q, a) && IsPush(a)
    ensures var q' := Do(q, a);
            && q'.popped == q.popped && q'.consumer == q.consumer && q'.seenTail == q.seenTail
            && |q'.slots| == |q.slots|
            && q'.pushed == (if a.StoreTail? then q.pushed + [q.producer.value] else q.pushed)
            && (q'.producer.PIdle? || q'.producer.value == if a.StartPush? then a.value else q.producer.value)
            && (a.StoreTail? ==> q'.producer.PIdle?)
  {
  }

  /** Fewer than 2^64 elements have gone into a ring that is being pushed to, unless wrapping is harmless. */
  lemma {:induction false} RoomToCount(lab: Lab, s: nat)
    requires LabOk(lab) && lab.writer == Pushing(s) && s < |lab.shards|
    ensures InOrder(lab.shards[s].queue)
  {
    hide Run, RunTrades, EventsOf, QueueOk;
    assert ShardOk(lab, s, lab.shards[s]);
    ShareLength(lab.events[..StagedUpTo(lab)], |lab.shards|, s);
  }

  lemma {:induction false} WriterKeepsShard(lab: Lab, a: Action<Routed>)
    requires LabOk(lab) && CanStep(lab, Write(a))
    ensures var lab', s := Take(lab, Write(a)), lab.writer.shard;
            WriterOk(lab') && ShardOk(lab', s, lab'.shards[s])
  {
    hide ShareOf, Run, RunTrades, EventsOf, QueueOk, RouteSymbol, Do;
    var s := lab.writer.shard;
    var shard := lab.shards[s];
    assert ShardOk(lab, s, shard);
    RoomToCount(lab, s);
    StepKeepsQueue(shard.queue, a);
    ProducerFrame(shard.queue, a);
    if a.StoreTail? {
      assert shard.queue.pushed + [shard.queue.producer.value] + [] == shard.queue.pushed + InHand(lab, s);
    }
  }

  lemma {:induction false} WriterKeeps(lab: Lab, a: Action<Routed>)
    requires LabOk(lab) && CanStep(lab, Write(a))
    ensures LabOk(Take(lab, Write(a)))
  {
    hide ShareOf, Run, RunTrades, EventsOf, QueueOk, RouteSymbol, Do;
    var s := lab.writer.shard;
    WriterKeepsShard(lab, a);
    var lab' := Take(lab, Write(a));
    forall i | 0 <= i < |lab'.shards| ensures ShardOk(lab', i, lab'.shards[i]) {
      assert ShardOk(lab, i, lab.shards[i]);
    }
  }

  lemma {:induction false} StepKeepsLab(lab: Lab, step: LabStep)
    requires LabOk(lab) && CanStep(lab, step)
    ensures LabOk(Take(lab, step))
  {
    hide LabOk, Take;
    match step {
      case Route => RouteKeeps(lab);
      case Write(a) => WriterKeeps(lab, a);
      case Finish => FinishKeeps(lab);
      case MatchOn(s, a) => MatcherKeeps(lab, s, a);
      case ReadDone(s, sees) => DoneKeeps(lab, s, sees);
    }
  }

  // ---- Whole schedules

  predicate LegalRun(lab: Lab, steps: seq<LabStep>)
    decreases |steps|
  {
    steps == [] || (CanStep(lab, steps[0]) && LegalRun(Take(lab, steps[0]), steps[1..]))
  }

  function AfterRun(lab: Lab, steps: seq<LabStep>): Lab
    requires LegalRun(lab, steps)
    decreases |steps|
  {
    if steps == [] then lab else AfterRun(Take(lab, steps[0]), steps[1..])
  }

  lemma {:induction false} RunKeepsLab(lab: Lab, steps: seq<LabStep>)
    requires LabOk(lab) && LegalRun(lab, steps)
    ensures LabOk(AfterRun(lab, steps))
    decreases |steps|
  {
    hide LabOk, CanStep, Take;
    if steps != [] {
      StepKeepsLab(lab, steps[0]);
      RunKeepsLab(Take(lab, steps[0]), steps[1..]);
    }
  }

  lemma {:induction false} RunKeepsShape(lab: Lab, steps: seq<LabStep>)
    requires LegalRun(lab, steps)
    ensures |AfterRun(lab, steps).shards| == |lab.shards| && AfterRun(lab, steps).events == lab.events
    decreases |steps|
  {
    if steps != [] {
      RunKeepsShape(Take(lab, steps[0]), steps[1..]);
    }
  }

  /** The lab starts exactly when it has a shard and a slot, and starts sound. */
  lemma {:induction false} StartOk(events: seq<Event>, shardCount: nat, queueCapacity: nat, blank: Routed)
    requires queueCapacity < TWO_64
    requires queueCapacity > 0 ==> TWO_64 % queueCapacity == 0 || |events| <= TWO_64
    ensures var setup := Start(events, shardCount, queueCapacity, blank);
            && (setup.Ready? <==> shardCount > 0 && queueCapacity > 0)
            && (setup.Ready? ==>
                  && LabOk(setup.lab) && |setup.lab.shards| == shardCount && setup.lab.events == events
                  && setup.lab.next == 0 && setup.lab.writer == Fetching && !setup.lab.done
                  && forall s :: 0 <= s < shardCount ==>
                       && |setup.lab.shards[s].queue.slots| == queueCapacity && setup.lab.shards[s].mode == Polling
                       && setup.lab.shards[s].queue.pushed == [] && setup.lab.shards[s].full == 0)
  {
    var setup := Start(events, shardCount, queueCapacity, blank);
    if setup.Ready? {
      var slots := seq(queueCapacity, _ => blank);
      hide QueueOk;
      FreshOk(slots);
      forall s | 0 <= s < shardCount ensures ShardOk(setup.lab, s, setup.lab.shards[s]) {
        assert setup.lab.shards[s].queue == Fresh(slots);
        assert events[..0] == [] && EventsOf([]) == [];
      }
    }
  }

  /** The share of a shard as a book's history. */
  function ShareEvents(events: seq<Event>, shardCount: nat, s: nat): seq<Event>
    requires shardCount > 0
  {
    EventsOf(ShareOf(events, shardCount, s))
  }

  /** What a shard has consumed, staged and computed in any sound state, and what it means to have exited. */
  ghost predicate ShardIsExact(events: seq<Event>, shardCount: nat, s: nat, shard: Shard)
    requires shardCount > 0
  {
    && shard.consumed <= shard.staged <= ShareOf(events, shardCount, s)
    && |shard.staged| - |shard.consumed| <= |shard.queue.slots| + 1
    && shard.book == Run(EventsOf(shard.consumed)) && shard.trades == RunTrades(EventsOf(shard.consumed))
    && (shard.mode == Exited ==>
          && shard.consumed == shard.staged == ShareOf(events, shardCount, s)
          && shard.pushed == |shard.staged|
          && shard.book == Run(ShareEvents(events, shardCount, s))
          && shard.trades == RunTrades(ShareEvents(events, shardCount, s)))
  }

  lemma {:induction false} SoundIsExact(lab: Lab, s: nat)
    requires LabOk(lab) && s < |lab.shards|
    ensures ShardIsExact(lab.events, |lab.shards|, s, lab.shards[s])
  {
    hide ShareOf, Run, RunTrades, EventsOf, SlotsOk, ProducerOk, ConsumerOk, Wrap;
    assert ShardOk(lab, s, lab.shards[s]);
    SharePrefix(lab.events, |lab.shards|, s, StagedUpTo(lab));
    assert lab.events[..|lab.events|] == lab.events;
  }

  /** Whatever the schedule: a matcher exits only with everything that was staged for it, in order. */
  lemma {:induction false} ExitedIsExact(events: seq<Event>, shardCount: nat, queueCapacity: nat, blank: Routed,
                                         steps: seq<LabStep>, s: nat)
    requires 0 < queueCapacity < TWO_64 && (TWO_64 % queueCapacity == 0 || |events| <= TWO_64) && s < shardCount
    requires LegalRun(Start(events, shardCount, queueCapacity, blank).lab, steps)
    ensures var lab := AfterRun(Start(events, shardCount, queueCapacity, blank).lab, steps);
            && s < |lab.shards| && ShardIsExact(events, shardCount, s, lab.shards[s])
            && (lab.shards[s].mode == Exited ==> ShareIs(lab.shards[s].consumed, events, shardCount, s))
  {
    hide LabOk, ShareIs, ShareOf, EventsOf, Run, RunTrades;
    StartOk(events, shardCount, queueCapacity, blank);
    var lab := Start(events, shardCount, queueCapacity, blank).lab;
    RunKeepsLab(lab, steps);
    RunKeepsShape(lab, steps);
    SoundIsExact(AfterRun(lab, steps), s);
    ShareIsByRemainder(events, shardCount, s);
  }

  lemma {:induction false} SharePrefix(events: seq<Event>, shardCount: nat, s: nat, k: nat)
    requires shardCount > 0 && k <= |events|
    ensures ShareOf(events[..k], shardCount, s) <= ShareOf(events, shardCount, s)
  {
    if k < |events| {
      SharePrefix(events[..|events| - 1], shardCount, s, k);
      assert events[..|events| - 1][..k] == events[..k];
    } else {
      assert events[..k] == events;
    }
  }

  /** Whether a step is a push to shard `s` that the ring refuses. */
  predicate RefusesPush(lab: Lab, step: LabStep, s: nat)
    requires CanStep(lab, step)
  {
    match step
    case Write(LoadHead(seen)) =>
      lab.writer.shard == s && Do(lab.shards[s].queue, LoadHead(seen)).producer.PIdle?
    case _ => false
  }

  function Refusals(lab: Lab, steps: seq<LabStep>, s: nat): nat
    requires LegalRun(lab, steps)
    decreases |steps|
  {
    if steps == [] then 0
    else (if RefusesPush(lab, steps[0], s) then 1 else 0) + Refusals(Take(lab, steps[0]), steps[1..], s)
  }

  /** A shard's full counter counts exactly the pushes its ring refused. */
  lemma {:induction false} FullCountsRefusals(lab: Lab, steps: seq<LabStep>, s: nat)
    requires LegalRun(lab, steps) && s < |lab.shards|
    ensures s < |AfterRun(lab, steps).shards|
    ensures AfterRun(lab, steps).shards[s].full == lab.shards[s].full + Refusals(lab, steps, s)
    decreases |steps|
  {
    if steps != [] {
      FullCountsRefusals(Take(lab, steps[0]), steps[1..], s);
    }
  }

  // ---- Progress

  function Unread(q: Queue<Routed>): nat {
    if |q.popped| <= |q.pushed| then |q.pushed| - |q.popped| else 0
  }

  function ConsumerRank(c: Consumer<Routed>): nat {
    match c
    case CIdle => 3
    case CLoaded(_) => 2
    case CReady(_) => 1
    case CRead(_, _) => 0
  }

  /** How far a matcher is from its exit, apart from what the writer has yet to push. */
  function MatcherRank(shard: Shard, done: bool): nat {
    5 * Unread(shard.queue)
    + match shard.mode
      case Polling => ConsumerRank(shard.queue.consumer) + if done then 6 else 0
      case CheckingDone => if done then 5 else 4
      case Draining => ConsumerRank(shard.queue.consumer) + 1
      case Exited => 0
  }

  function MatchersRank(shards: seq<Shard>, done: bool): nat {
    if shards == [] then 0 else MatcherRank(shards[0], done) + MatchersRank(shards[1..], done)
  }

  function ProducerRank(p: Producer<Routed>): nat {
    match p
    case PIdle => 3
    case PLoaded(_, _) => 2
    case PReady(_, _) => 1
    case PWritten(_, _) => 0
  }

  function WriterRank(lab: Lab): nat
    requires WriterOk(lab)
  {
    match lab.writer
    case Fetching => 10 * |lab.shards| + 16 * (|lab.events| - lab.next) + 1
    case Pushing(s) =>
      10 * |lab.shards| + 16 * (|lab.events| - lab.next) - 3 + ProducerRank(lab.shards[s].queue.producer)
    case Stopped => 0
  }

  function Measure(lab: Lab): nat
    requires WriterOk(lab)
  {
    WriterRank(lab) + MatchersRank(lab.shards, lab.done)
  }

  /** The steps that wait for another thread: a refused push, an empty poll, a flag read before it is seen. */
  predicate Spins(lab: Lab, step: LabStep)
    requires CanStep(lab, step)
  {
    match step
    case Write(LoadHead(seen)) => Do(lab.shards[lab.writer.shard].queue, LoadHead(seen)).producer.PIdle?
    case MatchOn(s, LoadTail(seen)) =>
      !lab.done && lab.shards[s].mode == Polling && Do(lab.shards[s].queue, LoadTail(seen)).consumer.CIdle?
    case ReadDone(s, sees) => lab.done && !sees
    case _ => false
  }

  lemma {:induction false} OneRankChanges(shards: seq<Shard>, s: nat, shard: Shard, done: bool)
    requires s < |shards|
    ensures MatchersRank(shards[s := shard], done)
            == MatchersRank(shards, done) - MatcherRank(shards[s], done) + MatcherRank(shard, done)
  {
    hide MatcherRank;
    if s == 0 {
      assert shards[s := shard][1..] == shards[1..];
    } else {
      OneRankChanges(shards[1..], s - 1, shard, done);
      assert shards[s := shard][1..] == shards[1..][s - 1 := shard];
    }
  }

  lemma {:induction false} DoneRaisesLittle(shards: seq<Shard>)
    ensures MatchersRank(shards, true) <= MatchersRank(shards, false) + 6 * |shards|
  {
    if shards != [] {
      DoneRaisesLittle(shards[1..]);
    }
  }

  lemma {:induction false} MatcherLowers(lab: Lab, s: nat, a: Action<Routed>)
    requires LabOk(lab) && CanStep(lab, MatchOn(s, a)) && !Spins(lab, MatchOn(s, a))
    ensures WriterOk(Take(lab, MatchOn(s, a))) && Measure(Take(lab, MatchOn(s, a))) < Measure(lab)
  {
    hide MatchersRank, ShareOf, Run, RunTrades, EventsOf, SlotsOk, SlotOf, Wrap, Step, RouteSymbol;
    var shard := lab.shards[s];
    assert ShardOk(lab, s, shard);
    ConsumerFrame(shard.queue, a);
    OneRankChanges(lab.shards, s, MatcherDoes(shard, a), lab.done);
    ConsumerLowers(shard, lab.done, a);
    WriterRankKept(lab, s, MatcherDoes(shard, a));
  }

  lemma {:induction false} ConsumerLowers(shard: Shard, done: bool, a: Action<Routed>)
    requires Enabled(shard.queue, a) && !IsPush(a) && (shard.mode == Polling || shard.mode == Draining)
    requires ConsumerOk(shard.queue) && CountersOk(shard.queue) && |shard.queue.slots| > 0
    requires a.LoadTail? && Do(shard.queue, a).consumer.CIdle? ==> done || shard.mode == Draining
    ensures MatcherRank(MatcherDoes(shard, a), done) < MatcherRank(shard, done)
  {
    hide Run, RunTrades, Step, Wrap;
  }

  lemma {:induction false} WriterRankKept(lab: Lab, s: nat, shard: Shard)
    requires WriterOk(lab) && s < |lab.shards| && shard.queue.producer == lab.shards[s].queue.producer
    ensures WriterOk(WithShard(lab, s, shard)) && WriterRank(WithShard(lab, s, shard)) == WriterRank(lab)
  {
    hide RouteSymbol;
  }

  lemma {:induction false} ReadLowers(lab: Lab, s: nat, sees: bool)
    requires LabOk(lab) && CanStep(lab, ReadDone(s, sees)) && !Spins(lab, ReadDone(s, sees))
    ensures WriterOk(Take(lab, ReadDone(s, sees))) && Measure(Take(lab, ReadDone(s, sees))) < Measure(lab)
  {
    hide MatchersRank, ShareOf, Run, RunTrades, EventsOf, QueueOk, RouteSymbol;
    var shard := lab.shards[s];
    assert ShardOk(lab, s, shard);
    OneRankChanges(lab.shards, s, MatcherSees(shard, sees), lab.done);
    WriterRankKept(lab, s, MatcherSees(shard, sees));
  }

  lemma {:induction false} FinishLowers(lab: Lab)
    requires LabOk(lab) && CanStep(lab, Finish)
    ensures WriterOk(Take(lab, Finish)) && Measure(Take(lab, Finish)) < Measure(lab)
  {
    hide MatchersRank;
    DoneRaisesLittle(lab.shards);
  }

  lemma {:induction false} RouteLowers(lab: Lab)
    requires LabOk(lab) && CanStep(lab, Route)
    ensures WriterOk(Take(lab, Route)) && Measure(Take(lab, Route)) < Measure(lab)
  {
    hide MatchersRank, ShareOf, Run, RunTrades, EventsOf, QueueOk;
    var s := RouteSymbol(lab.events[lab.next], |lab.shards|);
    var shard := lab.shards[s];
    assert ShardOk(lab, s, shard);
    var routed := RoutedAt(lab.events, |lab.shards|, lab.next);
    OneRankChanges(lab.shards, s, shard.(staged := shard.staged + [routed]), lab.done);
  }

  lemma {:induction false} WriterLowers(lab: Lab, a: Action<Routed>)
    requires LabOk(lab) && CanStep(lab, Write(a)) && !Spins(lab, Write(a))
    ensures WriterOk(Take(lab, Write(a))) && Measure(Take(lab, Write(a))) < Measure(lab)
  {
    hide MatchersRank, ShareOf, Run, RunTrades, EventsOf, SlotsOk, SlotOf, Wrap, RouteSymbol;
    var s := lab.writer.shard;
    var shard := lab.shards[s];
    assert ShardOk(lab, s, shard);
    ProducerFrame(shard.queue, a);
    OneRankChanges(lab.shards, s, WriterDoes(shard, a), lab.done);
  }

  /** Every step that does not spin brings the lab closer to its end. */
  lemma {:induction false} StepLowersOrSpins(lab: Lab, step: LabStep)
    requires LabOk(lab) && CanStep(lab, step) && !Spins(lab, step)
    ensures LabOk(Take(lab, step)) && Measure(Take(lab, step)) < Measure(lab)
  {
    hide LabOk, MatchersRank, MatcherRank, Take;
    StepKeepsLab(lab, step);
    SoundWriter(lab);
    SoundWriter(Take(lab, step));
    match step {
      case Route => RouteLowers(lab);
      case Write(a) => WriterLowers(lab, a);
      case Finish => FinishLowers(lab);
      case MatchOn(s, a) => MatcherLowers(lab, s, a);
      case ReadDone(s, sees) => ReadLowers(lab, s, sees);
    }
  }

  lemma {:induction false} SoundWriter(lab: Lab)
    requires LabOk(lab)
    ensures WriterOk(lab)
  {
  }

  predicate Finished(lab: Lab) {
    lab.writer == Stopped && forall s :: 0 <= s < |lab.shards| ==> lab.shards[s].mode == Exited
  }

  /** The next step of a matcher that loads the latest index and flag. */
  function MatcherTurn(lab: Lab, s: nat): LabStep
    requires s < |lab.shards|
  {
    var q := lab.shards[s].queue;
    if lab.shards[s].mode == CheckingDone then ReadDone(s, lab.done)
    else
      match q.consumer
      case CIdle => MatchOn(s, StartPop)
      case CLoaded(_) => MatchOn(s, LoadTail(|q.pushed|))
      case CReady(_) => MatchOn(s, ReadSlot)
      case CRead(_, _) => MatchOn(s, StoreHead)
  }

  lemma {:induction false} TurnIsUseful(lab: Lab, s: nat)
    requires LabOk(lab) && s < |lab.shards| && lab.shards[s].mode != Exited
    requires lab.done || Unread(lab.shards[s].queue) > 0
    ensures CanStep(lab, MatcherTurn(lab, s)) && !Spins(lab, MatcherTurn(lab, s))
  {
    hide ShareOf, Run, RunTrades, EventsOf, SlotsOk, SlotOf, RouteSymbol, Wrap;
    var q := lab.shards[s].queue;
    assert ShardOk(lab, s, lab.shards[s]);
    if q.consumer.CLoaded? {
      SubWraps(|q.pushed|, |q.popped|);
    }
  }

  /** A blocked writer waits for a matcher that has something to pop, so some step always makes progress. */
  lemma {:induction false} SomeStepDoesNotSpin(lab: Lab) returns (step: LabStep)
    requires LabOk(lab) && !Finished(lab)
    ensures CanStep(lab, step) && !Spins(lab, step)
  {
    match lab.writer {
      case Fetching =>
        step := if lab.next < |lab.events| then Route else Finish;
      case Stopped =>
        var s :| 0 <= s < |lab.shards| && lab.shards[s].mode != Exited;
        TurnIsUseful(lab, s);
        step := MatcherTurn(lab, s);
      case Pushing(s) =>
        step := WriterTurn(lab, s);
    }
  }

  lemma {:induction false} WriterTurn(lab: Lab, s: nat) returns (step: LabStep)
    requires LabOk(lab) && lab.writer == Pushing(s)
    ensures CanStep(lab, step) && !Spins(lab, step)
  {
    hide ShareOf, Run, RunTrades, EventsOf, SlotsOk, SlotOf, Wrap, RouteSymbol;
    var q := lab.shards[s].queue;
    assert ShardOk(lab, s, lab.shards[s]);
    match q.producer {
      case PIdle => step := Write(StartPush(RoutedAt(lab.events, |lab.shards|, lab.next)));
      case PLoaded(_, _) =>
        SubWraps(|q.pushed|, |q.popped|);
        if Unread(q) < |q.slots| {
          step := Write(LoadHead(|q.popped|));
        } else {
          TurnIsUseful(lab, s);
          step := MatcherTurn(lab, s);
        }
      case PReady(_, _) => step := Write(WriteSlot);
      case PWritten(_, _) => step := Write(StoreTail);
    }
  }

  /** From every sound state some schedule runs to the end, with every matcher exited. */
  lemma {:induction false} CanFinish(lab: Lab) returns (steps: seq<LabStep>)
    requires LabOk(lab)
    ensures LegalRun(lab, steps) && Finished(AfterRun(lab, steps)) && |steps| <= Measure(lab)
    decreases Measure(lab)
  {
    hide LabOk, Measure, CanStep, Take, Finished, Spins;
    SoundWriter(lab);
    if Finished(lab) {
      steps := [];
    } else {
      var step := SomeStepDoesNotSpin(lab);
      StepLowersOrSpins(lab, step);
      var rest := CanFinish(Take(lab, step));
      steps := [step] + rest;
      assert steps[1..] == rest;
    }
  }

  /** A spin costs little: at most four of the steps it has to be made up with. */
  lemma {:induction false} SpinRaisesLittle(lab: Lab, step: LabStep)
    requires LabOk(lab) && CanStep(lab, step) && Spins(lab, step)
    ensures WriterOk(Take(lab, step)) && Measure(Take(lab, step)) <= Measure(lab) + 4
  {
    hide MatchersRank, ShareOf, Run, RunTrades, EventsOf, SlotsOk, SlotOf, Wrap, RouteSymbol, Step;
    match step {
      case Write(a) =>
        var s := lab.writer.shard;
        assert ShardOk(lab, s, lab.shards[s]);
        OneRankChanges(lab.shards, s, WriterDoes(lab.shards[s], a), lab.done);
      case MatchOn(s, a) =>
        assert ShardOk(lab, s, lab.shards[s]);
        OneRankChanges(lab.shards, s, MatcherDoes(lab.shards[s], a), lab.done);
        WriterRankKept(lab, s, MatcherDoes(lab.shards[s], a));
      case ReadDone(s, sees) =>
        assert ShardOk(lab, s, lab.shards[s]);
        OneRankChanges(lab.shards, s, MatcherSees(lab.shards[s], sees), lab.done);
        WriterRankKept(lab, s, MatcherSees(lab.shards[s], sees));
    }
  }

  /** How many steps of a schedule were spins. */
  function Spun(lab: Lab, steps: seq<LabStep>): nat
    requires LegalRun(lab, steps)
    decreases |steps|
  {
    if steps == [] then 0
    else (if Spins(lab, steps[0]) then 1 else 0) + Spun(Take(lab, steps[0]), steps[1..])
  }

  /** No schedule runs forever except by spinning: its length is bounded by its spins. */
  lemma {:induction false} OnlySpinningIsEndless(lab: Lab, steps: seq<LabStep>)
    requires LabOk(lab) && LegalRun(lab, steps)
    ensures WriterOk(AfterRun(lab, steps))
    ensures |steps| + Measure(AfterRun(lab, steps)) <= Measure(lab) + 5 * Spun(lab, steps)
    decreases |steps|
  {
    hide LabOk, Measure, CanStep, Take, Spins;
    SoundWriter(lab);
    if steps != [] {
      var step := steps[0];
      StepKeepsLab(lab, step);
      if Spins(lab, step) {
        SpinRaisesLittle(lab, step);
      } else {
        StepLowersOrSpins(lab, step);
      }
      OnlySpinningIsEndless(Take(lab, step), steps[1..]);
    }
  }
}
