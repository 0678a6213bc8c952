/** The single producer with its cached bound. */
module UniProducers {
  import opened Indexing
  import opened Cursors
  import opened Rings

  /** What a producer that looks at the consumers on every call would answer: `published` is the last
      published sequence, `rear` the slowest consumer. */
  function Uncached(size: nat, published: Sequence, rear: Sequence, n: nat): Claim {
    if FreeSlots(size, published, rear) < n then MissingFreeSlots(n - FreeSlots(size, published, rear))
    else Granted(published + n)
  }

  /** This accepts a request exactly if it reuses no slot that is still needed, and a refusal says how far
      the slowest consumer must still come. */
  lemma UncachedIsExact(size: nat, published: Sequence, rear: Sequence, n: nat)
    requires size > 0 && rear <= published <= rear + size
    ensures var r := Uncached(size, published, rear, n);
      && (n > 0 ==> (r.Granted? <==> CanClaim(size, published, rear, n)))
      && (r.Granted? ==> r.upper == published + n)
      && (r.MissingFreeSlots? ==>
            && 0 < r.missing && Uncached(size, published, rear + r.missing, n).Granted?
            && !Uncached(size, published, rear + r.missing - 1, n).Granted?)
      && (n == 0 ==> r.Granted?)
  {
    if n > 0 {
      FreeSlotsAreExact(size, published, rear, n);
    }
  }

  /** The answer and the new bound of a producer that looks only when its bound does not suffice. */
  function Cached(size: nat, published: Sequence, clear: Sequence, rear: Sequence, n: nat): (r: (Claim, Sequence)) {
    if clear < published + n then
      var free := FreeSlots(size, published, rear);
      if free < n then (MissingFreeSlots(n - free), clear) else (Granted(published + n), published + free)
    else (Granted(published + n), clear)
  }

  // ---- any interleaving of calls and of progress of the consumers ----

  /** `Publish(n)` is a call for `n` slots, followed by their publication if it is granted; `Consume(rear)`
      means that the slowest consumer has come to `rear`. */
  datatype Operation = Publish(n: nat) | Consume(rear: Sequence)

  datatype Producer = Producer(published: Sequence, rear: Sequence, clear: Sequence, answers: seq<Claim>)

  function Initial(size: nat): Producer {
    Producer(NONE, NONE, size - 1, [])
  }

  /** Consumers only go forward, up to what is published. */
  predicate Possible(p: Producer, op: Operation) {
    op.Consume? ==> p.rear <= op.rear <= p.published
  }

  function Answered(p: Producer, answer: Claim, clear: Sequence): Producer {
    Producer(if answer.Granted? then answer.upper else p.published, p.rear, clear, p.answers + [answer])
  }

  function CachedStep(size: nat, p: Producer, op: Operation): Producer {
    match op
    case Consume(rear) => p.(rear := rear)
    case Publish(n) =>
      var (answer, clear) := Cached(size, p.published, p.clear, p.rear, n);
      Answered(p, answer, clear)
  }

  function UncachedStep(size: nat, p: Producer, op: Operation): Producer {
    match op
    case Consume(rear) => p.(rear := rear)
    case Publish(n) => Answered(p, Uncached(size, p.published, p.rear, n), p.clear)
  }

  function RunCached(size: nat, ops: seq<Operation>): Producer {
    if ops == [] then Initial(size) else CachedStep(size, RunCached(size, ops[..|ops| - 1]), ops[|ops| - 1])
  }

  function RunUncached(size: nat, ops: seq<Operation>): Producer {
    if ops == [] then Initial(size) else UncachedStep(size, RunUncached(size, ops[..|ops| - 1]), ops[|ops| - 1])
  }

  predicate PossibleRun(size: nat, ops: seq<Operation>) {
    ops == [] ||
    (PossibleRun(size, ops[..|ops| - 1]) && Possible(RunUncached(size, ops[..|ops| - 1]), ops[|ops| - 1]))
  }

  /** A bound that was right once never causes an answer that differs from that of a fresh look. */
  lemma CacheIsExact(size: nat, published: Sequence, clear: Sequence, rear: Sequence, n: nat)
    requires clear <= rear + size && published <= rear + size
    ensures Cached(size, published, clear, rear, n).0 == Uncached(size, published, rear, n)
    ensures clear <= Cached(size, published, clear, rear, n).1 <= rear + size
            || Cached(size, published, clear, rear, n).0.MissingFreeSlots?
    ensures Cached(size, published, clear, rear, n).1 <= rear + size
  {
  }

  /** What the answer and the new bound mean. */
  lemma AnswerIsExact(size: nat, published: Sequence, clear: Sequence, rear: Sequence, n: nat)
    requires size > 0 && clear <= rear + size && rear <= published <= rear + size
    ensures var (r, clear') := Cached(size, published, clear, rear, n);
      && r == Uncached(size, published, rear, n)
      && (r.Granted? <==> published + n <= rear + size)
      && (n > 0 ==> (r.Granted? <==> CanClaim(size, published, rear, n)))
      && (r.Granted? ==> r.upper == published + n)
      && (r.MissingFreeSlots? ==> r.missing == published + n - rear - size)
      && clear' == if r.Granted? && clear < r.upper then rear + size else clear
  {
    CacheIsExact(size, published, clear, rear, n);
    UncachedIsExact(size, published, rear, n);
  }

  /** Over every interleaving, the cached producer gives the same answers as the uncached one, with the
      same number of missing slots, and never gets more than a lap ahead of the slowest consumer. */
  lemma {:induction false} CachedAgreesWithUncached(size: nat, ops: seq<Operation>)
    requires PossibleRun(size, ops)
    ensures var p, q := RunCached(size, ops), RunUncached(size, ops);
      && p.answers == q.answers && p.published == q.published && p.rear == q.rear
      && p.rear <= p.published <= p.rear + size && p.clear <= p.rear + size
  {
    if ops == [] {
    } else {
      var before := ops[..|ops| - 1];
      CachedAgreesWithUncached(size, before);
      var p := RunCached(size, before);
      match ops[|ops| - 1]
      case Consume(_) =>
      case Publish(n) => CacheIsExact(size, p.published, p.clear, p.rear, n);
    }
  }

  /** After any run, the cached producer grants a request exactly if it reuses no slot that is still
      needed. What it grants comes right after what is published, and a refusal changes nothing. */
  lemma CachedIsExact(size: nat, ops: seq<Operation>, n: nat)
    requires size > 0 && PossibleRun(size, ops)
    ensures var p, p' := RunCached(size, ops), RunCached(size, ops + [Publish(n)]);
      && |p'.answers| == |p.answers| + 1 && p.answers <= p'.answers && p'.rear == p.rear
      && var answer := p'.answers[|p.answers|];
        && (n > 0 ==> (answer.Granted? <==> CanClaim(size, p.published, p.rear, n)))
        && (if answer.Granted? then p'.published == answer.upper == p.published + n
            else p'.published == p.published && answer.missing == p.published + n - p.rear - size > 0)
  {
    CachedAgreesWithUncached(size, ops);
    assert (ops + [Publish(n)])[..|ops|] == ops;
    var p := RunCached(size, ops);
    CacheIsExact(size, p.published, p.clear, p.rear, n);
    UncachedIsExact(size, p.published, p.rear, n);
  }

  // ---- the producer itself ----

  /** The slots of the sequences from `from` on hold what the log has for them. */
  ghost predicate Shows<T>(slots: seq<T>, log: seq<T>, from: Sequence)
    requires |slots| > 0
  {
    forall s :: 0 <= s && from <= s < |log| ==> slots[Slot(|slots|, s)] == log[s]
  }

  /** A write within a lap of the slowest consumer touches nothing that is still to be read. */
  lemma StillShows<T>(slots: seq<T>, log: seq<T>, from: Sequence, at: Sequence, event: T)
    requires 0 < |slots| && Shows(slots, log, from) && |log| <= at < from + |slots|
    ensures Shows(slots[Slot(|slots|, at) := event], log, from)
  {
    forall s | 0 <= s && from <= s < |log|
      ensures slots[Slot(|slots|, at) := event][Slot(|slots|, s)] == log[s]
    {
      DistinctInWindow(|slots|, s, at);
    }
  }

  /** A batch that has been written to its slots may join the log. */
  lemma WrittenMayJoin<T>(before: seq<T>, log: seq<T>, from: Sequence, events: seq<T>)
    requires 0 < |before| && |events| <= |before| && Shows(Written(before, |log|, events), log, from)
    ensures Shows(Written(before, |log|, events), log + events, from)
  {
    var slots := Written(before, |log|, events);
    forall s | |log| <= s < |log| + |events|
      ensures slots[Slot(|slots|, s)] == events[s - |log|]
    {
      WrittenSlots(before, |log|, events, s);
    }
    MayJoin(slots, log, from, events);
  }

  lemma MayJoin<T>(slots: seq<T>, log: seq<T>, from: Sequence, events: seq<T>)
    requires 0 < |slots| && Shows(slots, log, from)
    requires forall s :: |log| <= s < |log| + |events| ==> slots[Slot(|slots|, s)] == events[s - |log|]
    ensures Shows(slots, log + events, from)
  {
  }

  class UniProducer<T> {
    const ringBuffer: RingBuffer<T>
    const producerBarrier: Cursor
    const consumerBarrier: ConsumerBarrier
    const shutdownAtSequence: Cursor
    const consumerHandles: seq<ConsumerHandle>
    /** The next sequence to publish. */
    var sequence: Sequence
    var sequenceClearOfConsumers: Sequence
    /** All events published so far. */
    ghost var log: seq<T>

    ghost function Size(): nat {
      ringBuffer.slots.Length
    }

    /** Everything before `sequence` is published, and no consumer is more than a lap behind it, nor
        behind the cached bound. What some consumer still has to read is in its slot. */
    ghost predicate Valid()
      reads this, producerBarrier, consumerBarrier, ringBuffer.slots
    {
      && ringBuffer.Valid() && producerBarrier != shutdownAtSequence && consumerBarrier.cursors != []
      && producerBarrier.counter == sequence - 1 >= NONE
      && (forall i :: 0 <= i < |consumerBarrier.cursors| ==>
           var c := consumerBarrier.cursors[i];
           NONE <= c <= sequence - 1 <= c + Size() && sequenceClearOfConsumers <= c + Size())
      && |log| == sequence && Shows(ringBuffer.slots[..], log, Least(consumerBarrier.cursors).value + 1)
    }

    constructor (
        shutdownAtSequence: Cursor, ringBuffer: RingBuffer<T>, producerBarrier: Cursor,
        consumerHandles: seq<ConsumerHandle>, consumerBarrier: ConsumerBarrier)
      requires ringBuffer.Valid() && producerBarrier != shutdownAtSequence && producerBarrier.counter == NONE
      requires consumerBarrier.cursors != []
      requires forall i :: 0 <= i < |consumerBarrier.cursors| ==> consumerBarrier.cursors[i] == NONE
      ensures Valid() && sequence == 0 && log == [] && sequenceClearOfConsumers == ringBuffer.slots.Length - 1
      ensures this.ringBuffer == ringBuffer
      ensures this.producerBarrier == producerBarrier && this.consumerBarrier == consumerBarrier
      ensures this.shutdownAtSequence == shutdownAtSequence && this.consumerHandles == consumerHandles
    {
      this.ringBuffer := ringBuffer;
      this.producerBarrier := producerBarrier;
      this.consumerBarrier := consumerBarrier;
      this.shutdownAtSequence := shutdownAtSequence;
      this.consumerHandles := consumerHandles;
      sequence, log := 0, [];
      sequenceClearOfConsumers := ringBuffer.slots.Length - 1;
    }

    /** Where the slowest consumer really is. */
    ghost function Rear(): (rear: Sequence)
      requires Valid()
      reads this, producerBarrier, consumerBarrier, ringBuffer.slots
      ensures rear == Least(consumerBarrier.cursors).value
      ensures NONE <= rear <= sequence - 1 <= rear + Size() && sequenceClearOfConsumers <= rear + Size()
    {
      var i :| 0 <= i < |consumerBarrier.cursors| && consumerBarrier.cursors[i] == Least(consumerBarrier.cursors).value;
      Least(consumerBarrier.cursors).value
    }

    /** Consumers that go forward, up to what is published, do no harm. */
    twostate lemma ConsumersMayAdvance()
      requires old(Valid()) && unchanged(this) && unchanged(producerBarrier) && unchanged(ringBuffer.slots)
      requires OnlyForward(old(consumerBarrier.cursors), consumerBarrier.cursors, sequence - 1)
      ensures Valid() && old(Rear()) <= Rear()
    {
      LeastGrows(old(consumerBarrier.cursors), consumerBarrier.cursors);
    }

    /** The consumers go forward at any time, up to what is published. What they pass, they find in its
        slot. */
    method ConsumersTakeTurn()
      requires Valid()
      modifies consumerBarrier
      ensures Valid() && old(Rear()) <= Rear() && |consumerBarrier.cursors| == |old(consumerBarrier.cursors)|
      ensures forall i, s ::
                0 <= i < |consumerBarrier.cursors| && old(consumerBarrier.cursors)[i] < s <= consumerBarrier.cursors[i]
                ==> s < |log| && ringBuffer.slots[Slot(Size(), s)] == log[s]
    {
      label before:
      consumerBarrier.TakeTurn(producerBarrier.counter);
      ConsumersMayAdvance@before();
      forall i, s | 0 <= i < |consumerBarrier.cursors| && old(consumerBarrier.cursors)[i] < s <= consumerBarrier.cursors[i]
        ensures s < |log| && ringBuffer.slots[Slot(Size(), s)] == log[s]
      {
        LeastIsBelow(old(consumerBarrier.cursors), i);
      }
    }

    /** The claim is decided as if the slowest consumer were looked at on every call, at a moment of the
        call: it is granted exactly if it reuses no slot that was needed at that moment. */
    method NextSequences(n: nat) returns (r: Claim, ghost rear: Sequence)
      requires Valid()
      modifies `sequenceClearOfConsumers, consumerBarrier
      ensures Valid() && old(Rear()) <= rear <= Rear()
      ensures r.Granted? <==> sequence - 1 + n <= rear + Size()
      ensures n > 0 ==> (r.Granted? <==> CanClaim(Size(), sequence - 1, rear, n))
      ensures r.Granted? ==> r.upper == sequence - 1 + n
      ensures r.MissingFreeSlots? ==> r.missing == sequence - 1 + n - rear - Size()
      ensures r == Uncached(Size(), sequence - 1, rear, n)
      ensures sequence - 1 + n <= old(sequenceClearOfConsumers) ==> unchanged(consumerBarrier)
      ensures sequenceClearOfConsumers ==
              if r.Granted? && old(sequenceClearOfConsumers) < r.upper then rear + Size()
              else old(sequenceClearOfConsumers)
      ensures (r, sequenceClearOfConsumers) ==
              Cached(Size(), sequence - 1, old(sequenceClearOfConsumers), rear, n)
    {
      rear := Rear();
      ghost var clear := sequenceClearOfConsumers;
      var nNext := sequence - 1 + n;
      r := Granted(nNext);
      if sequenceClearOfConsumers < nNext {
        var lastPublished := sequence - 1;
        var rearSequenceRead := LoadRear();
        rear := rearSequenceRead;
        var freeSlots := FreeSlots(ringBuffer.slots.Length, lastPublished, rearSequenceRead);
        if freeSlots < n {
          r := MissingFreeSlots(n - freeSlots);
        } else {
          AtLeastTheRear();
          sequenceClearOfConsumers := lastPublished + freeSlots;
        }
      }
      AnswerIsExact(Size(), sequence - 1, clear, rear, n);
    }

    /** The barrier is asked, while the consumers go on. */
    method LoadRear() returns (rear: Sequence)
      requires Valid()
      modifies consumerBarrier
      ensures Valid() && old(Rear()) <= rear <= Rear()
    {
      label before:
      var low := consumerBarrier.GetAfter(sequence - 1);
      ConsumersMayAdvance@before();
      rear := low.value;
    }

    lemma AtLeastTheRear()
      ensures forall i :: 0 <= i < |consumerBarrier.cursors| ==>
                Least(consumerBarrier.cursors).value <= consumerBarrier.cursors[i]
    {
      forall i: nat | i < |consumerBarrier.cursors|
        ensures Least(consumerBarrier.cursors).value <= consumerBarrier.cursors[i]
      {
        LeastIsBelow(consumerBarrier.cursors, i);
      }
    }

    /** Claims slots for the events, writes and publishes them, or reports how many slots are missing.
        The slots of what some consumer still has to read keep their contents. */
    method TryBatchPublish(events: seq<T>) returns (r: Claim, ghost rear: Sequence)
      requires Valid()
      modifies this, ringBuffer.slots, producerBarrier, consumerBarrier
      ensures Valid() && old(Rear()) <= rear <= Rear()
      ensures r.Granted? <==> old(sequence) - 1 + |events| <= rear + Size()
      ensures r.MissingFreeSlots? ==> r.missing == old(sequence) - 1 + |events| - rear - Size()
      ensures r == Uncached(Size(), old(sequence) - 1, rear, |events|)
      ensures r.Granted? ==>
        && sequence == old(sequence) + |events| && r.upper == sequence - 1 && log == old(log) + events
        && ringBuffer.slots[..] == Written(old(ringBuffer.slots[..]), old(sequence), events)
        && forall s :: rear < s < sequence ==>
             ringBuffer.slots[Slot(Size(), s)] ==
             if s < old(sequence) then old(ringBuffer.slots[Slot(Size(), s)]) else events[s - old(sequence)]
      ensures !r.Granted? ==>
        sequence == old(sequence) && log == old(log) && ringBuffer.slots[..] == old(ringBuffer.slots[..])
    {
      ghost var slots := ringBuffer.slots[..];
      r, rear := NextSequences(|events|);
      if r.Granted? {
        ghost var from := sequence;
        ApplyUpdates(events);
        BatchIsWritten(slots, ringBuffer.slots[..], from, events, rear);
      }
    }

    lemma BatchIsWritten(before: seq<T>, after: seq<T>, from: Sequence, events: seq<T>, rear: Sequence)
      requires |before| > 0 && after == Written(before, from, events)
      requires rear < from && from + |events| - 1 <= rear + |before|
      ensures forall s :: rear < s < from + |events| ==>
                after[Slot(|before|, s)] == if s < from then before[Slot(|before|, s)] else events[s - from]
    {
      forall s | rear < s < from + |events|
        ensures after[Slot(|before|, s)] == if s < from then before[Slot(|before|, s)] else events[s - from]
      {
        WrittenSlots(before, from, events, s);
      }
    }

    /** Fills the slots of the batch and publishes it; consumers go forward before and after every write,
        and find every event of the log in its slot. */
    method ApplyUpdates(events: seq<T>)
      requires Valid() && sequence - 1 + |events| <= Rear() + Size()
      modifies this, ringBuffer.slots, producerBarrier, consumerBarrier
      ensures Valid() && old(Rear()) <= Rear()
      ensures sequence == old(sequence) + |events| && log == old(log) + events
      ensures ringBuffer.slots[..] == Written(old(ringBuffer.slots[..]), old(sequence), events)
    {
      var lower, upper := sequence, sequence + |events| - 1;
      var iter := new MutBatchIter<T>(lower, upper, ringBuffer);
      ConsumersTakeTurn();
      for k := 0 to |events|
        invariant Valid() && old(Rear()) <= Rear() && sequence == lower && log == old(log)
        invariant iter.Valid() && iter.ringBuffer == ringBuffer && iter.start == lower && iter.last == upper
        invariant iter.current == lower + k
        invariant ringBuffer.slots[..] == Written(old(ringBuffer.slots[..]), lower, events[..k])
      {
        WriteNext(iter, events[k]);
        WrittenOneMore(old(ringBuffer.slots[..]), lower, events, k);
        ConsumersTakeTurn();
      }
      assert events[..|events|] == events;
      Publish(upper, old(ringBuffer.slots[..]), events);
    }

    /** Puts an event into the next slot of the batch. */
    method WriteNext(iter: MutBatchIter<T>, event: T)
      requires Valid() && iter.Valid() && iter.ringBuffer == ringBuffer && iter.current <= iter.last
      requires sequence <= iter.current <= Rear() + Size()
      modifies iter, ringBuffer.slots
      ensures Valid() && Rear() == old(Rear()) && iter.Valid() && iter.current == old(iter.current) + 1
      ensures ringBuffer.slots[..] == old(ringBuffer.slots[..])[Slot(Size(), old(iter.current)) := event]
    {
      StillShows(ringBuffer.slots[..], log, Rear() + 1, iter.current, event);
      iter.FillNext(event);
    }

    /** Stores the cursor, and moves on; the events must be in their slots. */
    method Publish(upper: Sequence, ghost before: seq<T>, ghost events: seq<T>)
      requires Valid() && upper == sequence - 1 + |events| <= Rear() + Size()
      requires |before| == Size() && ringBuffer.slots[..] == Written(before, sequence, events)
      modifies `sequence, `log, producerBarrier
      ensures Valid() && sequence == upper + 1 && Rear() == old(Rear()) && log == old(log) + events
    {
      AtLeastTheRear();
      WrittenMayJoin(before, log, Rear() + 1, events);
      producerBarrier.Store(upper);
      sequence := upper + 1;
      log := log + events;
    }

    /** Dropping the producer announces where the consumers stop, and then waits for all of them. */
    method Drop()
      requires Valid()
      modifies shutdownAtSequence, consumerHandles
      ensures shutdownAtSequence.counter == sequence == producerBarrier.counter + 1
      ensures forall h :: h in consumerHandles ==> h.joinHandle.None?
    {
      shutdownAtSequence.Store(sequence);
      for i := 0 to |consumerHandles|
        invariant shutdownAtSequence.counter == sequence == producerBarrier.counter + 1 && sequence >= 0
        invariant forall k :: 0 <= k < i ==> consumerHandles[k].joinHandle.None?
      {
        consumerHandles[i].Join(shutdownAtSequence);
      }
    }
  }
}
