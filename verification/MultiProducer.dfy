/** The producer of the multi-producer disruptor as the code has it, a handle with a cached bound and a
    compare-and-swap loop.

    The other actors take their turns between any two accesses to shared memory. What they do in each
    turn is given as a script, which the handle cannot see. */
module MultiProducers {
  import opened Wrappers
  import opened Indexing
  import opened Availability
  import opened Cursors
  import opened Rings
  import opened MultiBarrier
  import opened Moments

  /** A turn of the others: consumer `i` passes up to `passed[i]` events, and rivals claim up to `claims`
      sequences, write events and publish sequences. */
  datatype Turn<T> = Turn(passed: seq<nat>, claims: nat, writes: seq<(Sequence, T)>, flips: seq<Sequence>)

  /** What the handles share, and the other actors that work on it. */
  class Disruptor<T> {
    const ringBuffer: RingBuffer<T>
    const producerBarrier: MultiProducerBarrier
    /** The cursors of the last group of consumers. */
    var cursors: seq<Sequence>
    const shutdownAtSequence: Cursor
    const consumerHandles: seq<ConsumerHandle>
    /** The number of live handles, and the handles. */
    var counter: int
    ghost var live: set<MultiProducer<T>>
    const turns: seq<Turn<T>>
    var turn: nat
    var mine: seq<bool>
    ghost var log: seq<Option<T>>
    /** All moments so far at which somebody has had a turn. */
    ghost var past: set<Moment<T>>
    /** How many exchanges of the thread of the handle have failed. */
    ghost var lost: nat

    constructor (
        ringBuffer: RingBuffer<T>, producerBarrier: MultiProducerBarrier, shutdownAtSequence: Cursor,
        consumerHandles: seq<ConsumerHandle>, consumers: nat, turns: seq<Turn<T>>)
      requires ringBuffer.Valid() && producerBarrier.Valid() && ringBuffer.slots.Length == producerBarrier.size
      requires producerBarrier.counts == seq(producerBarrier.size, _ => 0)
      requires (ringBuffer.slots as object) != producerBarrier.available
      requires consumers > 0 && producerBarrier.cursor.counter == NONE && producerBarrier.cursor != shutdownAtSequence
      ensures Valid() && counter == 1 && live == {}
      ensures this.shutdownAtSequence == shutdownAtSequence && this.consumerHandles == consumerHandles
      ensures Now() == Moment(0, NONE, seq(consumers, _ => NONE), [], [])
      ensures this.ringBuffer == ringBuffer && this.producerBarrier == producerBarrier && this.turns == turns
    {
      this.ringBuffer := ringBuffer;
      this.producerBarrier := producerBarrier;
      this.turns := turns;
      cursors := seq(consumers, _ => NONE);
      this.shutdownAtSequence := shutdownAtSequence;
      this.consumerHandles := consumerHandles;
      counter, live, turn, mine, log, lost := 1, {}, 0, [], [], 0;
      past := {Moment(0, NONE, seq(consumers, _ => NONE), [], [])};
      new;
      StartIsOk(Size(), Now(), ringBuffer.slots[..], producerBarrier.counts);
    }

    ghost function Size(): nat {
      ringBuffer.slots.Length
    }

    ghost function Now(): Moment<T>
      reads this, producerBarrier.cursor
    {
      Moment(turn, producerBarrier.cursor.counter, cursors, mine, log)
    }

    ghost function View(): Memory<T>
      reads this, producerBarrier.cursor, producerBarrier, ringBuffer.slots
    {
      Memory(Now(), ringBuffer.slots[..], producerBarrier.counts)
    }

    ghost predicate Wellformed()
      reads producerBarrier, producerBarrier.available
    {
      && ringBuffer.Valid() && producerBarrier.Valid() && ringBuffer.slots.Length == producerBarrier.size
      && (ringBuffer.slots as object) != producerBarrier.available && producerBarrier.cursor != shutdownAtSequence
    }

    /** Holds also in the middle of a turn. What was in the log at any moment is still there. */
    ghost predicate Good()
      reads this, producerBarrier.cursor, producerBarrier, producerBarrier.available, ringBuffer.slots
    {
      Wellformed() && View().Ok(Size()) && forall m :: m in past ==> StaysCommitted(m, Now())
    }

    ghost predicate Valid()
      reads this, producerBarrier.cursor, producerBarrier, producerBarrier.available, ringBuffer.slots
    {
      Good() && turn <= |turns| && Now() in past
    }

    /** The thread of the handle has claimed `lower..upper` and published nothing of it. */
    ghost predicate Holds(lower: Sequence, upper: Sequence)
      reads this, producerBarrier.cursor
    {
      forall s :: lower <= s <= upper ==> IsHeld(Now(), s)
    }

    /** Rivals neither write nor publish anything. */
    ghost predicate Peaceful() {
      forall k :: 0 <= k < |turns| ==> turns[k].writes == [] && turns[k].flips == []
    }

    twostate predicate NothingWritten()
      reads producerBarrier, producerBarrier.available, ringBuffer.slots
    {
      && ringBuffer.slots[..] == old(ringBuffer.slots[..])
      && producerBarrier.counts == old(producerBarrier.counts)
      && producerBarrier.available[..] == old(producerBarrier.available[..])
    }

    /** The others take a turn, as far as the protocol lets them. What this handle has claimed and not
        published is not theirs to write or to publish. */
    method Others()
      requires Valid()
      modifies `turn, `cursors, `mine, `log, `past, producerBarrier.cursor
      modifies ringBuffer.slots, producerBarrier.available, producerBarrier`counts
      ensures Valid() && old(past) <= past && Later(old(Now()), Now()) && KeepsHeld(old(View()), View())
      ensures Peaceful() ==> NothingWritten()
    {
      if turn < |turns| {
        ghost var start := View();
        GoOn(turns[turn].passed, turns[turn].claims);
        ghost var between := View();
        RivalsAct(turns[turn].writes, turns[turn].flips);
        ByOthersStill(start, between, View());
        turn := turn + 1;
        past := past + {Now()};
      }
    }

    method GoOn(passed: seq<nat>, claims: nat)
      requires Good()
      modifies `cursors, `mine, `log, producerBarrier.cursor
      ensures Good() && ByOthers(old(View()), View())
    {
      ConsumersPass(passed);
      RivalsClaim(claims);
    }

    /** Consumers go forward as far as the bits say that everything is published. */
    method ConsumersPass(passed: seq<nat>)
      requires Good()
      modifies `cursors
      ensures Good() && Advanced(old(Now()), Now(), 0, NONE) && |cursors| == |old(cursors)|
      ensures forall i :: 0 <= i < |cursors| ==>
                var n := if i < |passed| then passed[i] else 0;
                cursors[i] == old(cursors)[i] + if PublishedUpTo(log, old(cursors)[i] + n) then n else 0
    {
      for i := 0 to |cursors|
        invariant Good() && Advanced(old(Now()), Now(), 0, NONE) && |cursors| == |old(cursors)|
        invariant forall k :: i <= k < |cursors| ==> cursors[k] == old(cursors)[k]
        invariant forall k :: 0 <= k < i ==>
                    var n := if k < |passed| then passed[k] else 0;
                    cursors[k] == old(cursors)[k] + if PublishedUpTo(log, old(cursors)[k] + n) then n else 0
      {
        if i < |passed| {
          ConsumerPasses(i, passed[i]);
        }
      }
    }

    /** What a consumer passes is published, and it finds the event of the log in the slot. */
    method ConsumerPasses(i: nat, n: nat)
      requires Good() && i < |cursors|
      modifies `cursors
      ensures Good() && Advanced(old(Now()), Now(), 0, NONE)
      ensures cursors == if PublishedUpTo(log, old(cursors)[i] + n) then old(cursors)[i := old(cursors)[i] + n] else old(cursors)
      ensures forall s :: old(cursors)[i] < s <= cursors[i] ==>
                s < |log| && log[s] == Some(ringBuffer.slots[Slot(Size(), s)])
    {
      var available := producerBarrier.GetAfter(cursors[i] + 1);
      ScanFindsPublished(Size(), View(), producerBarrier.available[..], i, available);
      if cursors[i] + n <= available {
        PassingIsOk(Size(), View(), i, cursors[i] + n);
        cursors := cursors[i := cursors[i] + n];
      }
    }

    /** Rivals claim, if the ring has room for it. */
    method RivalsClaim(claims: nat)
      requires Good()
      modifies `mine, `log, producerBarrier.cursor
      ensures Good() && Advanced(old(Now()), Now(), 0, NONE)
      ensures Now() ==
              if old(Now()).Clear(Size(), old(Now()).claimed + claims) then MoreClaimed(old(Now()), claims, false)
              else old(Now())
    {
      if forall i :: 0 <= i < |cursors| ==>
        FreeSlots(ringBuffer.slots.Length, producerBarrier.cursor.counter, cursors[i]) >= claims {
        ClaimIsOk(Size(), View(), claims, false);
        producerBarrier.cursor.Store(producerBarrier.cursor.counter + claims);
        mine := mine + seq(claims, _ => false);
        log := log + seq(claims, _ => None);
      }
    }

    /** A rival has claimed `s` and not published it. */
    predicate IsRivals(s: Sequence)
      requires Good()
      reads this, producerBarrier.cursor, producerBarrier, producerBarrier.available, ringBuffer.slots
      ensures IsRivals(s) <==> 0 <= s < |mine| && !mine[s] && !IsPublished(log, s)
    {
      OldIsPublished(Size(), Now(), s);
      var claimed := producerBarrier.cursor.counter;
      if 0 <= s && claimed - producerBarrier.size < s <= claimed then
        BitTells(Size(), View(), producerBarrier.available[..], s);
        !mine[s] && !Agrees(producerBarrier.available[..], producerBarrier.size, s)
      else false
    }

    method RivalsAct(writes: seq<(Sequence, T)>, flips: seq<Sequence>)
      requires Good()
      modifies `log, ringBuffer.slots, producerBarrier.available, producerBarrier`counts
      ensures Good() && ByOthers(old(View()), View())
      ensures writes == [] && flips == [] ==> NothingWritten()
    {
      ghost var start := View();
      RivalsWrite(writes);
      ghost var between := View();
      RivalsPublish(flips);
      ByOthersStill(start, between, View());
    }

    method RivalsWrite(writes: seq<(Sequence, T)>)
      requires Good()
      modifies ringBuffer.slots
      ensures Good() && KeepsHeld(old(View()), View())
      ensures writes == [] ==> ringBuffer.slots[..] == old(ringBuffer.slots[..])
    {
      for k := 0 to |writes|
        invariant Good() && KeepsHeld(old(View()), View())
        invariant writes == [] ==> ringBuffer.slots[..] == old(ringBuffer.slots[..])
      {
        var at := writes[k].0;
        if IsRivals(at) {
          WriteIsOk(Size(), View(), at, writes[k].1);
          RivalIsApart(Size(), Now(), at);
          ringBuffer.Put(at, writes[k].1);
        }
      }
    }

    method RivalsPublish(flips: seq<Sequence>)
      requires Good()
      modifies `log, producerBarrier.available, producerBarrier`counts
      ensures Good() && ByOthers(old(View()), View())
      ensures flips == [] ==> NothingWritten()
    {
      for k := 0 to |flips|
        invariant Good() && ByOthers(old(View()), View())
        invariant flips == [] ==> NothingWritten()
      {
        if IsRivals(flips[k]) {
          ghost var before := View();
          RivalPublishes(flips[k]);
          ByOthersStill(old(View()), before, View());
        }
      }
    }

    method RivalPublishes(at: Sequence)
      requires Good() && IsRivals(at)
      modifies `log, producerBarrier.available, producerBarrier`counts
      ensures Good() && ByOthers(old(View()), View())
    {
      RivalPublicationIsOk(Size(), View(), at);
      producerBarrier.Publish(at);
      log := Published(Now(), at, [ringBuffer.slots[Slot(Size(), at)]]).log;
    }

    /** The bits of a batch are flipped, which has been written. */
    method PublishHeld(lower: Sequence, n: nat, ghost events: seq<T>)
      requires Valid() && n == |events| && Holds(lower, lower + n - 1) && 0 <= lower <= Now().claimed + 1
      requires Contain(ringBuffer.slots[..], lower, events)
      modifies `log, `past, producerBarrier.available, producerBarrier`counts
      ensures Valid() && Since(old(Now()), Now(), lower, lower + n - 1) && Logged(log, lower, events)
      ensures forall s :: lower <= s < lower + n ==> producerBarrier.counts[Slot(Size(), s)] == Round(Size(), s) + 1
      ensures producerBarrier.counts == CountEach(old(producerBarrier.counts), Size(), lower, n)
    {
      ghost var after := AfterPublication(Size(), View(), lower, events);
      HeldIsPublished(Size(), View(), lower, events);
      producerBarrier.PublishRange(lower, n);
      log := after.now.log;
      past := past + {Now()};
      assert View() == after;
    }

    /** A turn of the others while the handle has `lower..upper`: what was written stays. */
    method WaitHolding(lower: Sequence, upper: Sequence, ghost written: seq<T>, ghost start: Moment<T>)
      requires Valid() && Holds(lower, upper) && Later(start, Now())
      requires Contain(ringBuffer.slots[..], lower, written) && lower + |written| <= upper + 1
      modifies `turn, `cursors, `mine, `log, `past, producerBarrier.cursor
      modifies ringBuffer.slots, producerBarrier.available, producerBarrier`counts
      ensures Valid() && Holds(lower, upper) && Later(start, Now())
      ensures Contain(ringBuffer.slots[..], lower, written)
      ensures Peaceful() ==> NothingWritten()
    {
      ghost var before := View();
      Others();
      LaterStill(start, before.now, Now());
      HeldStays(before, View(), lower, upper, written);
    }

    /** Puts an event into the next slot of the batch. */
    method WriteNext(iter: MutBatchIter<T>, lower: Sequence, events: seq<T>, k: nat)
      requires Valid() && Holds(lower, iter.last) && k < |events|
      requires iter.start == lower && iter.Valid() && iter.ringBuffer == ringBuffer
      requires iter.current == lower + k && iter.last == lower + |events| - 1
      requires Contain(ringBuffer.slots[..], lower, events[..k])
      modifies iter, ringBuffer.slots
      ensures Valid() && iter.Valid() && iter.current == lower + k + 1
      ensures Contain(ringBuffer.slots[..], lower, events[..k + 1])
      ensures ringBuffer.slots[..] == old(ringBuffer.slots[..])[Slot(Size(), lower + k) := events[k]]
    {
      ghost var before := ringBuffer.slots[..];
      assert IsHeld(Now(), lower + k);
      WriteIsOk(Size(), View(), lower + k, events[k]);
      OwnRangeFits(lower, iter.last);
      iter.FillNext(events[k]);
      OneMoreEvent(before, ringBuffer.slots[..], lower, events, k);
    }

    lemma OwnRangeFits(lower: Sequence, upper: Sequence)
      requires Valid() && Holds(lower, upper)
      ensures upper - lower < Size()
    {
      if lower <= upper {
        assert IsHeld(Now(), lower) && IsHeld(Now(), upper);
        UnpublishedIsRecent(Size(), Now(), lower);
      }
    }

    /** The first `k` events have been written since `start`. */
    ghost predicate HasWritten(iter: MutBatchIter<T>, lower: Sequence, events: seq<T>, k: nat, start: Memory<T>)
      reads this, producerBarrier.cursor, producerBarrier, producerBarrier.available, ringBuffer.slots, iter
    {
      && Valid() && Holds(lower, iter.last) && Later(start.now, Now()) && k <= |events| && |start.slots| == Size()
      && iter.start == lower && iter.Valid() && iter.ringBuffer == ringBuffer
      && iter.current == lower + k && iter.last == lower + |events| - 1
      && Contain(ringBuffer.slots[..], lower, events[..k])
      && (Peaceful() ==>
            && producerBarrier.counts == start.counts
            && ringBuffer.slots[..] == Written(start.slots, lower, events[..k]))
    }

    /** A turn of the others, and then the next write. */
    method WriteAmidOthers(iter: MutBatchIter<T>, lower: Sequence, events: seq<T>, k: nat, ghost start: Memory<T>)
      requires HasWritten(iter, lower, events, k, start) && k < |events|
      modifies iter
      modifies `turn, `cursors, `mine, `log, `past, producerBarrier.cursor
      modifies ringBuffer.slots, producerBarrier.available, producerBarrier`counts
      ensures HasWritten(iter, lower, events, k + 1, start)
    {
      WaitHolding(lower, iter.last, events[..k], start.now);
      WriteNext(iter, lower, events, k);
      WrittenOneMore(start.slots, lower, events, k);
    }

    method WriteAll(iter: MutBatchIter<T>, lower: Sequence, events: seq<T>)
      requires Valid() && Holds(lower, iter.last)
      requires iter.start == lower && iter.Valid() && iter.ringBuffer == ringBuffer
      requires iter.current == lower && iter.last == lower + |events| - 1
      modifies iter
      modifies `turn, `cursors, `mine, `log, `past, producerBarrier.cursor
      modifies ringBuffer.slots, producerBarrier.available, producerBarrier`counts
      ensures Valid() && Holds(lower, iter.last) && Later(old(Now()), Now())
      ensures Contain(ringBuffer.slots[..], lower, events)
      ensures Peaceful() ==>
        && producerBarrier.counts == old(producerBarrier.counts)
        && ringBuffer.slots[..] == Written(old(ringBuffer.slots[..]), lower, events)
    {
      ghost var start := View();
      for k := 0 to |events|
        invariant HasWritten(iter, lower, events, k, start)
      {
        WriteAmidOthers(iter, lower, events, k, start);
      }
      assert events[..|events|] == events;
    }

    /** Writes and publishes a batch that the handle has claimed. */
    method WriteAndPublish(lower: Sequence, upper: Sequence, events: seq<T>, ghost bound: Sequence)
      requires Now().Clear(Size(), bound)
      requires Valid() && Holds(lower, upper) && upper == lower + |events| - 1 && 0 <= lower <= Now().claimed + 1
      modifies `turn, `cursors, `mine, `log, `past, producerBarrier.cursor
      modifies ringBuffer.slots, producerBarrier.available, producerBarrier`counts
      ensures Valid() && HasPublished(old(View()), View(), lower, events, Peaceful()) && Now().Clear(Size(), bound)
    {
      ghost var start := Now();
      OwnRangeFits(lower, upper);
      var iter := new MutBatchIter<T>(lower, upper, ringBuffer);
      WriteAll(iter, lower, events);
      PublishAll(lower, |events|, events, start);
      if Peaceful() {
        BatchIsNothingElse(old(View()), View(), lower, events);
      }
      SinceClear(start, Now(), lower, upper, Size(), bound);
    }

    /** Flips the bits of the batch, after another turn of the others. */
    method PublishAll(lower: Sequence, n: nat, ghost events: seq<T>, ghost start: Moment<T>)
      requires Valid() && n == |events| && Holds(lower, lower + n - 1)
      requires 0 <= lower <= Now().claimed + 1
      requires Contain(ringBuffer.slots[..], lower, events) && Later(start, Now())
      modifies `turn, `cursors, `mine, `log, `past, producerBarrier.cursor
      modifies ringBuffer.slots, producerBarrier.available, producerBarrier`counts
      ensures Valid() && Since(start, Now(), lower, lower + n - 1)
      ensures Logged(log, lower, events) && Contain(ringBuffer.slots[..], lower, events)
      ensures forall s :: lower <= s < lower + n ==>
                producerBarrier.counts[Slot(Size(), s)] == Round(Size(), s) + 1
      ensures Peaceful() ==>
        && ringBuffer.slots[..] == old(ringBuffer.slots[..])
        && producerBarrier.counts ==
           CountEach(old(producerBarrier.counts), Size(), lower, n)
    {
      ghost var first := Now();
      WaitHolding(lower, lower + n - 1, events, first);
      ghost var before := Now();
      LaterStill(start, first, before);
      PublishHeld(lower, n, events);
      SinceStill(start, before, Now(), lower, lower + n - 1);
    }

    /** An attempt to claim the sequences after `current` for the thread of the handle. */
    method TryClaim(current: Sequence, n: nat) returns (r: Exchange)
      requires Valid() && Now().Clear(Size(), current + n)
      modifies `mine, `log, `past, `lost, producerBarrier.cursor
      ensures Valid() && old(past) <= past
      ensures if old(producerBarrier.cursor.counter) == current
              then r == Exchanged(current) && Now() == Claimed(old(Now()), n) && lost == old(lost)
              else r == Lost(old(producerBarrier.cursor.counter)) && Now() == old(Now()) && lost == old(lost) + 1
    {
      if producerBarrier.cursor.counter == current {
        ClaimIsOk(Size(), View(), n, true);
      }
      r := producerBarrier.cursor.CompareExchange(current, current + n);
      if r.Exchanged? {
        mine := mine + seq(n, _ => true);
        log := log + seq(n, _ => None);
        past := past + {Now()};
      } else {
        lost := lost + 1;
      }
    }

    /** The fold over the consumers, with turns of the others between the loads. Its result is between
        the true rear at the start and the true rear at the end. */
    method LoadRear() returns (rear: Sequence)
      requires Valid()
      modifies `turn, `cursors, `mine, `log, `past, producerBarrier.cursor
      modifies ringBuffer.slots, producerBarrier.available, producerBarrier`counts
      ensures Valid() && old(past) <= past && Later(old(Now()), Now())
      ensures old(Now()).Rear() <= rear && Now().Clear(Size(), rear + Size())
      ensures Peaceful() ==> NothingWritten()
    {
      ghost var start := Now();
      var low := Top;
      for i := 0 to |cursors|
        invariant Valid() && old(past) <= past && Later(start, Now())
        invariant Peaceful() ==> NothingWritten()
        invariant low.Top? <==> i == 0
        invariant low.Fin? ==> start.Rear() <= low.value
        invariant forall k :: 0 <= k < i ==> low.value <= cursors[k]
      {
        var value := LoadCursor(i, start);
        low := Lower(low, value);
      }
      rear := low.value;
    }

    method LoadCursor(i: nat, ghost start: Moment<T>) returns (value: Sequence)
      requires Valid() && i < |cursors| && start.cursors != [] && Later(start, Now())
      modifies `turn, `cursors, `mine, `log, `past, producerBarrier.cursor
      modifies ringBuffer.slots, producerBarrier.available, producerBarrier`counts
      ensures Valid() && old(past) <= past && Later(start, Now()) && |cursors| == |old(cursors)|
      ensures start.Rear() <= value <= cursors[i]
      ensures forall k :: 0 <= k < |cursors| ==> old(cursors)[k] <= cursors[k]
      ensures Peaceful() ==> NothingWritten()
    {
      ghost var before := Now();
      RearGrows(start, before);
      assert before.cursors[i] in before.cursors;
      value := cursors[i];
      Others();
      LaterStill(start, before, Now());
    }
  }

  class MultiProducer<T> {
    const disruptor: Disruptor<T>
    var claimedSequence: Sequence
    var sequenceClearOfConsumers: Sequence

    ghost predicate Valid()
      reads this, disruptor, disruptor.producerBarrier.cursor
      reads disruptor.producerBarrier, disruptor.producerBarrier.available, disruptor.ringBuffer.slots
    {
      && disruptor.Valid() && disruptor.Now().Clear(disruptor.Size(), sequenceClearOfConsumers)
      && this in disruptor.live && disruptor.counter == |disruptor.live|
    }

    constructor (disruptor: Disruptor<T>)
      requires disruptor.Valid() && disruptor.producerBarrier.cursor.counter == NONE
      requires disruptor.counter == 1 && disruptor.live == {}
      modifies disruptor`live
      ensures Valid() && this.disruptor == disruptor && claimedSequence == NONE && disruptor.live == {this}
      ensures sequenceClearOfConsumers == disruptor.Size() - 1
    {
      this.disruptor := disruptor;
      claimedSequence := NONE;
      sequenceClearOfConsumers := disruptor.ringBuffer.slots.Length - 1;
      new;
      disruptor.live := {this};
    }

    /** Claims the next `n` sequences.

        A claim that is granted takes effect at its exchange: the `n` sequences are those right after
        everything that anybody has claimed before, and no consumer is more than a lap behind them.
        A claim that is refused was hopeless at a moment during the call. The number of missing slots is at
        most what was missing then, and at least what is missing still. The cached bound is renewed only
        by a look of this call. Each exchange that fails costs the others a turn. */
    method NextSequences(n: nat) returns (r: Claim, ghost asked: Moment<T>)
      requires Valid()
      modifies `claimedSequence, `sequenceClearOfConsumers
      modifies disruptor`turn, disruptor`cursors, disruptor`mine, disruptor`log, disruptor`past, disruptor`lost
      modifies disruptor.producerBarrier.cursor, disruptor.producerBarrier.available, disruptor.producerBarrier`counts
      modifies disruptor.ringBuffer.slots
      ensures Valid() && disruptor.lost - old(disruptor.lost) <= disruptor.turn - old(disruptor.turn)
      ensures disruptor.Peaceful() ==> disruptor.NothingWritten()
      ensures IsRenewed(old(disruptor.Now()), old(sequenceClearOfConsumers))
      ensures asked in disruptor.past
      ensures IsAnswered(old(disruptor.Now()), asked, disruptor.Now(), n, r, disruptor.Size())
      ensures if r.Granted? then claimedSequence == r.upper <= sequenceClearOfConsumers
              else claimedSequence == old(claimedSequence)
    {
      ghost var start := disruptor.Now();
      var current := disruptor.producerBarrier.cursor.counter;
      asked := WaitAfterLoad(start);
      while true
        invariant Valid() && asked in disruptor.past && claimedSequence == old(claimedSequence)
        invariant Asking(start, asked, disruptor.Now(), current, disruptor.Size())
        invariant disruptor.lost - old(disruptor.lost) <= asked.turn - start.turn
        invariant disruptor.Peaceful() ==> disruptor.NothingWritten()
        invariant IsRenewed(start, old(sequenceClearOfConsumers))
        decreases |disruptor.turns| - asked.turn
      {
        var answer, found, at := Attempt(current, n, start, asked);
        if answer.Some? {
          return answer.value, at;
        }
        current, asked := found, at;
      }
    }

    /** One iteration of the loop: an answer, or the last claim that was found instead of `current`, at a
        later moment. */
    method Attempt(current: Sequence, n: nat, ghost start: Moment<T>, ghost asked: Moment<T>)
        returns (answer: Option<Claim>, found: Sequence, ghost at: Moment<T>)
      requires Valid() && asked in disruptor.past
      requires Asking(start, asked, disruptor.Now(), current, disruptor.Size())
      modifies `claimedSequence, `sequenceClearOfConsumers
      modifies disruptor`turn, disruptor`cursors, disruptor`mine, disruptor`log, disruptor`past, disruptor`lost
      modifies disruptor.producerBarrier.cursor, disruptor.producerBarrier.available, disruptor.producerBarrier`counts
      modifies disruptor.ringBuffer.slots
      ensures Valid() && at in disruptor.past && asked.turn <= disruptor.turn
      ensures IsRenewed(start, old(sequenceClearOfConsumers))
      ensures disruptor.Peaceful() ==> disruptor.NothingWritten()
      ensures disruptor.lost == old(disruptor.lost) + if answer.None? then 1 else 0
      ensures match answer
        case Some(r) =>
          && IsAnswered(start, at, disruptor.Now(), n, r, disruptor.Size())
          && (if r.Granted? then claimedSequence == r.upper <= sequenceClearOfConsumers
              else claimedSequence == old(claimedSequence))
        case None =>
          && Asking(start, at, disruptor.Now(), found, disruptor.Size())
          && claimedSequence == old(claimedSequence) && asked.turn < at.turn
    {
      found, at := current, asked;
      var missing := MakeRoom(current, n, start, asked);
      if missing > 0 {
        return Some(MissingFreeSlots(missing)), found, at;
      }
      answer, found, at := TryExchange(current, n, start, asked);
    }

    /** The compare-and-swap, when there is room. */
    method TryExchange(current: Sequence, n: nat, ghost start: Moment<T>, ghost asked: Moment<T>)
        returns (answer: Option<Claim>, found: Sequence, ghost at: Moment<T>)
      requires Valid() && Asking(start, asked, disruptor.Now(), current, disruptor.Size())
      requires current + n <= sequenceClearOfConsumers
      modifies `claimedSequence
      modifies disruptor`turn, disruptor`cursors, disruptor`mine, disruptor`log, disruptor`past, disruptor`lost
      modifies disruptor.producerBarrier.cursor, disruptor.producerBarrier.available, disruptor.producerBarrier`counts
      modifies disruptor.ringBuffer.slots
      ensures Valid() && old(disruptor.past) <= disruptor.past && at == old(disruptor.Now())
      ensures disruptor.Peaceful() ==> disruptor.NothingWritten()
      ensures disruptor.lost == old(disruptor.lost) + if answer.None? then 1 else 0
      ensures match answer
        case Some(answer) =>
          && answer == Granted(current + n) && claimedSequence == current + n
          && IsGranted(start, at, disruptor.Now(), n, current + n, disruptor.Size())
        case None =>
          && Asking(start, at, disruptor.Now(), found, disruptor.Size())
          && claimedSequence == old(claimedSequence) && asked.turn < at.turn
    {
      at := disruptor.Now();
      var exchange := disruptor.TryClaim(current, n);
      match exchange
      case Exchanged(_) =>
        found := current;
        claimedSequence := current + n;
        answer := Some(Granted(current + n));
      case Lost(previous) =>
        found := previous;
        answer := None;
        at := WaitAfterLoad(start);
    }

    /** The cached bound has changed only by a look at the consumers after `start`. */
    ghost predicate IsRenewed(start: Moment<T>, before: Sequence)
      reads this
    {
      sequenceClearOfConsumers == before
      || (&& start.cursors != [] && start.Rear() + disruptor.Size() <= sequenceClearOfConsumers
          && before < sequenceClearOfConsumers)
    }

    /** The others take their turn after a look at the last claim. */
    method WaitAfterLoad(ghost start: Moment<T>) returns (ghost asked: Moment<T>)
      requires Valid() && Later(start, disruptor.Now())
      modifies disruptor`turn, disruptor`cursors, disruptor`mine, disruptor`log, disruptor`past
      modifies disruptor.producerBarrier.cursor, disruptor.producerBarrier.available, disruptor.producerBarrier`counts
      modifies disruptor.ringBuffer.slots
      ensures Valid() && old(disruptor.past) <= disruptor.past && asked == old(disruptor.Now())
      ensures Asking(start, asked, disruptor.Now(), asked.claimed, disruptor.Size())
      ensures disruptor.Peaceful() ==> disruptor.NothingWritten()
    {
      asked := disruptor.Now();
      Wait(start, asked);
    }

    /** Looks at the consumers unless the cached bound suffices; `missing` is zero if there is room. */
    method MakeRoom(current: Sequence, n: nat, ghost start: Moment<T>, ghost asked: Moment<T>) returns (missing: nat)
      requires Valid() && Asking(start, asked, disruptor.Now(), current, disruptor.Size())
      modifies `sequenceClearOfConsumers
      modifies disruptor`turn, disruptor`cursors, disruptor`mine, disruptor`log, disruptor`past
      modifies disruptor.producerBarrier.cursor, disruptor.producerBarrier.available, disruptor.producerBarrier`counts
      modifies disruptor.ringBuffer.slots
      ensures Valid() && old(disruptor.past) <= disruptor.past
      ensures Asking(start, asked, disruptor.Now(), current, disruptor.Size())
      ensures IsRenewed(start, old(sequenceClearOfConsumers))
      ensures disruptor.Peaceful() ==> disruptor.NothingWritten()
      ensures if missing == 0 then current + n <= sequenceClearOfConsumers
              else n - FreeSlots(disruptor.Size(), current, disruptor.Now().Rear())
                   <= missing <= n - FreeSlots(disruptor.Size(), current, asked.Rear())
    {
      missing := 0;
      if sequenceClearOfConsumers < current + n {
        var rearSequenceRead := LoadRear(start, asked);
        var freeSlots := FreeSlots(disruptor.ringBuffer.slots.Length, current, rearSequenceRead);
        if freeSlots < n {
          return n - freeSlots;
        }
        sequenceClearOfConsumers := current + freeSlots;
        Wait(start, asked);
      }
    }

    /** The others take their turn between two accesses. */
    method Wait(ghost a: Moment<T>, ghost b: Moment<T>)
      requires Valid() && Later(a, disruptor.Now()) && Later(b, disruptor.Now())
      modifies disruptor`turn, disruptor`cursors, disruptor`mine, disruptor`log, disruptor`past
      modifies disruptor.producerBarrier.cursor, disruptor.producerBarrier.available, disruptor.producerBarrier`counts
      modifies disruptor.ringBuffer.slots
      ensures Valid() && old(disruptor.past) <= disruptor.past
      ensures Later(a, disruptor.Now()) && Later(b, disruptor.Now())
      ensures disruptor.Peaceful() ==> disruptor.NothingWritten()
    {
      ghost var before := disruptor.Now();
      disruptor.Others();
      LaterStill(a, before, disruptor.Now());
      LaterStill(b, before, disruptor.Now());
      StillClear(before, disruptor.Now(), disruptor.Size(), sequenceClearOfConsumers);
    }

    /** The same for the loads of the consumers. */
    method LoadRear(ghost a: Moment<T>, ghost b: Moment<T>) returns (rear: Sequence)
      requires Valid() && Later(a, disruptor.Now()) && Later(b, disruptor.Now())
      requires a.cursors != [] && b.cursors != []
      modifies disruptor`turn, disruptor`cursors, disruptor`mine, disruptor`log, disruptor`past
      modifies disruptor.producerBarrier.cursor, disruptor.producerBarrier.available, disruptor.producerBarrier`counts
      modifies disruptor.ringBuffer.slots
      ensures Valid() && old(disruptor.past) <= disruptor.past
      ensures Later(a, disruptor.Now()) && Later(b, disruptor.Now())
      ensures a.Rear() <= rear && b.Rear() <= rear <= disruptor.Now().Rear()
      ensures disruptor.Now().Clear(disruptor.Size(), rear + disruptor.Size())
      ensures disruptor.Peaceful() ==> disruptor.NothingWritten()
    {
      ghost var before := disruptor.Now();
      rear := disruptor.LoadRear();
      RearGrows(a, before);
      RearGrows(b, before);
      BelowLeast(disruptor.cursors, rear);
      LaterStill(a, before, disruptor.Now());
      LaterStill(b, before, disruptor.Now());
      StillClear(before, disruptor.Now(), disruptor.Size(), sequenceClearOfConsumers);
    }

    /** Another handle starts with the bound 0, which is right from the first moment on. */
    method Clone() returns (handle: MultiProducer<T>)
      requires Valid()
      modifies disruptor`counter, disruptor`live
      ensures Valid() && disruptor.live == old(disruptor.live) + {handle}
      ensures fresh(handle) && handle.disruptor == disruptor && handle.Valid()
      ensures handle.claimedSequence == NONE && handle.sequenceClearOfConsumers == 0
    {
      disruptor.counter := disruptor.counter + 1;
      handle := new MultiProducer<T>.Cloned(disruptor);
      disruptor.live := disruptor.live + {handle};
    }

    constructor Cloned(disruptor: Disruptor<T>)
      ensures this.disruptor == disruptor && claimedSequence == NONE && sequenceClearOfConsumers == 0
    {
      this.disruptor := disruptor;
      claimedSequence := NONE;
      sequenceClearOfConsumers := 0;
    }

    /** The last handle, and no other, announces where the consumers stop and waits for them. */
    method Drop()
      requires Valid()
      modifies disruptor`counter, disruptor`live, disruptor.shutdownAtSequence, disruptor.consumerHandles
      ensures disruptor.live == old(disruptor.live) - {this} && disruptor.counter == |disruptor.live|
      ensures disruptor.live == {} ==>
        && disruptor.shutdownAtSequence.counter == disruptor.Now().claimed + 1
        && forall h :: h in disruptor.consumerHandles ==> h.joinHandle.None?
      ensures disruptor.live != {} ==>
        unchanged(disruptor.shutdownAtSequence) && unchanged(set h | h in disruptor.consumerHandles)
    {
      var oldCount := disruptor.counter;
      disruptor.counter := oldCount - 1;
      disruptor.live := disruptor.live - {this};
      if oldCount == 1 {
        Close();
      }
    }

    /** The stop sequence first, and then the joins. */
    method Close()
      requires disruptor.Valid()
      modifies disruptor.shutdownAtSequence, disruptor.consumerHandles
      ensures disruptor.shutdownAtSequence.counter == disruptor.Now().claimed + 1
      ensures forall h :: h in disruptor.consumerHandles ==> h.joinHandle.None?
    {
      var sequence := disruptor.producerBarrier.cursor.counter + 1;
      disruptor.shutdownAtSequence.Store(sequence);
      for i := 0 to |disruptor.consumerHandles|
        invariant disruptor.shutdownAtSequence.counter == sequence
        invariant forall k :: 0 <= k < i ==> disruptor.consumerHandles[k].joinHandle.None?
      {
        disruptor.consumerHandles[i].Join(disruptor.shutdownAtSequence);
      }
    }

    /** Fills the slots of what was claimed and flips their bits, while the others go on: rivals claim,
        write and publish, and consumers pass what is published. At every turn of theirs, the slot of a
        published sequence holds its event; so the bits are flipped only once the events are in place. */
    method ApplyUpdates(events: seq<T>) returns (upper: Sequence)
      requires Valid() && 0 <= claimedSequence - |events| + 1 && claimedSequence <= disruptor.Now().claimed
      requires disruptor.Holds(claimedSequence - |events| + 1, claimedSequence)
      modifies disruptor`turn, disruptor`cursors, disruptor`mine, disruptor`log, disruptor`past
      modifies disruptor.producerBarrier.cursor, disruptor.producerBarrier.available, disruptor.producerBarrier`counts
      modifies disruptor.ringBuffer.slots
      ensures Valid() && upper == claimedSequence
      ensures HasPublished(
        old(disruptor.View()), disruptor.View(), upper - |events| + 1, events, disruptor.Peaceful())
    {
      upper := claimedSequence;
      var lower := upper - |events| + 1;
      disruptor.WriteAndPublish(lower, upper, events, sequenceClearOfConsumers);
    }

    /** If the claim is granted, the events are published at the sequences that were claimed. If it is
        refused, this handle has claimed and published nothing. If rivals neither write nor publish, what a
        consumer may still have to read is as it was. */
    method TryBatchPublish(events: seq<T>) returns (r: Claim, ghost asked: Moment<T>, ghost claimed: Memory<T>)
      requires Valid()
      modifies `claimedSequence, `sequenceClearOfConsumers
      modifies disruptor`turn, disruptor`cursors, disruptor`mine, disruptor`log, disruptor`past, disruptor`lost
      modifies disruptor.producerBarrier.cursor, disruptor.producerBarrier.available, disruptor.producerBarrier`counts
      modifies disruptor.ringBuffer.slots
      ensures Valid()
      ensures r.Granted? ==>
        && IsGranted(old(disruptor.Now()), asked, claimed.now, |events|, r.upper, disruptor.Size())
        && HasPublished(claimed, disruptor.View(), r.upper - |events| + 1, events, disruptor.Peaceful())
      ensures r.Granted? && disruptor.Peaceful() ==>
        claimed.slots == old(disruptor.ringBuffer.slots[..]) && claimed.counts == old(disruptor.producerBarrier.counts)
      ensures r.MissingFreeSlots? ==>
        && claimedSequence == old(claimedSequence)
        && IsRefused(old(disruptor.Now()), asked, disruptor.Now(), |events|, r.missing, disruptor.Size())
        && (disruptor.Peaceful() ==> disruptor.NothingWritten())
    {
      r, asked := NextSequences(|events|);
      claimed := disruptor.View();
      if r.Granted? {
        ClaimIsHeld(asked, |events|);
        var upper := ApplyUpdates(events);
        assert HasPublished(claimed, disruptor.View(), r.upper - |events| + 1, events, disruptor.Peaceful());
      }
    }

    lemma ClaimIsHeld(asked: Moment<T>, n: nat)
      requires asked.Sane(disruptor.Size()) && disruptor.Now() == Claimed(asked, n)
      requires claimedSequence == disruptor.Now().claimed
      ensures 0 <= claimedSequence - n + 1 && disruptor.Holds(claimedSequence - n + 1, claimedSequence)
    {
    }
  }
}
