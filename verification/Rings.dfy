/** The ring buffer: slots addressed by sequence number, and the iterator over a claimed batch. */
module Rings {
  import opened Wrappers
  import opened Bits
  import opened Indexing

  /** The answer to a claim: the highest sequence claimed, or the number of slots that are missing. */
  datatype Claim = Granted(upper: Sequence) | MissingFreeSlots(missing: int)

  /** The oldest sequence that a publication at `sequence` overwrites. */
  function WrapPoint(size: nat, sequence: Sequence): Sequence {
    sequence - size
  }

  /** The slots a producer may still claim after `producer`, if the slowest consumer is at `rear`. */
  function FreeSlots(size: nat, producer: Sequence, rear: Sequence): int {
    rear - WrapPoint(size, producer)
  }

  /** The slots of the `n` sequences after `producer` are different from each other and from the slots
      of what is claimed and not yet passed by the slowest consumer. */
  ghost predicate CanClaim(size: nat, producer: Sequence, rear: Sequence, n: nat)
    requires size > 0
  {
    forall s, t :: rear < s < t <= producer + n && producer < t ==> Slot(size, s) != Slot(size, t)
  }

  /** There are at least `n` free slots exactly if claiming `n` more sequences reuses no slot that is
      still needed. */
  lemma FreeSlotsAreExact(size: nat, producer: Sequence, rear: Sequence, n: nat)
    requires size > 0 && rear <= producer <= rear + size && n > 0
    ensures FreeSlots(size, producer, rear) >= n <==> CanClaim(size, producer, rear, n)
  {
    if FreeSlots(size, producer, rear) >= n {
      forall s, t | rear < s < t <= producer + n && producer < t
        ensures Slot(size, s) != Slot(size, t)
      {
        DistinctInWindow(size, s, t);
      }
    } else {
      var t := producer + n;
      OneLapOn(size, t - size);
      assert rear < t - size < t && Slot(size, t - size) == Slot(size, t);
    }
  }

  class RingBuffer<T> {
    const slots: array<T>
    const indexMask: nat

    ghost predicate Valid() {
      && 0 < slots.Length <= TWO_TO_THE_64 && IsPowerOfTwo(slots.Length)
      && indexMask == slots.Length - 1
    }

    /** A size that is not a power of two is a panic. */
    constructor (size: nat, eventSource: nat -> T)
      requires IsPowerOfTwo(size) && 0 < size <= TWO_TO_THE_64
      ensures Valid() && fresh(slots) && slots.Length == size
      ensures forall i: nat :: i < size ==> slots[i] == eventSource(i)
    {
      slots := new T[size](i requires i >= 0 => eventSource(i));
      indexMask := size - 1;
    }

    /** The slot of a sequence, computed with the mask. */
    function Index(sequence: Sequence): (i: nat)
      requires Valid()
      ensures i == Slot(slots.Length, sequence) && i < slots.Length
    {
      SlotIsMasked(slots.Length, sequence);
      And(AsUnsigned(sequence), indexMask)
    }

    /** `get`: the slot, for writing. */
    method Put(sequence: Sequence, event: T)
      requires Valid()
      modifies slots
      ensures slots[..] == old(slots[..])[Slot(slots.Length, sequence) := event]
    {
      slots[Index(sequence)] := event;
    }

    /** `get_ref`: the slot, for reading. */
    method GetRef(sequence: Sequence) returns (event: T)
      requires Valid()
      ensures event == slots[Slot(slots.Length, sequence)]
    {
      event := slots[Index(sequence)];
    }
  }

  /** The slots of the sequences `from..to`, in order. */
  function SlotsOf(size: nat, from: Sequence, to: Sequence): (r: seq<nat>)
    requires size > 0
    ensures |r| == if from <= to then to - from + 1 else 0
    ensures forall k :: 0 <= k < |r| ==> r[k] == Slot(size, from + k)
    decreases if from <= to then to - from + 1 else 0
  {
    if from > to then [] else SlotsOf(size, from, to - 1) + [Slot(size, to)]
  }

  /** For a batch that fits the ring, the slots are pairwise different. */
  lemma BatchSlotsAreDistinct(size: nat, from: Sequence, to: Sequence)
    requires size > 0 && to - from + 1 <= size
    ensures forall k, l :: 0 <= k < l < |SlotsOf(size, from, to)| ==>
              SlotsOf(size, from, to)[k] != SlotsOf(size, from, to)[l]
  {
    forall k, l | 0 <= k < l < |SlotsOf(size, from, to)|
      ensures SlotsOf(size, from, to)[k] != SlotsOf(size, from, to)[l]
    {
      DistinctInWindow(size, from + k, from + l);
    }
  }

  /** The slots after writing `events` to the sequences from `from` on. */
  function Written<T>(slots: seq<T>, from: Sequence, events: seq<T>): (r: seq<T>)
    requires |slots| > 0
    ensures |r| == |slots|
  {
    if events == [] then slots
    else
      var last := |events| - 1;
      Written(slots, from, events[..last])[Slot(|slots|, from + last) := events[last]]
  }

  lemma WrittenOneMore<T>(slots: seq<T>, from: Sequence, events: seq<T>, k: nat)
    requires |slots| > 0 && k < |events|
    ensures Written(slots, from, events[..k + 1]) ==
            Written(slots, from, events[..k])[Slot(|slots|, from + k) := events[k]]
  {
    assert events[..k + 1][..k] == events[..k];
  }

  /** A batch that fits the ring ends up in its slots, and the other slots stay as they are. */
  lemma {:induction false} WrittenSlots<T>(slots: seq<T>, from: Sequence, events: seq<T>, s: Sequence)
    requires 0 < |slots| && |events| <= |slots|
    requires from + |events| - |slots| <= s < from + |events|
    ensures Written(slots, from, events)[Slot(|slots|, s)] ==
            if s < from then slots[Slot(|slots|, s)] else events[s - from]
  {
    if events == [] {
    } else {
      var last := |events| - 1;
      if s < from + last {
        DistinctInWindow(|slots|, s, from + last);
        if from + last - |slots| <= s {
          WrittenSlots(slots, from, events[..last], s);
        }
      } else {
        assert s == from + last;
      }
    }
  }

  /** The iterator over the slots of a claimed batch. `yielded` is what it has given out so far. */
  class MutBatchIter<T> {
    const ringBuffer: RingBuffer<T>
    var current: Sequence
    const last: Sequence
    ghost const start: Sequence
    ghost var yielded: seq<nat>

    ghost predicate Valid()
      reads this
    {
      && ringBuffer.Valid()
      && start <= current <= last + 1
      && yielded == SlotsOf(ringBuffer.slots.Length, start, current - 1)
    }

    /** An empty batch has `end == start - 1`. */
    constructor (start: Sequence, end: Sequence, ringBuffer: RingBuffer<T>)
      requires ringBuffer.Valid() && start <= end + 1
      ensures Valid() && current == start && this.start == start && last == end && this.ringBuffer == ringBuffer
      ensures yielded == []
    {
      this.ringBuffer := ringBuffer;
      current := start;
      last := end;
      this.start := start;
      yielded := [];
    }

    method Remaining() returns (n: nat)
      requires Valid()
      ensures n + |yielded| == last - start + 1
    {
      n := last - current + 1;
    }

    /** Yields the slots of the batch one after the other, each one once, and then nothing. */
    method Next() returns (slot: Option<nat>)
      requires Valid()
      modifies this
      ensures Valid()
      ensures slot.None? <==> old(yielded) == SlotsOf(ringBuffer.slots.Length, start, last)
      ensures slot.None? ==> yielded == old(yielded) && current == old(current)
      ensures slot.Some? ==> yielded == old(yielded) + [slot.value] && current == old(current) + 1
      ensures yielded <= SlotsOf(ringBuffer.slots.Length, start, last)
    {
      if current > last {
        slot := None;
      } else {
        slot := Some(ringBuffer.Index(current));
        yielded := yielded + [slot.value];
        current := current + 1;
      }
    }

    /** What the closure of a caller does: it takes the next slot, which there must be, and puts an event
        into it. */
    method FillNext(event: T)
      requires Valid() && current <= last
      modifies this, ringBuffer.slots
      ensures Valid() && current == old(current) + 1
      ensures ringBuffer.slots[..] == old(ringBuffer.slots[..])[Slot(ringBuffer.slots.Length, old(current)) := event]
    {
      ghost var at := current - start;
      var slot := Next();
      assert slot == Some(yielded[at]);
      ringBuffer.slots[slot.value] := event;
    }
  }
}
