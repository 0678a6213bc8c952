/** The barrier of the multi-producer disruptor: a cursor for claiming sequences and one availability
    bit for every slot. */
module MultiBarrier {
  import opened Bits
  import opened Indexing
  import opened Availability
  import opened Cursors

  /** `usize::ilog2`. */
  function Log2(n: nat): nat
    requires n > 0
  {
    if n == 1 then 0 else 1 + Log2(n / 2)
  }

  lemma {:induction false} Log2OfPower(k: nat)
    ensures Log2(Pow2(k)) == k
  {
    if k == 0 {
    } else {
      Log2OfPower(k - 1);
      assert Pow2(k) / 2 == Pow2(k - 1);
    }
  }

  lemma LowestBit(w: nat)
    ensures And(w, 1) == (if Bit(w, 0) then 1 else 0)
  {
    assert And(w / 2, 0) == 0;
  }

  lemma UnsignedParity(round: int)
    ensures AsUnsigned(round) % 2 == round % 2
  {
  }

  class MultiProducerBarrier {
    const cursor: Cursor
    const available: array<Word>
    const indexMask: nat
    const indexShift: nat
    const size: nat

    /** How often every slot has been published. */
    ghost var counts: seq<nat>

    predicate Shaped() {
      && 64 <= size <= TWO_TO_THE_64 && size % 64 == 0
      && size == Pow2(indexShift) && indexMask == size - 1
      && 64 * available.Length == size
    }

    ghost predicate Valid()
      reads this, available
    {
      Shaped() && Encodes(available[..], size, counts)
    }

    constructor (size: nat)
      requires 64 <= size <= TWO_TO_THE_64 && IsPowerOfTwo(size)
      ensures Valid() && fresh(available) && fresh(cursor)
      ensures this.size == size && cursor.counter == NONE
      ensures counts == seq(size, _ => 0)
      ensures forall s: Sequence :: Agrees(available[..], size, s) == (Round(size, s) % 2 == 1)
    {
      ghost var k: nat :| size == Pow2(k);
      Log2OfPower(k);
      PowerOf64(k);
      this.size := size;
      cursor := new Cursor(NONE);
      indexMask := size - 1;
      indexShift := Log2(size);
      available := new Word[size / 64](_ => ALL_ONES);
      counts := seq(size, _ => 0);
      new;
      forall b: nat | b < 64
        ensures Bit(ALL_ONES, b)
      {
        BitOfOnes(b);
      }
    }

    function SlotIndex(sequence: Sequence): (i: nat)
      requires Shaped()
      ensures i == Slot(size, sequence)
    {
      SlotIsMasked(size, sequence);
      And(AsUnsigned(sequence), indexMask)
    }

    /** The index of the word and of the bit in it. */
    function CalculateAvailabilityIndices(sequence: Sequence): (r: (nat, nat))
      requires Shaped()
      ensures r == (WordOf(size, sequence), BitOf(size, sequence)) && r.0 < available.Length
    {
      var slotIndex := SlotIndex(sequence);
      var availabilityIndex := slotIndex / 64;
      (availabilityIndex, slotIndex - availabilityIndex * 64)
    }

    function CalculateAvailabilityFlag(sequence: Sequence): (flag: nat)
      requires Shaped()
      ensures flag == if Flag(size, sequence) then 1 else 0
    {
      RoundIsShifted(sequence, indexShift);
      var round := ShiftRightSigned(sequence, indexShift);
      UnsignedParity(round);
      LowestBit(AsUnsigned(round));
      And(AsUnsigned(round), 1)
    }

    /** Flips the bit of one sequence. */
    method Publish(sequence: Sequence)
      requires Valid()
      modifies available, `counts
      ensures Valid()
      ensures available[..] == FlipOne(old(available[..]), size, sequence)
      ensures counts == old(counts)[Slot(size, sequence) := old(counts)[Slot(size, sequence)] + 1]
    {
      FlipOneCounts(available[..], size, counts, sequence);
      var (availabilityIndex, bitIndex) := CalculateAvailabilityIndices(sequence);
      var mask := RunMask(bitIndex, 1);
      available[availabilityIndex] := XorWord(available[availabilityIndex], mask);
      counts := counts[Slot(size, sequence) := counts[Slot(size, sequence)] + 1];
    }

    /** The state of the range loop: the `count` sequences from `from` on are collected in the mask for
        one word, and the next sequence has bit `bitIndex`. */
    ghost predicate Collected(from: Sequence, count: nat, index: nat, bitIndex: nat, mask: Word)
      requires Shaped()
    {
      && index == WordOf(size, from)
      && bitIndex == BitOf(size, from) + count < 64
      && mask == RunMask(BitOf(size, from), count)
    }

    /** Publishes `n` sequences. The result is that of publishing every one of them, for every `n`, also
        across the end of the ring and more than once around it. */
    method PublishRange(from: Sequence, n: nat)
      requires Valid()
      modifies available, `counts
      ensures Valid()
      ensures available[..] == FlipEach(old(available[..]), size, from, n)
      ensures counts == CountEach(old(counts), size, from, n)
    {
      FlipEachCounts(available[..], size, counts, from, n);
      FlipRange(from, n);
      counts := CountEach(counts, size, from, n);
    }

    /** Flips the bits of `n` sequences, word by word. */
    method FlipRange(from: Sequence, n: nat)
      requires Shaped()
      modifies available
      ensures available[..] == FlipEach(old(available[..]), size, from, n)
    {
      ghost var before := available[..];
      var (availabilityIndex, bitIndex) := CalculateAvailabilityIndices(from);
      var flipMask: Word := 0;
      // The sequences from `from + done` on are collected in the mask and not yet flipped.
      ghost var done: nat := 0;
      NothingCollected(from);
      for i := 0 to n
        invariant done <= i
        invariant Collected(from + done, i - done, availabilityIndex, bitIndex, flipMask)
        invariant available[..] == FlipEach(before, size, from, done)
      {
        availabilityIndex, bitIndex, flipMask, done :=
          FlipNext(availabilityIndex, bitIndex, flipMask, before, from, done, i);
      }
      assert flipMask == 0 <==> done == n;
      if flipMask > 0 {
        FetchXor(availabilityIndex, flipMask, before, from, done, n);
      }
    }

    /** One iteration of the range loop: the next sequence goes into the mask, and a full mask is flipped. */
    method FlipNext(
        index: nat, bitIndex: nat, flipMask: Word,
        ghost before: seq<Word>, from: Sequence, ghost done: nat, i: nat)
      returns (nextIndex: nat, nextBit: nat, nextMask: Word, ghost nowDone: nat)
      requires Shaped() && Fits(before, size) && done <= i
      requires Collected(from + done, i - done, index, bitIndex, flipMask)
      requires available[..] == FlipEach(before, size, from, done)
      modifies available
      ensures nowDone <= i + 1
      ensures Collected(from + nowDone, i + 1 - nowDone, nextIndex, nextBit, nextMask)
      ensures available[..] == FlipEach(before, size, from, nowDone)
    {
      ghost var count := i + 1 - done;
      nextMask := OrNext(flipMask, index, bitIndex, from + done, count);
      if bitIndex < 63 {
        nextIndex, nextBit, nowDone := index, bitIndex + 1, done;
      } else {
        nextIndex := FinishWord(index, nextMask, before, from, done, i + 1);
        nextBit, nextMask, nowDone := 0, 0, i + 1;
      }
    }

    /** One atomic update of a word, with the mask of the sequences of a range from `done` up to `upto`. */
    method FetchXor(index: nat, mask: Word, ghost before: seq<Word>, ghost from: Sequence, ghost done: nat, ghost upto: nat)
      requires Shaped() && Fits(before, size)
      requires done <= upto && BitOf(size, from + done) + (upto - done) <= 64
      requires index == WordOf(size, from + done) && mask == RunMask(BitOf(size, from + done), upto - done)
      requires available[..] == FlipEach(before, size, from, done)
      modifies available
      ensures available[..] == FlipEach(before, size, from, upto)
    {
      NextChunk(before, size, from, done, upto - done);
      available[index] := XorWord(available[index], mask);
    }

    /** Commits the mask of a word that is collected up to its last bit, and moves on to the next word. */
    method FinishWord(index: nat, mask: Word, ghost before: seq<Word>, from: Sequence, ghost done: nat, upto: nat)
      returns (next: nat)
      requires Shaped() && Fits(before, size)
      requires done < upto && BitOf(size, from + done) + (upto - done) == 64
      requires index == WordOf(size, from + done) && mask == RunMask(BitOf(size, from + done), upto - done)
      requires available[..] == FlipEach(before, size, from, done)
      modifies available
      ensures available[..] == FlipEach(before, size, from, upto)
      ensures Collected(from + upto, 0, next, 0, 0)
    {
      FetchXor(index, mask, before, from, done, upto);
      WithinWord(size, from + done, upto - 1 - done);
      assert from + done + (upto - 1 - done) == from + upto - 1;
      NextWord(size, from + upto - 1);
      NothingCollected(from + upto);
      var (nextIndex, _) := CalculateAvailabilityIndices(from + upto);
      next := nextIndex;
    }

    lemma NothingCollected(from: Sequence)
      requires Shaped()
      ensures Collected(from, 0, WordOf(size, from), BitOf(size, from), 0)
    {
    }

    /** `flip_mask |= 1 << bit_index`. */
    function OrNext(flipMask: Word, ghost index: nat, bitIndex: nat, ghost from: Sequence, ghost count: nat): (r: Word)
      requires Shaped() && count > 0 && Collected(from, count - 1, index, bitIndex, flipMask)
      ensures r == RunMask(BitOf(size, from), count) && bitIndex + 1 == BitOf(size, from) + count
      ensures bitIndex < 63 ==> Collected(from, count, index, bitIndex + 1, r)
    {
      SixtyFour();
      RunFits(BitOf(size, from), count, 64);
      Or(flipMask, Pow2(bitIndex))
    }

    /** The state of the scan: the shifted word, the bit index and the flag belong to `sequence`. */
    ghost predicate Tracks(sequence: Sequence, availability: nat, bitIndex: nat, flag: nat)
      requires Shaped()
      reads available
    {
      && bitIndex == BitOf(size, sequence)
      && flag == (if Flag(size, sequence) then 1 else 0)
      && forall j: nat :: j < 64 - bitIndex ==>
           Bit(availability, j) == Bit(available[WordOf(size, sequence)], bitIndex + j)
    }

    /** Prepares the check of the next bit, in the same word or the next one. */
    method NextBit(sequence: Sequence, availability: nat, bitIndex: nat, flag: nat)
      returns (nextAvailability: nat, nextIndex: nat, nextFlag: nat)
      requires Shaped() && Tracks(sequence, availability, bitIndex, flag)
      ensures Tracks(sequence + 1, nextAvailability, nextIndex, nextFlag)
    {
      if bitIndex < 63 {
        WithinWord(size, sequence, 1);
        forall j: nat | j < 63 - bitIndex
          ensures Bit(ShiftRight(availability, 1), j) == Bit(available[WordOf(size, sequence)], bitIndex + 1 + j)
        {
          BitOfShifted(availability, 1, j);
          assert Bit(availability, j + 1) == Bit(available[WordOf(size, sequence)], bitIndex + (j + 1));
        }
        nextAvailability, nextIndex, nextFlag := ShiftRight(availability, 1), bitIndex + 1, flag;
      } else {
        NextWord(size, sequence);
        var (availabilityIndex, _) := CalculateAvailabilityIndices(sequence + 1);
        nextAvailability, nextIndex := available[availabilityIndex], 0;
        nextFlag := if availabilityIndex == 0 then 1 - flag else flag;
      }
    }

    /** The first load of a scan. */
    method FirstBits(prev: Sequence) returns (availability: nat, bitIndex: nat, flag: nat)
      requires Shaped()
      ensures Tracks(prev, availability, bitIndex, flag)
    {
      flag := CalculateAvailabilityFlag(prev);
      var (availabilityIndex, bit) := CalculateAvailabilityIndices(prev);
      bitIndex := bit;
      availability := ShiftRight(available[availabilityIndex], bitIndex);
      forall j: nat | j < 64 - bitIndex
        ensures Bit(availability, j) == Bit(available[availabilityIndex], bitIndex + j)
      {
        BitOfShifted(available[availabilityIndex], bitIndex, j);
      }
    }

    /** Scans the bits from `prev` for the highest sequence up to which everything is published. */
    method GetAfter(prev: Sequence) returns (h: Sequence)
      requires Valid()
      ensures IsScanResult(available[..], size, prev, h) && h < prev + size
    {
      var availability, bitIndex, availabilityFlag := FirstBits(prev);
      var highestAvailable := prev;
      while true
        invariant prev <= highestAvailable <= prev + size
        invariant forall s :: prev <= s < highestAvailable ==> Agrees(available[..], size, s)
        invariant Tracks(highestAvailable, availability, bitIndex, availabilityFlag)
        decreases prev + size - highestAvailable
      {
        LowestBit(availability);
        assert Bit(availability, 0) == Bit(available[WordOf(size, highestAvailable)], bitIndex + 0);
        LapDisagrees(available[..], size, prev);
        if And(availability, 1) != availabilityFlag {
          return highestAvailable - 1;
        }
        assert Agrees(available[..], size, highestAvailable);
        assert highestAvailable > prev ==> Agrees(available[..], size, prev);
        availability, bitIndex, availabilityFlag := NextBit(highestAvailable, availability, bitIndex, availabilityFlag);
        highestAvailable := highestAvailable + 1;
      }
    }
  }
}
