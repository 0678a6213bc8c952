/** From sequence numbers to slots, rounds, availability words and bits.

    `Slot` and `Round` are defined by stepping through the ring, so that proofs about windows of
    sequences need no division; `SlotIsMasked` and `RoundIsShifted` show that they are what the code
    computes with `&` and `>>`. */
module Indexing {
  import opened Bits

  type Sequence = int

  const NONE: Sequence := -1

  /** The index of the slot that a sequence number falls on. */
  function Slot(size: nat, s: Sequence): (i: nat)
    requires size > 0
    ensures i < size
    decreases s < 0, if s < 0 then -s else s
  {
    if s < 0 then Slot(size, s + size)
    else if s < size then s
    else Slot(size, s - size)
  }

  /** How often the ring has been passed before `s`; negative before the first pass. */
  function Round(size: nat, s: Sequence): int
    requires size > 0
    decreases s < 0, if s < 0 then -s else s
  {
    if s < 0 then Round(size, s + size) - 1
    else if s < size then 0
    else Round(size, s - size) + 1
  }

  /** The parity that the bit of a slot has after the publication of `s`: set for an odd round. */
  predicate Flag(size: nat, s: Sequence)
    requires size > 0
  {
    Round(size, s) % 2 == 1
  }

  function WordOf(size: nat, s: Sequence): (w: nat)
    requires size > 0
    ensures 64 * w <= Slot(size, s)
  {
    Slot(size, s) / 64
  }

  function BitOf(size: nat, s: Sequence): (b: nat)
    requires size > 0
    ensures b < 64 && Slot(size, s) == 64 * WordOf(size, s) + b
  {
    Slot(size, s) % 64
  }

  // ---- stepping through the ring ----

  lemma OneLapOn(size: nat, s: Sequence)
    requires size > 0
    ensures Slot(size, s + size) == Slot(size, s)
    ensures Round(size, s + size) == Round(size, s) + 1
    ensures Flag(size, s + size) != Flag(size, s)
  {
  }

  lemma {:induction false} NextSlot(size: nat, s: Sequence)
    requires size > 0
    ensures Slot(size, s + 1) == if Slot(size, s) + 1 < size then Slot(size, s) + 1 else 0
    ensures Round(size, s + 1) == if Slot(size, s) + 1 < size then Round(size, s) else Round(size, s) + 1
    decreases s < 0, if s < 0 then -s else s
  {
    if s < 0 {
      NextSlot(size, s + size);
      OneLapOn(size, s + 1);
    } else if s >= size {
      NextSlot(size, s - size);
      OneLapOn(size, s + 1 - size);
    }
  }

  /** As long as the slots do not wrap, they follow each other within one round. */
  lemma {:induction false} WithinRound(size: nat, s: Sequence, j: nat)
    requires size > 0 && Slot(size, s) + j < size
    ensures Slot(size, s + j) == Slot(size, s) + j && Round(size, s + j) == Round(size, s)
  {
    if j == 0 {
    } else {
      WithinRound(size, s, j - 1);
      NextSlot(size, s + j - 1);
      assert s + (j - 1) + 1 == s + j;
    }
  }

  /** Two different sequences less than a lap apart have different slots. */
  lemma {:induction false} DistinctInWindow(size: nat, s: Sequence, t: Sequence)
    requires size > 0 && s < t < s + size
    ensures Slot(size, s) != Slot(size, t)
  {
    var j := t - s;
    if Slot(size, s) + j < size {
      WithinRound(size, s, j);
    } else {
      var k := size - Slot(size, s);
      WithinRound(size, s, k - 1);
      NextSlot(size, s + k - 1);
      WithinRound(size, s + k, j - k);
      assert s + k + (j - k) == t;
    }
  }

  /** The bits of one word belong to consecutive sequences of one round. */
  lemma WithinWord(size: nat, s: Sequence, j: nat)
    requires size > 0 && size % 64 == 0 && BitOf(size, s) + j < 64
    ensures WordOf(size, s + j) == WordOf(size, s) && BitOf(size, s + j) == BitOf(size, s) + j
    ensures Flag(size, s + j) == Flag(size, s)
  {
    WithinRound(size, s, j);
  }

  /** After the last bit of a word comes the first bit of the next word, in the next round exactly
      when that word is the first one. */
  lemma NextWord(size: nat, s: Sequence)
    requires size > 0 && size % 64 == 0 && BitOf(size, s) == 63
    ensures BitOf(size, s + 1) == 0
    ensures Flag(size, s + 1) == (if WordOf(size, s + 1) == 0 then !Flag(size, s) else Flag(size, s))
  {
    NextSlot(size, s);
  }

  // ---- what the code computes ----

  /** `sequence as usize`: a negative number wraps around. */
  function AsUnsigned(s: Sequence): (r: nat)
    ensures r < TWO_TO_THE_64
  {
    s % TWO_TO_THE_64
  }

  /** `sequence >> k` on a signed number: every place halves, rounding down. */
  function ShiftRightSigned(s: int, k: nat): int
    decreases k
  {
    if k == 0 then s else ShiftRightSigned(s / 2, k - 1)
  }

  lemma {:induction false} SlotOfNatural(size: nat, s: nat)
    requires size > 0
    ensures s == size * Round(size, s) + Slot(size, s)
  {
    if s < size {
    } else {
      SlotOfNatural(size, s - size);
      assert size * (Round(size, s - size) + 1) == size * Round(size, s - size) + size;
    }
  }

  lemma {:induction false} LapsOn(size: nat, s: Sequence, laps: nat)
    requires size > 0
    ensures Slot(size, s + size * laps) == Slot(size, s)
    ensures Round(size, s + size * laps) == Round(size, s) + laps
  {
    if laps == 0 {
    } else {
      LapsOn(size, s, laps - 1);
      assert size * laps == size * (laps - 1) + size;
      OneLapOn(size, s + size * (laps - 1));
    }
  }

  lemma {:induction false} MaskKeepsLowBits(x: nat, k: nat)
    ensures And(x, Pow2(k) - 1) == Slot(Pow2(k), x)
  {
    if k == 0 {
      SlotOfNatural(1, x);
    } else if x > 0 {
      MaskKeepsLowBits(x / 2, k - 1);
      HalveSlot(x, Pow2(k - 1));
      assert (2 * Pow2(k - 1) - 1) / 2 == Pow2(k - 1) - 1;
    }
  }

  /** Halving a number halves its slot in a ring of half the size, and keeps its round. */
  lemma {:induction false} HalveSlot(x: int, p: nat)
    requires p > 0
    ensures Slot(2 * p, x) == x % 2 + 2 * Slot(p, x / 2)
    ensures Round(2 * p, x) == Round(p, x / 2)
    decreases x < 0, if x < 0 then -x else x
  {
    if x < 0 {
      HalveSlot(x + 2 * p, p);
      assert (x + 2 * p) / 2 == x / 2 + p;
    } else if x >= 2 * p {
      HalveSlot(x - 2 * p, p);
      assert (x - 2 * p) / 2 == x / 2 - p;
    }
  }

  /** `sequence & (size - 1)` is the slot, for every signed sequence and every power of two. */
  lemma SlotIsMasked(size: nat, s: Sequence)
    requires IsPowerOfTwo(size) && size <= TWO_TO_THE_64
    ensures size > 0 && And(AsUnsigned(s), size - 1) == Slot(size, s)
  {
    var k: nat :| size == Pow2(k);
    MaskKeepsLowBits(AsUnsigned(s), k);
    var m := PowerDivides(size, k);
    var q := s / TWO_TO_THE_64;
    assert s == AsUnsigned(s) + TWO_TO_THE_64 * q;
    if q >= 0 {
      Regroup(size, m, q);
      LapsOn(size, AsUnsigned(s), m * q);
    } else {
      Regroup(size, m, -q);
      LapsOn(size, s, m * -q);
    }
  }

  lemma PowerDivides(size: nat, k: nat) returns (m: nat)
    requires size == Pow2(k) && size <= TWO_TO_THE_64
    ensures size * m == TWO_TO_THE_64
  {
    SixtyFour();
    if k > 64 {
      PowMonotone(65, k);
    }
    PowAdd(k, 64 - k);
    m := Pow2(64 - k);
  }

  lemma Regroup(a: nat, b: nat, c: nat)
    ensures b * c >= 0 && a * (b * c) == (a * b) * c
  {
  }

  /** `sequence >> log2(size)` is the round. */
  lemma {:induction false} RoundIsShifted(s: Sequence, k: nat)
    ensures ShiftRightSigned(s, k) == Round(Pow2(k), s)
    decreases k
  {
    if k == 0 {
      RoundOfOne(s);
    } else {
      RoundIsShifted(s / 2, k - 1);
      HalveSlot(s, Pow2(k - 1));
    }
  }

  lemma {:induction false} RoundOfOne(s: Sequence)
    ensures Round(1, s) == s
    decreases s < 0, if s < 0 then -s else s
  {
    if s < 0 {
      RoundOfOne(s + 1);
    } else if s >= 1 {
      RoundOfOne(s - 1);
    }
  }
}
