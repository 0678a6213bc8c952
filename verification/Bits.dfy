/** Bitwise operations on non-negative integers, and 64-bit words built from them.

    A machine word is a natural number below 2^64. Shifting right drops the lowest bit, one place
    at a time; `Xor`, `Or` and `And` work bit by bit. Everything that is known about a word is said
    through `Bit`. */
module Bits {

  function Pow2(k: nat): (p: nat)
    ensures p > 0
  {
    if k == 0 then 1 else 2 * Pow2(k - 1)
  }

  ghost predicate IsPowerOfTwo(n: int) {
    exists k: nat :: n == Pow2(k)
  }

  /** Bit `k` of `w`. */
  predicate Bit(w: nat, k: nat) {
    if k == 0 then w % 2 == 1 else Bit(w / 2, k - 1)
  }

  function ShiftRight(w: nat, k: nat): nat {
    if k == 0 then w else ShiftRight(w / 2, k - 1)
  }

  function Xor(a: nat, b: nat): nat {
    if a == 0 && b == 0 then 0
    else (if a % 2 == b % 2 then 0 else 1) + 2 * Xor(a / 2, b / 2)
  }

  function Or(a: nat, b: nat): nat {
    if a == 0 && b == 0 then 0
    else (if a % 2 == 1 || b % 2 == 1 then 1 else 0) + 2 * Or(a / 2, b / 2)
  }

  function And(a: nat, b: nat): nat {
    if a == 0 || b == 0 then 0
    else (if a % 2 == 1 && b % 2 == 1 then 1 else 0) + 2 * And(a / 2, b / 2)
  }

  const TWO_TO_THE_64 := 0x1_0000_0000_0000_0000

  /** A `u64`. */
  type Word = w: nat | w < TWO_TO_THE_64

  /** `!0_u64`. */
  const ALL_ONES: Word := 0xFFFF_FFFF_FFFF_FFFF

  /** The mask whose set bits are exactly the `count` ones from `from` upwards. */
  function Run(from: nat, count: nat): nat {
    if count == 0 then 0 else Or(Run(from, count - 1), Pow2(from + count - 1))
  }

  // ---- powers of two ----

  lemma SixtyFour()
    ensures Pow2(64) == TWO_TO_THE_64
  {
    assert Pow2(8) == 256;
    PowAdd(8, 8);
    assert Pow2(16) == 0x1_0000;
    PowAdd(16, 16);
    assert Pow2(32) == 0x1_0000_0000;
    PowAdd(32, 32);
  }

  lemma {:induction false} PowAdd(a: nat, b: nat)
    ensures Pow2(a + b) == Pow2(a) * Pow2(b)
  {
    if a == 0 {
    } else {
      PowAdd(a - 1, b);
      assert a + b - 1 == a - 1 + b;
      assert 2 * (Pow2(a - 1) * Pow2(b)) == 2 * Pow2(a - 1) * Pow2(b);
    }
  }

  lemma {:induction false} PowMonotone(a: nat, b: nat)
    requires a <= b
    ensures Pow2(a) <= Pow2(b)
  {
    if a == b {
    } else {
      PowMonotone(a, b - 1);
    }
  }

  lemma {:induction false} PowerOf64(k: nat)
    requires Pow2(k) >= 64
    ensures Pow2(k) % 64 == 0
  {
    if k <= 6 {
      PowMonotone(k, 6);
      assert Pow2(6) == 64;
    } else {
      PowMonotone(6, k - 1);
      assert Pow2(6) == 64;
      PowerOf64(k - 1);
    }
  }

  // ---- bits of the results ----

  lemma {:induction false} BitOfZero(k: nat)
    ensures !Bit(0, k)
  {
    if k == 0 {
    } else {
      BitOfZero(k - 1);
    }
  }

  /** Shifting a word down by `a` places moves bit `a + b` to position `b`. */
  lemma {:induction false} BitOfShifted(w: nat, a: nat, b: nat)
    ensures Bit(ShiftRight(w, a), b) == Bit(w, a + b)
  {
    if a == 0 {
    } else {
      BitOfShifted(w / 2, a - 1, b);
    }
  }

  /** XOR flips exactly the bits that are set in the mask. */
  lemma {:induction false} BitOfXor(a: nat, b: nat, k: nat)
    ensures Bit(Xor(a, b), k) == (Bit(a, k) != Bit(b, k))
  {
    if a == 0 && b == 0 {
      BitOfZero(k);
    } else if k > 0 {
      BitOfXor(a / 2, b / 2, k - 1);
    }
  }

  lemma {:induction false} BitOfOr(a: nat, b: nat, k: nat)
    ensures Bit(Or(a, b), k) == (Bit(a, k) || Bit(b, k))
  {
    if a == 0 && b == 0 {
      BitOfZero(k);
    } else if k > 0 {
      BitOfOr(a / 2, b / 2, k - 1);
    }
  }

  lemma {:induction false} BitOfPower(j: nat, k: nat)
    ensures Bit(Pow2(j), k) == (j == k)
  {
    if j > 0 && k > 0 {
      BitOfPower(j - 1, k - 1);
    } else if k > 0 {
      BitOfZero(k - 1);
    }
  }

  lemma {:induction false} BitOfLowOnes(n: nat, k: nat)
    ensures Bit(Pow2(n) - 1, k) == (k < n)
  {
    if n == 0 {
      BitOfZero(k);
    } else if k > 0 {
      BitOfLowOnes(n - 1, k - 1);
      assert (Pow2(n) - 1) / 2 == Pow2(n - 1) - 1;
    }
  }

  lemma BitOfOnes(k: nat)
    requires k < 64
    ensures Bit(ALL_ONES, k)
  {
    SixtyFour();
    BitOfLowOnes(64, k);
  }

  /** The mask accumulated over a run of consecutive bits has exactly those bits set. */
  lemma {:induction false} BitOfRun(from: nat, count: nat, k: nat)
    ensures Bit(Run(from, count), k) == (from <= k < from + count)
  {
    if count == 0 {
      BitOfZero(k);
    } else {
      BitOfRun(from, count - 1, k);
      BitOfPower(from + count - 1, k);
      BitOfOr(Run(from, count - 1), Pow2(from + count - 1), k);
    }
  }

  lemma RunIsEmpty(from: nat, count: nat)
    ensures Run(from, count) == 0 <==> count == 0
  {
    if count > 0 {
      BitOfRun(from, count, from);
      BitOfZero(from);
    }
  }

  // ---- results stay within 64 bits, and bits determine the word ----

  lemma {:induction false} XorFits(a: nat, b: nat, n: nat)
    requires a < Pow2(n) && b < Pow2(n)
    ensures Xor(a, b) < Pow2(n)
  {
    if n == 0 || (a == 0 && b == 0) {
    } else {
      XorFits(a / 2, b / 2, n - 1);
    }
  }

  lemma {:induction false} OrFits(a: nat, b: nat, n: nat)
    requires a < Pow2(n) && b < Pow2(n)
    ensures Or(a, b) < Pow2(n)
  {
    if n == 0 || (a == 0 && b == 0) {
    } else {
      OrFits(a / 2, b / 2, n - 1);
    }
  }

  lemma {:induction false} RunFits(from: nat, count: nat, n: nat)
    requires from + count <= n
    ensures Run(from, count) < Pow2(n)
  {
    if count == 0 {
    } else {
      RunFits(from, count - 1, n);
      PowMonotone(from + count - 1, n - 1);
      OrFits(Run(from, count - 1), Pow2(from + count - 1), n);
    }
  }

  lemma {:induction false} SameBitsSameNumber(a: nat, b: nat, n: nat)
    requires a < Pow2(n) && b < Pow2(n)
    requires forall k: nat :: k < n ==> Bit(a, k) == Bit(b, k)
    ensures a == b
  {
    if n == 0 {
    } else {
      assert Bit(a, 0) == Bit(b, 0);
      forall k: nat | k < n - 1
        ensures Bit(a / 2, k) == Bit(b / 2, k)
      {
        assert Bit(a, k + 1) == Bit(b, k + 1);
      }
      SameBitsSameNumber(a / 2, b / 2, n - 1);
    }
  }

  /** A word is its 64 bits. */
  lemma SameBitsSameWord(a: Word, b: Word)
    requires forall k: nat :: k < 64 ==> Bit(a, k) == Bit(b, k)
    ensures a == b
  {
    SixtyFour();
    SameBitsSameNumber(a, b, 64);
  }

  /** `fetch_xor`: the new value of a word. */
  function XorWord(w: Word, mask: Word): (r: Word)
    ensures forall k: nat {:trigger Bit(r, k)} :: Bit(r, k) == (Bit(w, k) != Bit(mask, k))
  {
    SixtyFour();
    XorFits(w, mask, 64);
    assert forall k: nat {:trigger Bit(Xor(w, mask), k)} :: Bit(Xor(w, mask), k) == (Bit(w, k) != Bit(mask, k)) by {
      forall k: nat ensures Bit(Xor(w, mask), k) == (Bit(w, k) != Bit(mask, k)) {
        BitOfXor(w, mask, k);
      }
    }
    Xor(w, mask)
  }

  /** The mask of a run of bits inside one word. */
  function RunMask(from: nat, count: nat): (mask: Word)
    requires from + count <= 64
    ensures mask == 0 <==> count == 0
    ensures forall k: nat {:trigger Bit(mask, k)} :: Bit(mask, k) == (from <= k < from + count)
  {
    SixtyFour();
    RunFits(from, count, 64);
    RunIsEmpty(from, count);
    assert forall k: nat {:trigger Bit(Run(from, count), k)} :: Bit(Run(from, count), k) == (from <= k < from + count) by {
      forall k: nat ensures Bit(Run(from, count), k) == (from <= k < from + count) {
        BitOfRun(from, count, k);
      }
    }
    Run(from, count)
  }
}
