/** What a scan returns over fixed words: after a number of publications, and from one sequence earlier. */
module BitScans {
  import opened Bits
  import opened Indexing
  import opened Availability

  /** All bits set means that the round before the first one is published everywhere. */
  lemma InitiallyAgrees(size: nat, s: Sequence)
    requires size >= 64 && size % 64 == 0 && 0 - size <= s < 0
    ensures Agrees(seq(size / 64, _ => ALL_ONES), size, s)
  {
    BitOfOnes(BitOf(size, s));
    assert Round(size, s) == -1;
  }

  /** Publishing `t` changes the bit of `t` and of no other sequence of the lap that ends with it. */
  lemma OneFlip(words: seq<Word>, size: nat, t: Sequence, s: Sequence)
    requires Fits(words, size) && t - size < s <= t
    ensures Agrees(FlipOne(words, size, t), size, s) == (Agrees(words, size, s) != (s == t))
  {
    ChunkFlips(words, size, t, 1, s);
    if s < t {
      DistinctInWindow(size, s, t);
    }
  }

  /** After the first `n` sequences have been published, the last lap of them reads as published. */
  lemma {:induction false} LastLapAgrees(size: nat, n: nat, s: Sequence)
    requires size >= 64 && size % 64 == 0 && n - size <= s < n
    ensures Agrees(FlipEach(seq(size / 64, _ => ALL_ONES), size, 0, n), size, s)
  {
    var words := seq(size / 64, _ => ALL_ONES);
    if n == 0 {
      InitiallyAgrees(size, s);
    } else {
      var before := FlipEach(words, size, 0, n - 1);
      OneFlip(before, size, n - 1, s);
      if s == n - 1 {
        LastLapAgrees(size, n - 1, s - size);
        LapDisagrees(before, size, s - size);
      } else {
        LastLapAgrees(size, n - 1, s);
      }
    }
  }

  /** With the first `n` sequences published, a scan from anywhere in the lap up to `n` finds all of
      them, and a scan that starts one sequence earlier finds nothing. */
  lemma ScanAfterPublishing(size: nat, n: nat, prev: Sequence)
    requires size >= 64 && size % 64 == 0 && n - size <= prev <= n
    ensures var words := FlipEach(seq(size / 64, _ => ALL_ONES), size, 0, n);
      && IsScanResult(words, size, prev, n - 1)
      && IsScanResult(words, size, n - size - 1, n - size - 2)
  {
    var words := FlipEach(seq(size / 64, _ => ALL_ONES), size, 0, n);
    forall s | n - size <= s < n
      ensures Agrees(words, size, s)
    {
      LastLapAgrees(size, n, s);
    }
    LapDisagrees(words, size, n - size);
    assert n - size + size == n;
    if n == 0 {
      NothingBefore(size);
    } else {
      LapDisagrees(words, size, n - size - 1);
      assert n - size - 1 + size == n - 1;
    }
  }

  lemma NothingBefore(size: nat)
    requires size >= 64 && size % 64 == 0
    ensures !Agrees(seq(size / 64, _ => ALL_ONES), size, 0 - size - 1)
  {
    var words := seq(size / 64, _ => ALL_ONES);
    InitiallyAgrees(size, -1);
    LapDisagrees(words, size, 0 - size - 1);
    assert 0 - size - 1 + size == -1;
  }

  /** The interface asks for the last sequence that was returned. That is one too early: on a ring of 64
      with `0..64` published, a consumer that has passed 0 and scans from 0 is told that nothing is
      there, and a scan from 1 finds everything. */
  lemma LastReturnedIsTooEarly()
    ensures var words := FlipEach(seq(1, _ => ALL_ONES), 64, 0, 65);
      && IsScanResult(words, 64, 0, -1)
      && IsScanResult(words, 64, 1, 64)
  {
    ScanAfterPublishing(64, 65, 1);
  }

  /** Starting one sequence earlier makes no difference exactly if the bit of that sequence agrees. */
  lemma OneEarlier(words: seq<Word>, size: nat, prev: Sequence, early: Sequence, right: Sequence)
    requires Fits(words, size) && IsScanResult(words, size, prev, early) && IsScanResult(words, size, prev + 1, right)
    ensures early == right <==> Agrees(words, size, prev)
    ensures !Agrees(words, size, prev) ==> early == prev - 1
  {
    if Agrees(words, size, prev) {
      assert IsScanResult(words, size, prev, right);
      ScanResultIsUnique(words, size, prev, early, right);
    }
  }
}
