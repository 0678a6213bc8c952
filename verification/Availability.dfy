/** The availability bits of the multi-producer barrier, as a sequence of words. */
module Availability {
  import opened Bits
  import opened Indexing

  /** There is one bit for every slot. */
  predicate Fits(words: seq<Word>, size: nat) {
    size >= 64 && 64 * |words| == size
  }

  /** The bit of the slot of `s` reads as it does once `s` is published. */
  predicate Agrees(words: seq<Word>, size: nat, s: Sequence)
    requires Fits(words, size)
  {
    Bit(words[WordOf(size, s)], BitOf(size, s)) == Flag(size, s)
  }

  /** `s` has its bit among the `count` bits that start at the bit of `from`, in the same word. */
  predicate InChunk(size: nat, from: Sequence, count: nat, s: Sequence)
    requires size > 0
  {
    WordOf(size, s) == WordOf(size, from) && BitOf(size, from) <= BitOf(size, s) < BitOf(size, from) + count
  }

  /** One `fetch_xor`: flips the bits of `count` sequences that share a word. */
  function FlipChunk(words: seq<Word>, size: nat, from: Sequence, count: nat): (r: seq<Word>)
    requires Fits(words, size) && BitOf(size, from) + count <= 64
    ensures Fits(r, size)
  {
    words[WordOf(size, from) := XorWord(words[WordOf(size, from)], RunMask(BitOf(size, from), count))]
  }

  lemma ChunkFlips(words: seq<Word>, size: nat, from: Sequence, count: nat, s: Sequence)
    requires Fits(words, size) && BitOf(size, from) + count <= 64
    ensures Agrees(FlipChunk(words, size, from, count), size, s)
         == (Agrees(words, size, s) != InChunk(size, from, count, s))
  {
  }

  /** Publishing one sequence. */
  function FlipOne(words: seq<Word>, size: nat, s: Sequence): (r: seq<Word>)
    requires Fits(words, size)
    ensures Fits(r, size)
  {
    FlipChunk(words, size, s, 1)
  }

  /** Publishing `n` sequences one after the other. */
  function FlipEach(words: seq<Word>, size: nat, from: Sequence, n: nat): (r: seq<Word>)
    requires Fits(words, size)
    ensures Fits(r, size)
  {
    if n == 0 then words else FlipOne(FlipEach(words, size, from, n - 1), size, from + n - 1)
  }

  /** One `fetch_xor` of a chunk leaves the same words as publishing its sequences singly. */
  lemma {:induction false} ChunkIsSingles(words: seq<Word>, size: nat, from: Sequence, count: nat)
    requires Fits(words, size) && BitOf(size, from) + count <= 64
    ensures FlipChunk(words, size, from, count) == FlipEach(words, size, from, count)
  {
    var w, b := WordOf(size, from), BitOf(size, from);
    if count == 0 {
      SameBitsSameWord(FlipChunk(words, size, from, 0)[w], words[w]);
    } else {
      ChunkIsSingles(words, size, from, count - 1);
      WithinWord(size, from, count - 1);
      assert from + (count - 1) == from + count - 1;
      var before := FlipChunk(words, size, from, count - 1);
      SameBitsSameWord(
        FlipChunk(words, size, from, count)[w],
        FlipOne(before, size, from + count - 1)[w]);
    }
  }

  lemma {:induction false} EachThenEach(words: seq<Word>, size: nat, from: Sequence, m: nat, n: nat)
    requires Fits(words, size)
    ensures FlipEach(FlipEach(words, size, from, m), size, from + m, n) == FlipEach(words, size, from, m + n)
  {
    if n == 0 {
    } else {
      EachThenEach(words, size, from, m, n - 1);
      assert from + m + n - 1 == from + (m + n) - 1;
    }
  }

  /** Flipping the next chunk continues the publication of a range. */
  lemma NextChunk(words: seq<Word>, size: nat, from: Sequence, done: nat, count: nat)
    requires Fits(words, size) && BitOf(size, from + done) + count <= 64
    ensures FlipChunk(FlipEach(words, size, from, done), size, from + done, count)
         == FlipEach(words, size, from, done + count)
  {
    ChunkIsSingles(FlipEach(words, size, from, done), size, from + done, count);
    EachThenEach(words, size, from, done, count);
  }

  /** `h` is what a scan from `prev` over fixed words returns: one less than the first sequence from
      `prev` on whose bit does not read as published. */
  ghost predicate IsScanResult(words: seq<Word>, size: nat, prev: Sequence, h: Sequence)
    requires Fits(words, size)
  {
    && prev - 1 <= h
    && (forall s :: prev <= s <= h ==> Agrees(words, size, s))
    && !Agrees(words, size, h + 1)
  }

  lemma LapDisagrees(words: seq<Word>, size: nat, s: Sequence)
    requires Fits(words, size)
    ensures Agrees(words, size, s + size) != Agrees(words, size, s)
  {
    OneLapOn(size, s);
  }

  /** Whatever the bits are, the scan stops within one lap, at one place only. */
  lemma ScanResultIsUnique(words: seq<Word>, size: nat, prev: Sequence, g: Sequence, h: Sequence)
    requires Fits(words, size)
    requires IsScanResult(words, size, prev, g) && IsScanResult(words, size, prev, h)
    ensures g == h && h < prev + size
  {
    if h >= prev + size {
      LapDisagrees(words, size, prev);
    }
  }

  // ---- how often every slot was published ----

  /** Every bit is the parity of the round in which its slot was last published: a slot published
      `c` times was last published in round `c - 1`, and round -1 counts as odd. */
  ghost predicate Encodes(words: seq<Word>, size: nat, counts: seq<nat>)
    requires Fits(words, size)
  {
    |counts| == size && forall i: nat :: i < size ==> Bit(words[i / 64], i % 64) == (counts[i] % 2 == 0)
  }

  function CountEach(counts: seq<nat>, size: nat, from: Sequence, n: nat): (r: seq<nat>)
    requires size > 0 && |counts| == size
    ensures |r| == size
  {
    if n == 0 then counts
    else
      var before := CountEach(counts, size, from, n - 1);
      var i := Slot(size, from + n - 1);
      before[i := before[i] + 1]
  }

  /** A range that fits the ring counts every slot of it once. */
  lemma {:induction false} CountedOnce(counts: seq<nat>, size: nat, from: Sequence, n: nat, s: Sequence)
    requires size > 0 && |counts| == size && n <= size && from + n - size <= s < from + n
    ensures CountEach(counts, size, from, n)[Slot(size, s)] ==
            counts[Slot(size, s)] + if from <= s then 1 else 0
  {
    if n == 0 {
    } else if s == from + n - 1 {
      OneLapOn(size, s - size);
      assert s - size + size == s;
      CountedOnce(counts, size, from, n - 1, s - size);
    } else {
      CountedOnce(counts, size, from, n - 1, s);
      DistinctInWindow(size, s, from + n - 1);
    }
  }

  /** The same for any sequence near the range. */
  lemma {:induction false} CountedNear(counts: seq<nat>, size: nat, from: Sequence, n: nat, s: Sequence)
    requires size > 0 && |counts| == size && from + n - size <= s < from + size
    ensures CountEach(counts, size, from, n)[Slot(size, s)] ==
            counts[Slot(size, s)] + if from <= s < from + n then 1 else 0
  {
    if n == 0 {
    } else {
      var last := from + n - 1;
      CountedNear(counts, size, from, n - 1, s);
      if s < last {
        DistinctInWindow(size, s, last);
      } else if s > last {
        DistinctInWindow(size, last, s);
      }
    }
  }

  lemma FlipOneCounts(words: seq<Word>, size: nat, counts: seq<nat>, s: Sequence)
    requires Fits(words, size) && Encodes(words, size, counts)
    ensures var i := Slot(size, s); Encodes(FlipOne(words, size, s), size, counts[i := counts[i] + 1])
  {
    var at := Slot(size, s);
    var r := FlipOne(words, size, s);
    forall i: nat | i < size
      ensures Bit(r[i / 64], i % 64) == (counts[at := counts[at] + 1][i] % 2 == 0)
    {
      assert Bit(words[i / 64], i % 64) == (counts[i] % 2 == 0);
      if i == at {
        assert i / 64 == WordOf(size, s) && i % 64 == BitOf(size, s);
      }
    }
  }

  lemma OneMoreCount(words: seq<Word>, size: nat, counts: seq<nat>, s: Sequence, words': seq<Word>, counts': seq<nat>)
    requires Fits(words, size) && Encodes(words, size, counts) && words' == FlipOne(words, size, s)
    requires var i := Slot(size, s); counts' == counts[i := counts[i] + 1]
    ensures Encodes(words', size, counts')
  {
    FlipOneCounts(words, size, counts, s);
  }

  lemma {:induction false} FlipEachCounts(words: seq<Word>, size: nat, counts: seq<nat>, from: Sequence, n: nat)
    requires Fits(words, size) && Encodes(words, size, counts)
    ensures Encodes(FlipEach(words, size, from, n), size, CountEach(counts, size, from, n))
  {
    if n == 0 {
    } else {
      FlipEachCounts(words, size, counts, from, n - 1);
      OneMoreCount(
        FlipEach(words, size, from, n - 1), size, CountEach(counts, size, from, n - 1), from + n - 1,
        FlipEach(words, size, from, n), CountEach(counts, size, from, n));
    }
  }

  /** The one-bit test: a slot that has been published either in all rounds before that of `s`, or in
      the round of `s` too, has the bit of `s` exactly if `s` is published. */
  lemma OneBitTest(words: seq<Word>, size: nat, counts: seq<nat>, s: Sequence)
    requires Fits(words, size) && Encodes(words, size, counts)
    requires Round(size, s) <= counts[Slot(size, s)] <= Round(size, s) + 1
    ensures Agrees(words, size, s) <==> counts[Slot(size, s)] == Round(size, s) + 1
  {
    var i := Slot(size, s);
    assert i / 64 == WordOf(size, s) && i % 64 == BitOf(size, s);
    assert Bit(words[i / 64], i % 64) == (counts[i] % 2 == 0);
  }

  // ---- how often a slot is published in a history ----

  /** How often slot `i` was published, counting the first `n` sequences. */
  function Publications(size: nat, published: seq<bool>, i: nat, n: nat): nat
    requires size > 0 && n <= |published|
  {
    if n == 0 then 0
    else Publications(size, published, i, n - 1) + if published[n - 1] && Slot(size, n - 1) == i then 1 else 0
  }

  /** In a published prefix, a slot has been published once for every round before that of its next
      sequence. */
  lemma {:induction false} PublicationsOfPrefix(size: nat, published: seq<bool>, t: Sequence, n: nat)
    requires size > 0 && n <= |published| && (forall s :: 0 <= s < n ==> published[s])
    requires 0 <= t && t - size < n <= t
    ensures Publications(size, published, Slot(size, t), n) == Round(size, t)
    decreases n
  {
    if t < size {
      NoneBefore(size, published, t, n);
    } else {
      var u := t - size;
      OneLapOn(size, u);
      Publications1(size, published, u, n);
      PublicationsOfPrefix(size, published, u, u);
    }
  }

  lemma {:induction false} NoneBefore(size: nat, published: seq<bool>, t: Sequence, n: nat)
    requires size > 0 && n <= |published| && n <= t < size
    ensures Publications(size, published, Slot(size, t), n) == 0
  {
    if n == 0 {
    } else {
      NoneBefore(size, published, t, n - 1);
    }
  }

  /** Up to a lap after `u`, only `u` itself falls on its slot. */
  lemma {:induction false} Publications1(size: nat, published: seq<bool>, u: nat, n: nat)
    requires size > 0 && u < n <= |published| && n <= u + size
    ensures Publications(size, published, Slot(size, u), n)
         == Publications(size, published, Slot(size, u), u) + if published[u] then 1 else 0
  {
    if n == u + 1 {
    } else {
      Publications1(size, published, u, n - 1);
      DistinctInWindow(size, u, n - 1);
    }
  }

  /** In the lap after everything that is published without a gap, a slot has been published once for
      every earlier round, and once more if its sequence is published. */
  lemma SlotPublications(size: nat, published: seq<bool>, t: Sequence)
    requires size > 0 && 0 <= t && |published| <= t + size && t - size < |published|
    requires forall s :: 0 <= s <= t - size ==> published[s]
    ensures Publications(size, published, Slot(size, t), |published|) ==
            Round(size, t) + if t < |published| && published[t] then 1 else 0
  {
    if t < |published| {
      Publications1(size, published, t, |published|);
      PublicationsBefore(size, published, t, t);
    } else {
      PublicationsBefore(size, published, t, |published|);
    }
  }

  /** If everything up to one lap before `t` is published, the slot of `t` has been published once for
      every earlier round. */
  lemma PublicationsBefore(size: nat, published: seq<bool>, t: Sequence, n: nat)
    requires size > 0 && t - size < n <= |published| && n <= t
    requires forall s :: 0 <= s <= t - size ==> published[s]
    ensures Publications(size, published, Slot(size, t), n) == Round(size, t)
  {
    var low := if t - size + 1 > 0 then t - size + 1 else 0;
    SkipOthers(size, published, t, low, n);
    PublicationsOfPrefix(size, published, t, low);
  }

  /** Less than a lap before `t` nothing falls on its slot. */
  lemma {:induction false} SkipOthers(size: nat, published: seq<bool>, t: Sequence, low: nat, n: nat)
    requires size > 0 && low <= n <= |published| && n <= t && t - size < low
    ensures Publications(size, published, Slot(size, t), n) == Publications(size, published, Slot(size, t), low)
  {
    if n == low {
    } else {
      SkipOthers(size, published, t, low, n - 1);
      DistinctInWindow(size, n - 1, t);
    }
  }
}
