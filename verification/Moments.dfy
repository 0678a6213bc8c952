/** The shared memory of the multi-producer disruptor at some moment, as one handle and its rivals see it:
    what they may do to it, and what then stays true. */
module Moments {
  import opened Wrappers
  import opened Bits
  import opened Indexing
  import opened Availability
  import opened Cursors
  import opened Rings

  /** What comes before the first claim counts as published. */
  ghost predicate IsPublished<T>(log: seq<Option<T>>, s: Sequence) {
    s < 0 || (s < |log| && log[s].Some?)
  }

  ghost predicate PublishedUpTo<T>(log: seq<Option<T>>, s: Sequence) {
    forall q :: q <= s ==> IsPublished(log, q)
  }

  /** The shared state at some moment: the counters, for every claimed sequence whether it was claimed by
      the thread of the handle, and the log, which has an event for every sequence that is published. */
  datatype Moment<T> = Moment(
    turn: nat, claimed: Sequence, cursors: seq<Sequence>, mine: seq<bool>, log: seq<Option<T>>)
  {
    ghost function Rear(): Sequence
      requires cursors != []
    {
      Least(cursors).value
    }

    /** No consumer is further behind `bound` than one lap. */
    ghost predicate Clear(size: nat, bound: Sequence) {
      forall i :: 0 <= i < |cursors| ==> bound <= cursors[i] + size
    }

    ghost predicate Sane(size: nat) {
      && cursors != [] && |mine| == |log| == claimed + 1 && Clear(size, claimed)
      && forall i :: 0 <= i < |cursors| ==> NONE <= cursors[i] <= claimed && PublishedUpTo(log, cursors[i])
    }
  }

  /** The thread of the handle has claimed `s` and not published it. */
  ghost predicate IsHeld<T>(m: Moment<T>, s: Sequence) {
    0 <= s < |m.mine| && s < |m.log| && m.mine[s] && m.log[s].None?
  }

  /** Nothing was claimed by the thread of the handle. */
  ghost predicate OnlyRivals(before: seq<bool>, after: seq<bool>) {
    before <= after && forall k :: |before| <= k < |after| ==> !after[k]
  }

  /** What was published keeps its event. */
  ghost predicate StaysCommitted<T>(before: Moment<T>, after: Moment<T>) {
    && |before.log| <= |after.log|
    && forall s :: 0 <= s < |before.log| && before.log[s].Some? ==> after.log[s] == before.log[s]
  }

  /** The others have done something in between, and the thread of the handle has done nothing but publish
      some of the sequences `lower..upper`. */
  ghost predicate Advanced<T>(before: Moment<T>, after: Moment<T>, lower: Sequence, upper: Sequence) {
    && before.claimed <= after.claimed
    && |before.cursors| == |after.cursors|
    && (forall i :: 0 <= i < |before.cursors| ==> before.cursors[i] <= after.cursors[i])
    && OnlyRivals(before.mine, after.mine) && StaysCommitted(before, after)
    && forall s :: IsHeld(before, s) && !(lower <= s <= upper) ==> IsHeld(after, s)
  }

  ghost predicate Since<T>(before: Moment<T>, after: Moment<T>, lower: Sequence, upper: Sequence) {
    && Advanced(before, after, lower, upper)
    && before.turn <= after.turn
    && (before.claimed < after.claimed ==> before.turn < after.turn)
  }

  /** The others may have taken turns in between. */
  ghost predicate Later<T>(before: Moment<T>, after: Moment<T>) {
    Since(before, after, 0, NONE)
  }

  /** `n` more sequences are claimed. */
  ghost function MoreClaimed<T>(m: Moment<T>, n: nat, own: bool): Moment<T> {
    m.(claimed := m.claimed + n, mine := m.mine + seq(n, _ => own), log := m.log + seq(n, _ => None))
  }

  /** The thread of the handle has claimed `n` sequences. */
  ghost function Claimed<T>(m: Moment<T>, n: nat): Moment<T> {
    MoreClaimed(m, n, true)
  }

  lemma LaterStill<T>(a: Moment<T>, b: Moment<T>, c: Moment<T>)
    requires Later(a, b) && Later(b, c)
    ensures Later(a, c)
  {
  }

  lemma SinceStill<T>(a: Moment<T>, b: Moment<T>, c: Moment<T>, lower: Sequence, upper: Sequence)
    requires Later(a, b) && Since(b, c, lower, upper)
    ensures Since(a, c, lower, upper)
  {
  }

  lemma RearGrows<T>(before: Moment<T>, after: Moment<T>)
    requires Later(before, after) && before.cursors != []
    ensures before.Rear() <= after.Rear()
  {
    LeastGrows(before.cursors, after.cursors);
  }

  lemma StillClear<T>(before: Moment<T>, after: Moment<T>, size: nat, bound: Sequence)
    requires Later(before, after) && before.Clear(size, bound)
    ensures after.Clear(size, bound)
  {
  }

  lemma SinceClear<T>(before: Moment<T>, after: Moment<T>, lower: Sequence, upper: Sequence, size: nat, bound: Sequence)
    requires Since(before, after, lower, upper) && before.Clear(size, bound)
    ensures after.Clear(size, bound)
  {
  }

  /** The call has begun at `start`, and `current` was the last claim at the later moment `asked`. */
  ghost predicate Asking<T>(start: Moment<T>, asked: Moment<T>, now: Moment<T>, current: Sequence, size: nat) {
    && asked.claimed == current && asked.Sane(size) && start.cursors != []
    && Later(start, asked) && Later(start, now) && Later(asked, now)
  }

  /** The `n` sequences after those of `asked` have just been claimed. */
  ghost predicate IsGranted<T>(
      start: Moment<T>, asked: Moment<T>, now: Moment<T>, n: nat, upper: Sequence, size: nat)
  {
    && asked.Sane(size) && now.Sane(size) && Later(start, asked)
    && now == Claimed(asked, n) && upper == now.claimed
  }

  /** There was no room at `asked`; what is reported as missing is between what was missing then and what
      would still be missing now. */
  ghost predicate IsRefused<T>(
      start: Moment<T>, asked: Moment<T>, now: Moment<T>, n: nat, missing: int, size: nat)
  {
    && Asking(start, asked, now, asked.claimed, size) && now.cursors != []
    && n - FreeSlots(size, asked.claimed, now.Rear()) <= missing
    && 0 < missing <= n - FreeSlots(size, asked.claimed, asked.Rear())
  }

  ghost predicate IsAnswered<T>(
      start: Moment<T>, asked: Moment<T>, now: Moment<T>, n: nat, r: Claim, size: nat)
  {
    match r
    case Granted(upper) => IsGranted(start, asked, now, n, upper, size)
    case MissingFreeSlots(missing) => IsRefused(start, asked, now, n, missing, size)
  }

  // ---- the log, the slots and the bits ----

  /** In the lap up to the last claim, the slot of a published sequence holds its event. */
  ghost predicate SlotsOk<T>(size: nat, claimed: Sequence, log: seq<Option<T>>, slots: seq<T>) {
    && |slots| == size > 0
    && forall s :: claimed - size < s <= claimed && 0 <= s < |log| && log[s].Some? ==>
         slots[Slot(size, s)] == log[s].value
  }

  /** In the same lap, every slot was published once in each round before that of its sequence, and once
      more if that is published. */
  ghost predicate CountsOk<T>(size: nat, claimed: Sequence, log: seq<Option<T>>, counts: seq<nat>) {
    && |counts| == size > 0
    && forall s :: claimed - size < s <= claimed ==>
         counts[Slot(size, s)] == Round(size, s) + (if IsPublished(log, s) then 1 else 0)
  }

  /** The shared memory: the counters and the log, the slots, and how often each slot was published. */
  datatype Memory<T> = Memory(now: Moment<T>, slots: seq<T>, counts: seq<nat>)
  {
    ghost predicate Ok(size: nat) {
      now.Sane(size) && SlotsOk(size, now.claimed, now.log, slots) && CountsOk(size, now.claimed, now.log, counts)
    }
  }

  /** Nothing is claimed, and no slot has been published. */
  lemma StartIsOk<T>(size: nat, m: Moment<T>, slots: seq<T>, counts: seq<nat>)
    requires |slots| == size > 0 && counts == seq(size, _ => 0)
    requires m.claimed == NONE && m.mine == [] && m.log == [] && m.cursors != []
    requires forall i :: 0 <= i < |m.cursors| ==> m.cursors[i] == NONE
    ensures Memory(m, slots, counts).Ok(size)
  {
    forall s | NONE - size < s <= NONE
      ensures Round(size, s) == -1
    {
      assert 0 <= s + size < size;
    }
  }

  /** What the thread of the handle has claimed and not published keeps its slots. */
  ghost predicate KeepsHeld<T>(before: Memory<T>, after: Memory<T>) {
    && |before.slots| == |after.slots| > 0
    && forall s :: IsHeld(before.now, s) ==>
         after.slots[Slot(|before.slots|, s)] == before.slots[Slot(|before.slots|, s)]
  }

  /** The others have done something, though not the thread of the handle. */
  ghost predicate ByOthers<T>(before: Memory<T>, after: Memory<T>) {
    Advanced(before.now, after.now, 0, NONE) && KeepsHeld(before, after)
  }

  lemma ByOthersStill<T>(a: Memory<T>, b: Memory<T>, c: Memory<T>)
    requires ByOthers(a, b) && ByOthers(b, c)
    ensures ByOthers(a, c)
  {
  }

  /** What this thread has written and not published stays through the turns of the others. */
  lemma HeldStays<T>(before: Memory<T>, after: Memory<T>, lower: Sequence, upper: Sequence, written: seq<T>)
    requires ByOthers(before, after) && (forall s :: lower <= s <= upper ==> IsHeld(before.now, s))
    requires Contain(before.slots, lower, written) && lower + |written| <= upper + 1
    ensures forall s :: lower <= s <= upper ==> IsHeld(after.now, s)
    ensures Contain(after.slots, lower, written)
  {
    forall s | lower <= s < lower + |written|
      ensures after.slots[Slot(|before.slots|, s)] == written[s - lower]
    {
      assert IsHeld(before.now, s);
    }
  }

  lemma NoTwoSlots(size: nat, s: Sequence, t: Sequence, claimed: Sequence)
    requires size > 0 && s != t && claimed - size < s <= claimed && claimed - size < t <= claimed
    ensures Slot(size, s) != Slot(size, t)
  {
    if s < t {
      DistinctInWindow(size, s, t);
    } else {
      DistinctInWindow(size, t, s);
    }
  }

  /** What is not published is less than a lap behind the last claim, and no consumer has passed it. */
  lemma UnpublishedIsRecent<T>(size: nat, m: Moment<T>, s: Sequence)
    requires m.Sane(size) && !IsPublished(m.log, s)
    ensures m.claimed - size < s && forall i :: 0 <= i < |m.cursors| ==> m.cursors[i] < s
  {
    assert m.cursors[0] <= m.claimed && PublishedUpTo(m.log, m.cursors[0]);
  }

  lemma OldIsPublished<T>(size: nat, m: Moment<T>, s: Sequence)
    requires m.Sane(size)
    ensures s <= m.claimed - size ==> IsPublished(m.log, s)
  {
    if !IsPublished(m.log, s) {
      UnpublishedIsRecent(size, m, s);
    }
  }

  /** In this lap, a bit says whether its sequence is published. */
  lemma BitTells<T>(size: nat, v: Memory<T>, words: seq<Word>, s: Sequence)
    requires v.Ok(size) && Fits(words, size) && Encodes(words, size, v.counts)
    requires v.now.claimed - size < s <= v.now.claimed
    ensures Agrees(words, size, s) <==> IsPublished(v.now.log, s)
  {
    OneBitTest(words, size, v.counts, s);
  }

  lemma NothingAfterTheLastClaim<T>(size: nat, v: Memory<T>, words: seq<Word>, i: nat, h: Sequence)
    requires v.Ok(size) && Fits(words, size) && Encodes(words, size, v.counts) && i < |v.now.cursors|
    requires IsScanResult(words, size, v.now.cursors[i] + 1, h)
    ensures h <= v.now.claimed
  {
    var m := v.now;
    assert m.claimed <= m.cursors[i] + size && PublishedUpTo(m.log, m.cursors[i]);
    var last := m.claimed + 1 - size;
    if last <= m.cursors[i] {
      assert IsPublished(m.log, last);
      BitTells(size, v, words, last);
    }
    LapDisagrees(words, size, last);
    assert last + size == m.claimed + 1;
  }

  /** A scan from the next sequence of a consumer finds exactly what is published without a gap. */
  lemma ScanFindsPublished<T>(size: nat, v: Memory<T>, words: seq<Word>, i: nat, h: Sequence)
    requires v.Ok(size) && Fits(words, size) && Encodes(words, size, v.counts) && i < |v.now.cursors|
    requires IsScanResult(words, size, v.now.cursors[i] + 1, h)
    ensures h <= v.now.claimed && PublishedUpTo(v.now.log, h) && !IsPublished(v.now.log, h + 1)
  {
    NothingAfterTheLastClaim(size, v, words, i, h);
    if h < v.now.claimed {
      BitTells(size, v, words, h + 1);
    }
    assert v.now.claimed <= v.now.cursors[i] + size && PublishedUpTo(v.now.log, v.now.cursors[i]);
    forall s | v.now.cursors[i] < s <= h
      ensures IsPublished(v.now.log, s)
    {
      BitTells(size, v, words, s);
    }
  }

  lemma PassingIsOk<T>(size: nat, v: Memory<T>, i: nat, to: Sequence)
    requires v.Ok(size) && i < |v.now.cursors|
    requires v.now.cursors[i] <= to <= v.now.claimed && PublishedUpTo(v.now.log, to)
    ensures v.(now := v.now.(cursors := v.now.cursors[i := to])).Ok(size)
  {
  }

  lemma ClaimIsOk<T>(size: nat, v: Memory<T>, n: nat, own: bool)
    requires v.Ok(size) && v.now.Clear(size, v.now.claimed + n)
    ensures v.(now := MoreClaimed(v.now, n, own)).Ok(size)
  {
    var m := v.now;
    var m' := MoreClaimed(m, n, own);
    assert forall s :: s <= m.claimed ==> (IsPublished(m'.log, s) <==> IsPublished(m.log, s));
    forall s | m.claimed < s <= m.claimed + n
      ensures v.counts[Slot(size, s)] == Round(size, s)
    {
      assert m.cursors[0] <= m.claimed && s - size <= m.cursors[0] && PublishedUpTo(m.log, m.cursors[0]);
      assert IsPublished(m.log, s - size);
      OneLapOn(size, s - size);
      assert s - size + size == s;
    }
  }

  lemma WriteIsOk<T>(size: nat, v: Memory<T>, at: Sequence, event: T)
    requires v.Ok(size) && at <= v.now.claimed && !IsPublished(v.now.log, at)
    ensures v.(slots := v.slots[Slot(size, at) := event]).Ok(size)
  {
    UnpublishedIsRecent(size, v.now, at);
    forall s | v.now.claimed - size < s <= v.now.claimed && s != at
      ensures Slot(size, s) != Slot(size, at)
    {
      NoTwoSlots(size, s, at, v.now.claimed);
    }
  }

  /** The moment after the publication of `events` from `from` on. */
  ghost function Published<T>(m: Moment<T>, from: Sequence, events: seq<T>): Moment<T> {
    m.(log := seq(|m.log|, s requires 0 <= s < |m.log| =>
         if from <= s < from + |events| then Some(events[s - from]) else m.log[s]))
  }

  /** The log has the events from `from` on. */
  ghost predicate Logged<T>(log: seq<Option<T>>, from: Sequence, events: seq<T>) {
    0 <= from && from + |events| <= |log| && forall s :: from <= s < from + |events| ==> log[s] == Some(events[s - from])
  }

  ghost predicate MayPublish<T>(size: nat, v: Memory<T>, from: Sequence, events: seq<T>) {
    && v.Ok(size) && Contain(v.slots, from, events)
    && 0 <= from && from + |events| - 1 <= v.now.claimed
    && forall s :: from <= s < from + |events| ==> !IsPublished(v.now.log, s)
  }

  ghost function AfterPublication<T>(size: nat, v: Memory<T>, from: Sequence, events: seq<T>): Memory<T>
    requires |v.counts| == size > 0
  {
    Memory(Published(v.now, from, events), v.slots, CountEach(v.counts, size, from, |events|))
  }

  lemma PublicationIsSane<T>(size: nat, m: Moment<T>, from: Sequence, events: seq<T>)
    requires m.Sane(size)
    ensures Published(m, from, events).Sane(size)
  {
    forall i, q | 0 <= i < |m.cursors| && q <= m.cursors[i]
      ensures IsPublished(Published(m, from, events).log, q)
    {
      assert PublishedUpTo(m.log, m.cursors[i]) && IsPublished(m.log, q);
    }
  }

  lemma PublicationIsOk<T>(size: nat, v: Memory<T>, from: Sequence, events: seq<T>)
    requires MayPublish(size, v, from, events)
    ensures AfterPublication(size, v, from, events).Ok(size)
  {
    PublicationIsSane(size, v.now, from, events);
    if events != [] {
      assert !IsPublished(v.now.log, from);
      UnpublishedIsRecent(size, v.now, from);
    }
    var v' := AfterPublication(size, v, from, events);
    forall s | v.now.claimed - size < s <= v.now.claimed
      ensures 0 <= s && v'.now.log[s].Some? ==> v.slots[Slot(size, s)] == v'.now.log[s].value
      ensures v'.counts[Slot(size, s)] == Round(size, s) + (if IsPublished(v'.now.log, s) then 1 else 0)
    {
      if events != [] {
        CountedNear(v.counts, size, from, |events|, s);
      }
    }
  }

  lemma HeldMayBePublished<T>(size: nat, v: Memory<T>, lower: Sequence, events: seq<T>)
    requires v.Ok(size) && Contain(v.slots, lower, events) && 0 <= lower <= v.now.claimed + 1
    requires forall s :: lower <= s < lower + |events| ==> IsHeld(v.now, s)
    ensures MayPublish(size, v, lower, events)
  {
    forall s | lower <= s < lower + |events|
      ensures !IsPublished(v.now.log, s)
    {
      assert IsHeld(v.now, s);
    }
    if events != [] {
      assert IsHeld(v.now, lower + |events| - 1);
    }
  }

  /** The thread of the handle publishes what it has claimed and written. */
  lemma HeldIsPublished<T>(size: nat, v: Memory<T>, lower: Sequence, events: seq<T>)
    requires v.Ok(size) && Contain(v.slots, lower, events) && 0 <= lower <= v.now.claimed + 1
    requires forall s :: lower <= s < lower + |events| ==> IsHeld(v.now, s)
    ensures var v' := AfterPublication(size, v, lower, events);
      && v'.Ok(size) && Since(v.now, v'.now, lower, lower + |events| - 1) && Logged(v'.now.log, lower, events)
      && forall s :: lower <= s < lower + |events| ==> v'.counts[Slot(size, s)] == Round(size, s) + 1
  {
    HeldMayBePublished(size, v, lower, events);
    PublicationIsOk(size, v, lower, events);
    PublicationIsOwn(v.now, lower, events);
    var v' := AfterPublication(size, v, lower, events);
    forall s | lower <= s < lower + |events|
      ensures v'.counts[Slot(size, s)] == Round(size, s) + 1
    {
      assert IsHeld(v.now, s);
      UnpublishedIsRecent(size, v.now, s);
    }
  }

  lemma PublicationIsOwn<T>(m: Moment<T>, lower: Sequence, events: seq<T>)
    requires |m.mine| == |m.log| == m.claimed + 1 && 0 <= lower <= m.claimed + 1
    requires forall s :: lower <= s < lower + |events| ==> IsHeld(m, s)
    ensures Since(m, Published(m, lower, events), lower, lower + |events| - 1)
    ensures Logged(Published(m, lower, events).log, lower, events)
  {
    forall s | 0 <= s < |m.log| && m.log[s].Some?
      ensures Published(m, lower, events).log[s] == m.log[s]
    {
      assert !IsHeld(m, s);
    }
    assert events != [] ==> IsHeld(m, lower + |events| - 1);
  }

  /** Nothing else has changed: of the lap that ends with the batch, the rest is as it was. */
  ghost predicate NothingElse<T>(before: Memory<T>, after: Memory<T>, lower: Sequence, events: seq<T>) {
    && |before.slots| == |after.slots| == |before.counts| == |after.counts| > 0
    && forall s :: lower + |events| - |before.slots| <= s < lower + |events| ==>
         var i := Slot(|before.slots|, s);
         && after.slots[i] == (if s < lower then before.slots[i] else events[s - lower])
         && after.counts[i] == before.counts[i] + (if s < lower then 0 else 1)
  }

  /** The thread of the handle has published the events from `lower` on, and the others have gone on. Each
      of the slots has been published once in each round so far; if rivals are `silent`, nothing else has
      changed. */
  ghost predicate HasPublished<T>(
      before: Memory<T>, after: Memory<T>, lower: Sequence, events: seq<T>, silent: bool)
  {
    && Since(before.now, after.now, lower, lower + |events| - 1)
    && Logged(after.now.log, lower, events) && |events| <= |after.slots| == |after.counts|
    && Contain(after.slots, lower, events)
    && (forall s :: lower <= s < lower + |events| ==>
          after.counts[Slot(|after.slots|, s)] == Round(|after.slots|, s) + 1)
    && (silent ==> NothingElse(before, after, lower, events))
  }

  lemma BatchIsNothingElse<T>(before: Memory<T>, after: Memory<T>, lower: Sequence, events: seq<T>)
    requires |before.slots| == |before.counts| > 0 && |events| <= |before.slots|
    requires after.slots == Written(before.slots, lower, events)
    requires after.counts == CountEach(before.counts, |before.slots|, lower, |events|)
    ensures NothingElse(before, after, lower, events)
  {
    forall s | lower + |events| - |before.slots| <= s < lower + |events|
      ensures var i := Slot(|before.slots|, s);
        && after.slots[i] == (if s < lower then before.slots[i] else events[s - lower])
        && after.counts[i] == before.counts[i] + (if s < lower then 0 else 1)
    {
      WrittenSlots(before.slots, lower, events, s);
      CountedOnce(before.counts, |before.slots|, lower, |events|, s);
    }
  }

  /** A rival publishes a sequence of its own. */
  lemma RivalPublicationIsOk<T>(size: nat, v: Memory<T>, at: Sequence)
    requires v.Ok(size) && 0 <= at <= v.now.claimed && !IsPublished(v.now.log, at) && !IsHeld(v.now, at)
    ensures var v' := Memory(
              Published(v.now, at, [v.slots[Slot(size, at)]]), v.slots,
              v.counts[Slot(size, at) := v.counts[Slot(size, at)] + 1]);
      v'.Ok(size) && ByOthers(v, v')
  {
    PublicationIsOk(size, v, at, [v.slots[Slot(size, at)]]);
    var once := CountEach(v.counts, size, at, 1);
    assert once == CountEach(v.counts, size, at, 0)[Slot(size, at + 1 - 1) := v.counts[Slot(size, at)] + 1];
    RivalIsApart(size, v.now, at);
  }

  /** A sequence of a rival has none of the slots that the thread of the handle holds. */
  lemma RivalIsApart<T>(size: nat, m: Moment<T>, at: Sequence)
    requires size > 0 && m.Sane(size) && at <= m.claimed && !IsPublished(m.log, at) && !IsHeld(m, at)
    ensures forall s :: IsHeld(m, s) ==> Slot(size, s) != Slot(size, at)
  {
    UnpublishedIsRecent(size, m, at);
    forall s | IsHeld(m, s)
      ensures Slot(size, s) != Slot(size, at)
    {
      UnpublishedIsRecent(size, m, s);
      NoTwoSlots(size, s, at, m.claimed);
    }
  }

  /** The events are in the slots of the sequences from `from` on. */
  ghost predicate Contain<T>(slots: seq<T>, from: Sequence, events: seq<T>) {
    |slots| > 0 && forall s :: from <= s < from + |events| ==> slots[Slot(|slots|, s)] == events[s - from]
  }

  lemma OneMoreEvent<T>(before: seq<T>, after: seq<T>, from: Sequence, events: seq<T>, k: nat)
    requires |before| == |after| > k && k < |events| && Contain(before, from, events[..k])
    requires after == before[Slot(|before|, from + k) := events[k]]
    ensures Contain(after, from, events[..k + 1])
  {
    var now := events[..k + 1];
    forall s | from <= s < from + |now|
      ensures after[Slot(|before|, s)] == now[s - from]
    {
      if s < from + k {
        DistinctInWindow(|before|, s, from + k);
        assert events[..k][s - from] == events[s - from];
      }
    }
  }
}
