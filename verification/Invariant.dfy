/** What every step of the protocol keeps. */
module Invariant {
  import opened Bits
  import opened Indexing
  import opened Availability
  import opened Cursors
  import opened Topology
  import opened Protocol

  // ---- publication ----

  predicate PublishedUpTo(published: seq<bool>, a: Sequence) {
    -1 <= a < |published| && forall s :: 0 <= s <= a ==> published[s]
  }

  /** A sequence before the first one counts as published. */
  predicate IsPublished(published: seq<bool>, s: Sequence)
    requires s < |published|
  {
    s < 0 || published[s]
  }

  /** Claims and publications are never taken back. */
  predicate Grown(published: seq<bool>, published': seq<bool>) {
    && |published| <= |published'|
    && forall s :: 0 <= s < |published| && published[s] ==> published'[s]
  }

  /** `a` is published and, in a later stage, behind everybody in the group before. */
  predicate Granted(c: Config, i: nat, cursors: seq<Sequence>, published: seq<bool>, a: Sequence)
    requires i < c.Consumers()
  {
    && PublishedUpTo(published, a)
    && (c.wiring.dependencies[i].OnGroup? ==>
          forall j: nat :: j < |cursors| && j in c.wiring.dependencies[i].group ==> a <= cursors[j])
  }

  // ---- consumers ----

  /** The locals of a scan that started after `cursor`: everything it has passed is published, and
      every remaining bit of its copy of the word that reads as published belongs to a published
      sequence, although the word may have changed since. In the slot of its first sequence it cannot
      mistake the current lap for the next one. */
  ghost predicate ScanOk(size: nat, scan: Scan, cursor: Sequence, published: seq<bool>)
    requires size > 0
  {
    && cursor + 1 <= scan.highest <= cursor + 1 + size
    && PublishedUpTo(published, scan.highest - 1)
    && scan.bitIndex == BitOf(size, scan.highest)
    && scan.flag == Flag(size, scan.highest)
    && (forall j: nat {:trigger Bit(scan.availability, j)} :: j < 64 - scan.bitIndex ==>
          && (scan.highest + j <= cursor + size && Bit(scan.availability, j) == scan.flag ==>
                0 <= scan.highest + j < |published| && published[scan.highest + j])
          && (scan.highest + j == cursor + 1 + size ==> Bit(scan.availability, j) != scan.flag))
  }

  predicate FoldOk(group: seq<nat>, k: nat, low: Low, cursors: seq<Sequence>) {
    && k <= |group|
    && (low.Fin? <==> k > 0)
    && (low.Fin? ==> low.value >= -1)
    && (low.Fin? ==> forall m :: 0 <= m < k && group[m] < |cursors| ==> low.value <= cursors[group[m]])
  }

  ghost predicate ConsumerOk(c: Config, i: nat, pc: ConsumerPc, cursors: seq<Sequence>, published: seq<bool>)
    requires i < c.Consumers() && i < |cursors| && i < |c.managed| && c.size > 0
  {
    var dependency := c.wiring.dependencies[i];
    match pc
    case Resting(_) => !c.managed[i]
    case Ready(limit) => c.managed[i] ==> limit.Unlimited?
    case Folding(limit, k, low) =>
      (c.managed[i] ==> limit.Unlimited?) && dependency.OnGroup? && FoldOk(dependency.group, k, low, cursors)
    case Scanning(limit, scan) =>
      && (c.managed[i] ==> limit.Unlimited?) && dependency.OnProducer? && c.mode.Multi?
      && ScanOk(c.size, scan, cursors[i], published)
    case Found(limit, available) =>
      (c.managed[i] ==> limit.Unlimited?) && Granted(c, i, cursors, published, available)
    case Doubting => c.managed[i]
    case Reading(next, available) =>
      cursors[i] < next <= available + 1 && cursors[i] <= available && Granted(c, i, cursors, published, available)
    case Exited => c.managed[i]
  }

  ghost predicate CursorsOk(c: Config, cursors: seq<Sequence>, published: seq<bool>) {
    && |cursors| == c.Consumers()
    && forall i: nat :: i < |cursors| ==> Granted(c, i, cursors, published, cursors[i])
  }

  ghost predicate ConsumersOk(c: Config, consumers: seq<Consumer>, cursors: seq<Sequence>, published: seq<bool>) {
    && |consumers| == |cursors| == |c.managed| == c.Consumers() && c.size > 0
    && forall i: nat :: i < |consumers| ==> ConsumerOk(c, i, consumers[i].pc, cursors, published)
  }

  /** The next sequence that a consumer has not yet handled. */
  function NextOf(pc: ConsumerPc, cursor: Sequence): Sequence {
    if pc.Reading? then pc.next else cursor + 1
  }

  /** What a consumer has seen is what the log says, in order; a handler misses nothing. */
  ghost predicate SeenOk(seen: seq<Call>, next: Sequence, managed: bool, log: seq<Event>) {
    && 0 <= next <= |log|
    && (forall k :: 0 <= k < |seen| ==> 0 <= seen[k].sequence < next && seen[k].event == log[seen[k].sequence])
    && (forall k, l :: 0 <= k < l < |seen| ==> seen[k].sequence < seen[l].sequence)
    && (managed ==> |seen| == next && forall k :: 0 <= k < |seen| ==> seen[k].sequence == k)
  }

  ghost predicate AllSeenOk(c: Config, consumers: seq<Consumer>, cursors: seq<Sequence>, log: seq<Event>) {
    && |consumers| == |cursors| == |c.managed|
    && forall i: nat :: i < |consumers| ==>
         SeenOk(consumers[i].seen, NextOf(consumers[i].pc, cursors[i]), c.managed[i], log)
  }

  // ---- producers ----

  /** No producer can be more than one lap ahead of the consumers of the gate. */
  predicate Clear(c: Config, cursors: seq<Sequence>, s: Sequence) {
    forall g: nat :: g < |cursors| && g in c.wiring.gate ==> s <= cursors[g] + c.size
  }

  predicate ProducerOk(c: Config, me: Producer, cursors: seq<Sequence>, claimed: Sequence) {
    && Clear(c, cursors, me.clear)
    && match me.pc
       case Check(n, current) => -1 <= current <= claimed
       case Gate(n, current, i, low) =>
         -1 <= current <= claimed && me.clear < current + n && FoldOk(c.wiring.gate, i, low, cursors)
       case Claim(n, current) => -1 <= current <= claimed && current + n <= me.clear
       case Writing(lower, upper) => 0 <= lower <= upper + 1 <= claimed + 1
       case Publishing(next, upper) => 0 <= next <= upper + 1 <= claimed + 1
       case ClosingAt(end) => end == claimed + 1
       case _ => true
  }

  predicate ProducersOk(c: Config, producers: seq<Producer>, cursors: seq<Sequence>, claimed: Sequence) {
    forall p: nat :: p < |producers| ==> ProducerOk(c, producers[p], cursors, claimed)
  }

  /** The sequences that only this producer may write and publish. */
  predicate Owns(pc: ProducerPc, s: Sequence) {
    match pc
    case Writing(lower, upper) => lower <= s <= upper
    case Publishing(next, upper) => next <= s <= upper
    case _ => false
  }

  /** A claimed sequence is unpublished exactly as long as the producer that claimed it owns it. */
  ghost predicate OwnershipOk(producers: seq<Producer>, owner: seq<nat>, published: seq<bool>) {
    && |owner| == |published|
    && (forall s :: 0 <= s < |owner| ==>
          owner[s] < |producers| && (published[s] <==> !Owns(producers[owner[s]].pc, s)))
    && (forall p: nat, s {:trigger Owns(producers[p].pc, s)} :: p < |producers| && Owns(producers[p].pc, s) ==> 0 <= s < |owner| && owner[s] == p)
  }

  // ---- shared memory ----

  /** The bits of the last lap of claimed sequences tell which of them are published. */
  ghost predicate WordsOk(size: nat, words: seq<Word>, published: seq<bool>) {
    && Fits(words, size)
    && forall s: Sequence :: |published| - size <= s < |published| ==>
         Agrees(words, size, s) == IsPublished(published, s)
  }

  predicate UniOk(producers: seq<Producer>, cursor: Sequence, published: seq<bool>) {
    && |producers| == 1
    && -1 <= cursor < |published|
    && (forall s :: 0 <= s < |published| ==> (published[s] <==> s <= cursor))
    && match producers[0].pc
       case Check(_, current) => current == |published| - 1
       case Gate(_, current, _, _) => current == |published| - 1
       case Claim(_, current) => current == |published| - 1
       case Writing(lower, upper) => lower == cursor + 1 && upper == |published| - 1
       case Publishing(next, upper) => next == cursor + 1 && upper == |published| - 1
       case _ => true
  }

  /** The ring holds the last lap of the log. */
  ghost predicate RingOk(size: nat, slots: seq<Event>, log: seq<Event>) {
    && size > 0 && |slots| == size
    && forall s :: 0 <= s < |log| && |log| - size <= s ==> slots[Slot(size, s)] == log[s]
  }

  // ---- shutdown ----

  function LiveHandles(producers: seq<Producer>): nat {
    if producers == [] then 0
    else LiveHandles(producers[..|producers| - 1]) + if Live(producers[|producers| - 1].pc) then 1 else 0
  }

  /** The last handle has been dropped, but has not yet set the stop sequence. */
  predicate BeingClosed(pc: ProducerPc) {
    pc.Closing? || pc.ClosingAt?
  }

  /** The counter counts the live handles; the stop sequence is set only after the last one was dropped,
      to the end of all claims; a handler that has exited stopped exactly there. */
  ghost predicate ShutdownOk(s: State) {
    && s.handles == LiveHandles(s.producers)
    && (s.shutdownAt != NONE ==> s.handles == 0 && s.shutdownAt == s.claimed + 1)
    && (s.handles == 0 ==> s.shutdownAt == s.claimed + 1 || exists p: nat :: p < |s.producers| && BeingClosed(s.producers[p].pc))
    && (forall p: nat :: p < |s.producers| && s.producers[p].pc.Joining? ==> s.shutdownAt == s.claimed + 1)
    && (forall p: nat :: p < |s.producers| && BeingClosed(s.producers[p].pc) ==> s.handles == 0)
    && |s.consumers| == |s.cursors|
    && (forall i: nat :: i < |s.consumers| && s.consumers[i].pc.Exited? ==> s.shutdownAt == s.cursors[i] + 1)
  }

  // ---- the whole ----

  ghost predicate Inv(c: Config, s: State) {
    && ValidConfig(c)
    && s.claimed >= -1
    && |s.log| == |s.published| == s.claimed + 1
    && CursorsOk(c, s.cursors, s.published)
    && Clear(c, s.cursors, s.claimed)
    && ConsumersOk(c, s.consumers, s.cursors, s.published)
    && AllSeenOk(c, s.consumers, s.cursors, s.log)
    && ProducersOk(c, s.producers, s.cursors, s.claimed)
    && OwnershipOk(s.producers, s.owner, s.published)
    && (c.mode.Multi? ==> WordsOk(c.size, s.words, s.published))
    && (c.mode.Uni? ==> UniOk(s.producers, s.cursor, s.published))
    && RingOk(c.size, s.slots, s.log)
    && ShutdownOk(s)
  }

  // ---- first consequences ----

  /** The cursors are staged, because nobody is granted more than the group before has stored. */
  lemma CursorsAreStaged(c: Config, cursors: seq<Sequence>, published: seq<bool>)
    requires CursorsOk(c, cursors, published)
    ensures Staged(c.wiring, cursors)
  {
  }

  /** Gating the producers on the last group protects every consumer of every stage. */
  lemma NoLapping(c: Config, cursors: seq<Sequence>, published: seq<bool>, bound: Sequence, i: nat)
    requires ValidConfig(c) && CursorsOk(c, cursors, published) && Clear(c, cursors, bound) && i < |cursors|
    ensures bound <= cursors[i] + c.size
  {
    CursorsAreStaged(c, cursors, published);
    var g := GateIsBehind(c.wiring, cursors, i);
  }

  /** In the lap after the cursor of a consumer, the bit of a sequence tells whether it is published. */
  lemma BitTellsPublication(c: Config, s: State, i: nat, t: Sequence)
    requires Inv(c, s) && c.mode.Multi? && i < |s.cursors|
    requires s.cursors[i] < t <= s.cursors[i] + c.size
    ensures Agrees(s.words, c.size, t) <==> t < |s.published| && s.published[t]
  {
    NoLapping(c, s.cursors, s.published, s.claimed, i);
    if t >= |s.published| {
      assert Agrees(s.words, c.size, t - c.size) == IsPublished(s.published, t - c.size);
      LapDisagrees(s.words, c.size, t - c.size);
    }
  }
}
