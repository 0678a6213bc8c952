/** Every step of a producer keeps the invariant. */
module ProducerSteps {
  import opened Indexing
  import opened Availability
  import opened Cursors
  import opened Protocol
  import opened Invariant

  function One(b: bool): nat { if b then 1 else 0 }

  lemma {:induction false} LiveHandlesAfter(producers: seq<Producer>, p: nat, me: Producer)
    requires p < |producers|
    ensures LiveHandles(producers[p := me]) + One(Live(producers[p].pc)) == LiveHandles(producers) + One(Live(me.pc))
  {
    var n := |producers| - 1;
    if p < n {
      LiveHandlesAfter(producers[..n], p, me);
      assert producers[p := me][..n] == producers[..n][p := me];
    } else {
      assert producers[p := me][..n] == producers[..n];
    }
  }

  lemma {:induction false} LiveCounts(producers: seq<Producer>, p: nat)
    requires p < |producers| && Live(producers[p].pc)
    ensures LiveHandles(producers) > 0
  {
    var n := |producers| - 1;
    if p == n {
    } else {
      LiveCounts(producers[..n], p);
    }
  }

  lemma OwnershipSamePc(producers: seq<Producer>, p: nat, me: Producer, owner: seq<nat>, published: seq<bool>)
    requires p < |producers| && OwnershipOk(producers, owner, published)
    requires forall s :: Owns(me.pc, s) == Owns(producers[p].pc, s)
    ensures OwnershipOk(producers[p := me], owner, published)
  {
    var after := producers[p := me];
    forall s | 0 <= s < |owner|
      ensures owner[s] < |after| && (published[s] <==> !Owns(after[owner[s]].pc, s))
    {
    }
    forall q: nat, s | q < |after| && Owns(after[q].pc, s)
      ensures 0 <= s < |owner| && owner[s] == q
    {
      assert Owns(producers[q].pc, s);
    }
  }

  /** A step that only changes the locals of a live producer, and not what it owns. */
  lemma LocalStep(c: Config, s: State, p: nat, me: Producer)
    requires Inv(c, s) && p < |s.producers|
    requires Live(s.producers[p].pc) && Live(me.pc)
    requires ProducerOk(c, me, s.cursors, s.claimed)
    requires forall q :: Owns(me.pc, q) == Owns(s.producers[p].pc, q)
    requires c.mode.Uni? ==> UniOk(s.producers[p := me], s.cursor, s.published)
    ensures Inv(c, s.(producers := s.producers[p := me]))
  {
    var after := s.producers[p := me];
    OwnershipSamePc(s.producers, p, me, s.owner, s.published);
    LiveHandlesAfter(s.producers, p, me);
    LiveCounts(s.producers, p);
    assert ProducersOk(c, after, s.cursors, s.claimed);
  }

  /** Steps that change nothing but the locals of the producer. */
  lemma LocalStepKeeps(c: Config, s: State, t: Step)
    requires Inv(c, s) && (t.Begin? || t.CheckClear? || t.Flush? || t.Return?) && ProducerEnabled(c, s, t)
    ensures Inv(c, ProducerNext(c, s, t))
  {
    assert ProducerOk(c, s.producers[t.p], s.cursors, s.claimed);
    LocalStep(c, s, t.p, ProducerNext(c, s, t).producers[t.p]);
  }

  lemma LoadGateKeeps(c: Config, s: State, t: Step)
    requires Inv(c, s) && t.LoadGate? && ProducerEnabled(c, s, t)
    ensures Inv(c, ProducerNext(c, s, t))
  {
    assert ProducerOk(c, s.producers[t.p], s.cursors, s.claimed);
    var pc := s.producers[t.p].pc;
    var g := c.wiring.gate[pc.i];
    assert Granted(c, g, s.cursors, s.published, s.cursors[g]);
    LocalStep(c, s, t.p, ProducerNext(c, s, t).producers[t.p]);
  }

  /** A finished fold is at or below every cursor of the group. */
  lemma FoldDone(group: seq<nat>, low: Low, cursors: seq<Sequence>, j: nat)
    requires FoldOk(group, |group|, low, cursors) && j in group && j < |cursors|
    ensures low.Fin? && low.value <= cursors[j]
  {
    var k :| 0 <= k < |group| && group[k] == j;
    assert low.Fin?;
    assert group[k] < |cursors|;
  }

  /** The bound that a producer caches never exceeds the true rear by more than a lap, however stale
      `current` and the loads of the cursors are. */
  lemma DecideKeeps(c: Config, s: State, t: Step)
    requires Inv(c, s) && t.Decide? && ProducerEnabled(c, s, t)
    ensures Inv(c, ProducerNext(c, s, t))
  {
    assert ProducerOk(c, s.producers[t.p], s.cursors, s.claimed);
    var pc := s.producers[t.p].pc;
    var me := ProducerNext(c, s, t).producers[t.p];
    if me.pc.Claim? {
      assert me.clear == pc.low.value + c.size;
      forall g: nat | g < |s.cursors| && g in c.wiring.gate
        ensures me.clear <= s.cursors[g] + c.size
      {
        FoldDone(c.wiring.gate, pc.low, s.cursors, g);
      }
    }
    LocalStep(c, s, t.p, me);
  }

  // ---- claiming ----

  lemma GrantedStays(c: Config, i: nat, cursors: seq<Sequence>, published: seq<bool>, published': seq<bool>, a: Sequence)
    requires i < c.Consumers() && Grown(published, published') && Granted(c, i, cursors, published, a)
    ensures Granted(c, i, cursors, published', a)
  {
  }

  /** What a scan knows stays true when more is claimed or published. */
  lemma ScanStays(size: nat, scan: Scan, cursor: Sequence, published: seq<bool>, published': seq<bool>)
    requires size > 0 && Grown(published, published') && ScanOk(size, scan, cursor, published)
    ensures ScanOk(size, scan, cursor, published')
  {
  }

  lemma ConsumersStay(c: Config, consumers: seq<Consumer>, cursors: seq<Sequence>, published: seq<bool>, published': seq<bool>)
    requires ConsumersOk(c, consumers, cursors, published) && CursorsOk(c, cursors, published)
    requires Grown(published, published')
    ensures ConsumersOk(c, consumers, cursors, published') && CursorsOk(c, cursors, published')
  {
    forall i: nat | i < |consumers|
      ensures ConsumerOk(c, i, consumers[i].pc, cursors, published')
      ensures Granted(c, i, cursors, published', cursors[i])
    {
      assert ConsumerOk(c, i, consumers[i].pc, cursors, published);
      GrantedStays(c, i, cursors, published, published', cursors[i]);
      match consumers[i].pc
      case Scanning(limit, scan) => ScanStays(c.size, scan, cursors[i], published, published');
      case Found(limit, available) => GrantedStays(c, i, cursors, published, published', available);
      case Reading(next, available) => GrantedStays(c, i, cursors, published, published', available);
      case _ =>
    }
  }

  lemma SeenStays(c: Config, consumers: seq<Consumer>, cursors: seq<Sequence>, log: seq<Event>, log': seq<Event>)
    requires AllSeenOk(c, consumers, cursors, log) && |log| <= |log'|
    requires forall i: nat, k :: i < |consumers| && 0 <= k < |consumers[i].seen| ==>
               0 <= consumers[i].seen[k].sequence < |log'| &&
               log'[consumers[i].seen[k].sequence] == consumers[i].seen[k].event
    ensures AllSeenOk(c, consumers, cursors, log')
  {
    forall i: nat | i < |consumers|
      ensures SeenOk(consumers[i].seen, NextOf(consumers[i].pc, cursors[i]), c.managed[i], log')
    {
      assert SeenOk(consumers[i].seen, NextOf(consumers[i].pc, cursors[i]), c.managed[i], log);
    }
  }

  lemma SeenInPrefix(c: Config, consumers: seq<Consumer>, cursors: seq<Sequence>, log: seq<Event>, log': seq<Event>)
    requires AllSeenOk(c, consumers, cursors, log) && log <= log'
    ensures AllSeenOk(c, consumers, cursors, log')
  {
    forall i: nat, k | i < |consumers| && 0 <= k < |consumers[i].seen|
      ensures 0 <= consumers[i].seen[k].sequence < |log'|
      ensures log'[consumers[i].seen[k].sequence] == consumers[i].seen[k].event
    {
      assert SeenOk(consumers[i].seen, NextOf(consumers[i].pc, cursors[i]), c.managed[i], log);
    }
    SeenStays(c, consumers, cursors, log, log');
  }

  lemma OwnershipOfClaim(producers: seq<Producer>, p: nat, me: Producer, owner: seq<nat>, published: seq<bool>, n: nat)
    requires p < |producers| && OwnershipOk(producers, owner, published)
    requires forall s :: !Owns(producers[p].pc, s)
    requires me.pc == Writing(|owner|, |owner| + n - 1)
    ensures OwnershipOk(producers[p := me], owner + seq(n, _ => p), published + seq(n, _ => false))
  {
    var after := producers[p := me];
    var owner', published' := owner + seq(n, _ => p), published + seq(n, _ => false);
    forall s | 0 <= s < |owner'|
      ensures owner'[s] < |after| && (published'[s] <==> !Owns(after[owner'[s]].pc, s))
    {
    }
    forall q: nat, s | q < |after| && Owns(after[q].pc, s)
      ensures 0 <= s < |owner'| && owner'[s] == q
    {
      if q != p {
        assert Owns(producers[q].pc, s);
      }
    }
  }

  /** The slots of the new sequences read as unpublished: their last publication is one lap ago. */
  lemma WordsAfterClaim(c: Config, s: State, n: nat)
    requires Inv(c, s) && c.mode.Multi? && Clear(c, s.cursors, s.claimed + n)
    ensures WordsOk(c.size, s.words, s.published + seq(n, _ => false))
  {
    var published' := s.published + seq(n, _ => false);
    var g := c.wiring.gate[0];
    assert g in c.wiring.gate && s.claimed + n <= s.cursors[g] + c.size;
    assert Granted(c, g, s.cursors, s.published, s.cursors[g]);
    forall t: Sequence | |published'| - c.size <= t < |published'|
      ensures Agrees(s.words, c.size, t) == IsPublished(published', t)
    {
      if t < |s.published| {
        assert Agrees(s.words, c.size, t) == IsPublished(s.published, t);
      } else {
        BitTellsPublication(c, s, g, t);
      }
    }
  }

  lemma RingAfterClaim(size: nat, slots: seq<Event>, log: seq<Event>, n: nat)
    requires RingOk(size, slots, log)
    ensures RingOk(size, slots, log + Inherited(size, slots, |log|, n))
  {
    var log' := log + Inherited(size, slots, |log|, n);
    forall s | 0 <= s < |log'| && |log'| - size <= s
      ensures slots[Slot(size, s)] == log'[s]
    {
      if s < |log| {
        assert slots[Slot(size, s)] == log[s];
      } else {
        assert log'[s] == Inherited(size, slots, |log|, n)[s - |log|];
        assert |log| + (s - |log|) == s;
      }
    }
  }

  lemma ProducersAfterClaim(c: Config, s: State, p: nat, me: Producer, n: nat)
    requires Inv(c, s) && p < |s.producers| && me.clear == s.producers[p].clear
    requires me.pc == Writing(s.claimed + 1, s.claimed + n)
    requires Live(s.producers[p].pc)
    ensures ProducersOk(c, s.producers[p := me], s.cursors, s.claimed + n)
  {
    var after := s.producers[p := me];
    forall q: nat | q < |after|
      ensures ProducerOk(c, after[q], s.cursors, s.claimed + n)
    {
      assert ProducerOk(c, s.producers[q], s.cursors, s.claimed);
      LiveCounts(s.producers, p);
    }
  }

  /** The parts of the invariant that speak about actors and history, after a claim. */
  lemma ClaimKeepsActors(c: Config, s: State, p: nat, me: Producer, n: nat) returns (s': State)
    requires Inv(c, s) && p < |s.producers| && s.producers[p].pc.Claim? && me.clear == s.producers[p].clear
    requires me.pc == Writing(s.claimed + 1, s.claimed + n)
    ensures s' == s.(claimed := s.claimed + n, producers := s.producers[p := me],
                     owner := s.owner + seq(n, _ => p), published := s.published + seq(n, _ => false))
    ensures CursorsOk(c, s'.cursors, s'.published) && ConsumersOk(c, s'.consumers, s'.cursors, s'.published)
    ensures OwnershipOk(s'.producers, s'.owner, s'.published)
    ensures ProducersOk(c, s'.producers, s'.cursors, s'.claimed) && ShutdownOk(s')
  {
    s' := s.(claimed := s.claimed + n, producers := s.producers[p := me],
             owner := s.owner + seq(n, _ => p), published := s.published + seq(n, _ => false));
    ConsumersStay(c, s.consumers, s.cursors, s.published, s'.published);
    OwnershipOfClaim(s.producers, p, me, s.owner, s.published, n);
    ProducersAfterClaim(c, s, p, me, n);
    LiveHandlesAfter(s.producers, p, me);
    LiveCounts(s.producers, p);
  }

  /** The parts that speak about shared memory and the log. */
  lemma ClaimKeepsMemory(c: Config, s: State, p: nat, me: Producer, n: nat)
    requires Inv(c, s) && p < |s.producers| && s.producers[p].pc == Claim(n, s.claimed)
    requires me.pc == Writing(s.claimed + 1, s.claimed + n)
    ensures var published' := s.published + seq(n, _ => false);
      && Clear(c, s.cursors, s.claimed + n)
      && (c.mode.Multi? ==> WordsOk(c.size, s.words, published'))
      && (c.mode.Uni? ==> UniOk(s.producers[p := me], s.cursor, published'))
    ensures var log' := s.log + Inherited(c.size, s.slots, s.claimed + 1, n);
      RingOk(c.size, s.slots, log') && AllSeenOk(c, s.consumers, s.cursors, log')
  {
    assert ProducerOk(c, s.producers[p], s.cursors, s.claimed);
    SeenInPrefix(c, s.consumers, s.cursors, s.log, s.log + Inherited(c.size, s.slots, s.claimed + 1, n));
    RingAfterClaim(c.size, s.slots, s.log, n);
    if c.mode.Multi? {
      WordsAfterClaim(c, s, n);
    } else {
      NothingPending(s.producers, s.cursor, s.owner, s.published);
    }
  }

  /** A successful compare-and-swap claims the sequences after all earlier claims, and at most one lap
      after the slowest consumer. */
  lemma ClaimKeeps(c: Config, s: State, p: nat, n: nat)
    requires Inv(c, s) && p < |s.producers| && s.producers[p].pc == Claim(n, s.claimed)
    ensures Inv(c, Claimed(c.size, s, p, s.claimed, n))
  {
    var me := s.producers[p].(pc := Writing(s.claimed + 1, s.claimed + n));
    var s' := ClaimKeepsActors(c, s, p, me, n);
    ClaimKeepsMemory(c, s, p, me, n);
    var log := s.log + Inherited(c.size, s.slots, s.claimed + 1, n);
    assert Claimed(c.size, s, p, s.claimed, n) == s'.(log := log);
  }

  lemma ExchangeKeeps(c: Config, s: State, t: Step)
    requires Inv(c, s) && t.Exchange? && ProducerEnabled(c, s, t)
    ensures Inv(c, ProducerNext(c, s, t))
  {
    assert ProducerOk(c, s.producers[t.p], s.cursors, s.claimed);
    if s.claimed == s.producers[t.p].pc.current {
      ClaimKeeps(c, s, t.p, s.producers[t.p].pc.n);
    } else {
      LocalStep(c, s, t.p, ProducerNext(c, s, t).producers[t.p]);
    }
  }

  /** A single producer that owns nothing has published everything. */
  lemma NothingPending(producers: seq<Producer>, cursor: Sequence, owner: seq<nat>, published: seq<bool>)
    requires OwnershipOk(producers, owner, published) && UniOk(producers, cursor, published)
    requires forall s :: !Owns(producers[0].pc, s)
    ensures cursor == |published| - 1
  {
    var last := |published| - 1;
    if last >= 0 {
      assert published[last] <==> !Owns(producers[owner[last]].pc, last);
    }
  }

  // ---- writing ----

  /** What a producer owns lies in the last lap and has been granted to nobody. */
  lemma OwnedIsAhead(c: Config, s: State, p: nat, at: Sequence, i: nat)
    requires Inv(c, s) && p < |s.producers| && Owns(s.producers[p].pc, at) && i < |s.cursors|
    ensures 0 <= at < |s.published| && !s.published[at] && s.claimed - c.size < at
    ensures s.cursors[i] < at
    ensures s.consumers[i].pc.Reading? ==> s.consumers[i].pc.available < at
  {
    NoLapping(c, s.cursors, s.published, s.claimed, i);
    assert Granted(c, i, s.cursors, s.published, s.cursors[i]);
    assert ConsumerOk(c, i, s.consumers[i].pc, s.cursors, s.published);
  }

  lemma SomeCursor(c: Config, s: State) returns (i: nat)
    requires Inv(c, s)
    ensures i < |s.cursors|
  {
    i := c.wiring.gate[0];
    assert i in c.wiring.gate;
  }

  lemma RingAfterWrite(size: nat, slots: seq<Event>, log: seq<Event>, at: Sequence, event: Event)
    requires RingOk(size, slots, log) && 0 <= at < |log| && |log| - size <= at
    ensures RingOk(size, slots[Slot(size, at) := event], log[at := event])
  {
    forall s | 0 <= s < |log| && |log| - size <= s
      ensures slots[Slot(size, at) := event][Slot(size, s)] == log[at := event][s]
    {
      assert slots[Slot(size, s)] == log[s];
      if s < at {
        DistinctInWindow(size, s, at);
      } else if at < s {
        DistinctInWindow(size, at, s);
      }
    }
  }

  lemma WriteKeeps(c: Config, s: State, t: Step)
    requires Inv(c, s) && t.Write? && ProducerEnabled(c, s, t)
    ensures Inv(c, ProducerNext(c, s, t))
  {
    var log' := s.log[t.at := t.event];
    assert Owns(s.producers[t.p].pc, t.at);
    var g := SomeCursor(c, s);
    OwnedIsAhead(c, s, t.p, t.at, g);
    RingAfterWrite(c.size, s.slots, s.log, t.at, t.event);
    forall i: nat, k | i < |s.consumers| && 0 <= k < |s.consumers[i].seen|
      ensures 0 <= s.consumers[i].seen[k].sequence < |log'|
      ensures log'[s.consumers[i].seen[k].sequence] == s.consumers[i].seen[k].event
    {
      assert SeenOk(s.consumers[i].seen, NextOf(s.consumers[i].pc, s.cursors[i]), c.managed[i], s.log);
      OwnedIsAhead(c, s, t.p, t.at, i);
      assert ConsumerOk(c, i, s.consumers[i].pc, s.cursors, s.published);
    }
    SeenStays(c, s.consumers, s.cursors, s.log, log');
  }

  // ---- publishing ----

  lemma OwnershipAfterPublishing(
      producers: seq<Producer>, p: nat, me: Producer, owner: seq<nat>, published: seq<bool>, from: nat, to: Sequence)
    requires p < |producers| && OwnershipOk(producers, owner, published) && to < |published|
    requires forall s :: Owns(producers[p].pc, s) <==> from <= s <= to || Owns(me.pc, s)
    requires forall s :: from <= s <= to ==> !Owns(me.pc, s)
    ensures OwnershipOk(producers[p := me], owner, Mark(published, from, to))
  {
    var after, published' := producers[p := me], Mark(published, from, to);
    forall s | 0 <= s < |owner|
      ensures owner[s] < |after| && (published'[s] <==> !Owns(after[owner[s]].pc, s))
    {
      assert published[s] <==> !Owns(producers[owner[s]].pc, s);
      if from <= s <= to {
        assert Owns(producers[p].pc, s);
      }
    }
    forall q: nat, s | q < |after| && Owns(after[q].pc, s)
      ensures 0 <= s < |owner| && owner[s] == q
    {
      assert Owns(producers[q].pc, s);
    }
  }

  /** An XOR flips the bits of exactly the sequences that it publishes, among the last lap. */
  lemma WordsAfterFlip(c: Config, s: State, next: Sequence, e: Sequence)
    requires Inv(c, s) && c.mode.Multi?
    requires 0 <= next <= e < |s.published| && BitOf(c.size, next) + (e - next) < 64
    requires s.claimed - c.size < next
    requires forall t :: next <= t <= e ==> !s.published[t]
    ensures WordsOk(c.size, FlipChunk(s.words, c.size, next, e - next + 1), Mark(s.published, next, e))
  {
    var words', published' := FlipChunk(s.words, c.size, next, e - next + 1), Mark(s.published, next, e);
    forall t: Sequence | |published'| - c.size <= t < |published'|
      ensures Agrees(words', c.size, t) == IsPublished(published', t)
    {
      assert Agrees(s.words, c.size, t) == IsPublished(s.published, t);
      ChunkFlips(s.words, c.size, next, e - next + 1, t);
      ChunkMembers(c.size, next, e, t);
    }
  }

  /** Within one lap, the sequences of a chunk are those whose bits are in the mask. */
  lemma ChunkMembers(size: nat, next: Sequence, e: Sequence, t: Sequence)
    requires size > 0 && size % 64 == 0 && next <= e && BitOf(size, next) + (e - next) < 64
    requires next - size < t < next + size && e - size < t
    ensures InChunk(size, next, e - next + 1, t) <==> next <= t <= e
  {
    if next <= t <= e {
      WithinWord(size, next, t - next);
    } else if InChunk(size, next, e - next + 1, t) {
      var j := BitOf(size, t) - BitOf(size, next);
      WithinWord(size, next, j);
      assert Slot(size, next + j) == Slot(size, t);
      if t < next + j {
        DistinctInWindow(size, t, next + j);
      } else {
        DistinctInWindow(size, next + j, t);
      }
    }
  }

  lemma ChunkKeepsWords(c: Config, s: State, p: nat, next: nat, e: Sequence, upper: Sequence)
    requires Inv(c, s) && c.mode.Multi? && p < |s.producers| && s.producers[p].pc == Publishing(next, upper)
    requires next <= e <= upper < |s.published| && BitOf(c.size, next) + (e - next) < 64
    ensures WordsOk(c.size, FlipChunk(s.words, c.size, next, e - next + 1), Mark(s.published, next, e))
  {
    var pc := s.producers[p].pc;
    var g := SomeCursor(c, s);
    assert Owns(pc, next);
    OwnedIsAhead(c, s, p, next, g);
    forall q | next <= q <= e
      ensures !s.published[q]
    {
      assert Owns(pc, q);
      OwnedIsAhead(c, s, p, q, g);
    }
    WordsAfterFlip(c, s, next, e);
  }

  /** A publication: the producer gives up `from..to`, and nothing else changes but the barrier. */
  lemma PublicationKeeps(c: Config, s: State, p: nat, me: Producer, from: nat, to: Sequence) returns (s': State)
    requires Inv(c, s) && p < |s.producers| && to < |s.published|
    requires Live(s.producers[p].pc) && Live(me.pc) && ProducerOk(c, me, s.cursors, s.claimed)
    requires forall q :: Owns(s.producers[p].pc, q) <==> from <= q <= to || Owns(me.pc, q)
    requires forall q :: from <= q <= to ==> !Owns(me.pc, q)
    ensures s' == s.(producers := s.producers[p := me], published := Mark(s.published, from, to))
    ensures CursorsOk(c, s'.cursors, s'.published) && ConsumersOk(c, s'.consumers, s'.cursors, s'.published)
    ensures OwnershipOk(s'.producers, s'.owner, s'.published)
    ensures ProducersOk(c, s'.producers, s'.cursors, s'.claimed) && ShutdownOk(s')
  {
    s' := s.(producers := s.producers[p := me], published := Mark(s.published, from, to));
    OwnershipAfterPublishing(s.producers, p, me, s.owner, s.published, from, to);
    ConsumersStay(c, s.consumers, s.cursors, s.published, s'.published);
    LiveHandlesAfter(s.producers, p, me);
    LiveCounts(s.producers, p);
  }

  lemma FlipKeeps(c: Config, s: State, p: nat, next: nat, e: Sequence, upper: Sequence)
    requires Inv(c, s) && c.mode.Multi? && p < |s.producers| && s.producers[p].pc == Publishing(next, upper)
    requires next <= e <= upper < |s.published| && BitOf(c.size, next) + (e - next) < 64
    ensures Inv(c, Flipped(c.size, s, p, next, e, upper))
  {
    assert ProducerOk(c, s.producers[p], s.cursors, s.claimed);
    ChunkKeepsWords(c, s, p, next, e, upper);
    var s' := PublicationKeeps(c, s, p, s.producers[p].(pc := Publishing(e + 1, upper)), next, e);
  }

  lemma FlipBitsKeeps(c: Config, s: State, t: Step)
    requires Inv(c, s) && t.FlipBits? && ProducerEnabled(c, s, t)
    ensures Inv(c, ProducerNext(c, s, t))
  {
    var pc := s.producers[t.p].pc;
    FlipKeeps(c, s, t.p, pc.next, ChunkEnd(c.size, pc.next, pc.upper), pc.upper);
  }

  lemma StoreCursorKeeps(c: Config, s: State, t: Step)
    requires Inv(c, s) && t.StoreCursor? && ProducerEnabled(c, s, t)
    ensures Inv(c, ProducerNext(c, s, t))
  {
    assert ProducerOk(c, s.producers[t.p], s.cursors, s.claimed);
    var pc := s.producers[t.p].pc;
    var s' := PublicationKeeps(c, s, t.p, s.producers[t.p].(pc := Idle(Published(pc.upper))), pc.next, pc.upper);
  }

  // ---- handles ----

  /** A clone starts with the bound 0, which is below one lap from the start. */
  lemma CloneKeeps(c: Config, s: State, t: Step)
    requires Inv(c, s) && t.Clone? && ProducerEnabled(c, s, t)
    ensures Inv(c, ProducerNext(c, s, t))
  {
    var me := Producer(Idle(NoCall), 0);
    var after := s.producers + [me];
    assert after[..|after| - 1] == s.producers;
    forall g: nat | g < |s.cursors| && g in c.wiring.gate
      ensures 0 <= s.cursors[g] + c.size
    {
      assert Granted(c, g, s.cursors, s.published, s.cursors[g]);
    }
    assert ProducersOk(c, after, s.cursors, s.claimed);
    forall q: nat, r | q < |after| && Owns(after[q].pc, r)
      ensures 0 <= r < |s.owner| && s.owner[r] == q
    {
      assert Owns(s.producers[q].pc, r);
    }
    LiveCounts(s.producers, t.p);
  }

  lemma DropKeeps(c: Config, s: State, t: Step)
    requires Inv(c, s) && t.Drop? && ProducerEnabled(c, s, t)
    ensures Inv(c, ProducerNext(c, s, t))
  {
    assert ProducerOk(c, s.producers[t.p], s.cursors, s.claimed);
    var s' := ProducerNext(c, s, t);
    var me := s'.producers[t.p];
    OwnershipSamePc(s.producers, t.p, me, s.owner, s.published);
    LiveHandlesAfter(s.producers, t.p, me);
    LiveCounts(s.producers, t.p);
    assert ProducersOk(c, s'.producers, s.cursors, s.claimed);
  }

  /** A step of the handle that was dropped last. */
  lemma ClosingStep(c: Config, s: State, p: nat, me: Producer, shutdownAt: Sequence)
    requires Inv(c, s) && p < |s.producers| && !Live(s.producers[p].pc) && !Live(me.pc)
    requires me.clear == s.producers[p].clear
    requires me.pc.ClosingAt? ==> s.handles == 0 && me.pc.end == s.claimed + 1
    requires !me.pc.Closing?
    requires me.pc.ClosingAt? || shutdownAt == s.claimed + 1
    requires shutdownAt == s.shutdownAt || (s.handles == 0 && shutdownAt == s.claimed + 1 && s.shutdownAt == NONE)
    ensures Inv(c, s.(producers := s.producers[p := me], shutdownAt := shutdownAt))
  {
    assert ProducerOk(c, s.producers[p], s.cursors, s.claimed);
    var after := s.producers[p := me];
    assert me.pc.ClosingAt? ==> BeingClosed(after[p].pc);
    OwnershipSamePc(s.producers, p, me, s.owner, s.published);
    LiveHandlesAfter(s.producers, p, me);
    assert ProducersOk(c, after, s.cursors, s.claimed);
    forall i: nat | i < |s.consumers| && s.consumers[i].pc.Exited?
      ensures shutdownAt == s.cursors[i] + 1
    {
      assert Granted(c, i, s.cursors, s.published, s.cursors[i]);
    }
  }

  lemma ClosingStepKeeps(c: Config, s: State, t: Step)
    requires Inv(c, s) && (t.LoadEnd? || t.StoreEnd? || t.Join?) && ProducerEnabled(c, s, t)
    ensures Inv(c, ProducerNext(c, s, t))
  {
    assert ProducerOk(c, s.producers[t.p], s.cursors, s.claimed);
    var s' := ProducerNext(c, s, t);
    ClosingStep(c, s, t.p, s'.producers[t.p], s'.shutdownAt);
  }

  lemma ProducerStepKeeps(c: Config, s: State, t: Step)
    requires Inv(c, s) && IsProducerStep(t) && ProducerEnabled(c, s, t)
    ensures Inv(c, ProducerNext(c, s, t))
  {
    match t
    case Begin(_, _) => LocalStepKeeps(c, s, t);
    case CheckClear(_) => LocalStepKeeps(c, s, t);
    case LoadGate(_) => LoadGateKeeps(c, s, t);
    case Decide(_) => DecideKeeps(c, s, t);
    case Exchange(_) => ExchangeKeeps(c, s, t);
    case Write(_, _, _) => WriteKeeps(c, s, t);
    case Flush(_) => LocalStepKeeps(c, s, t);
    case FlipBits(_) => FlipBitsKeeps(c, s, t);
    case StoreCursor(_) => StoreCursorKeeps(c, s, t);
    case Return(_) => LocalStepKeeps(c, s, t);
    case Clone(_) => CloneKeeps(c, s, t);
    case Drop(_) => DropKeeps(c, s, t);
    case LoadEnd(_) => ClosingStepKeeps(c, s, t);
    case StoreEnd(_) => ClosingStepKeeps(c, s, t);
    case Join(_) => ClosingStepKeeps(c, s, t);
  }
}
