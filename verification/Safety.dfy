/** The invariant holds in every reachable state, and what follows for producers and consumers. */
module Safety {
  import opened Bits
  import opened Indexing
  import opened Availability
  import opened BitScans
  import opened Topology
  import opened Protocol
  import opened Invariant
  import opened ProducerSteps
  import opened ConsumerSteps

  // ---- the invariant holds always ----

  /** All bits set means that the round before the first one is published everywhere. */
  lemma InitialWords(size: nat)
    requires size >= 64 && size % 64 == 0
    ensures WordsOk(size, seq(size / 64, _ => ALL_ONES), [])
  {
    var words := seq(size / 64, _ => ALL_ONES);
    forall s: Sequence | 0 - size <= s < 0
      ensures Agrees(words, size, s)
    {
      InitiallyAgrees(size, s);
    }
  }

  lemma InitHolds(c: Config, s: State)
    requires ValidConfig(c) && Init(c, s)
    ensures Inv(c, s)
  {
    if c.mode.Multi? {
      var k: nat :| c.size == Pow2(k);
      PowerOf64(k);
      InitialWords(c.size);
    }
    assert s.producers[..0] == [];
    assert LiveHandles(s.producers) == 1;
  }

  lemma StepKeeps(c: Config, s: State, t: Step)
    requires Inv(c, s) && Enabled(c, s, t)
    ensures Inv(c, Next(c, s, t))
  {
    if IsProducerStep(t) {
      ProducerStepKeeps(c, s, t);
    } else {
      ConsumerStepKeeps(c, s, t);
    }
  }

  lemma {:induction false} RunHolds(c: Config, states: seq<State>, steps: seq<Step>, k: nat)
    requires IsRun(c, states, steps) && k <= |steps| && Inv(c, states[0])
    ensures Inv(c, states[k])
  {
    if k == 0 {
    } else {
      RunHolds(c, states, steps, k - 1);
      assert IsStep(c, states, steps, k - 1);
      StepKeeps(c, states[k - 1], steps[k - 1]);
    }
  }

  lemma ReachableHolds(c: Config, s: State)
    requires ValidConfig(c) && Reachable(c, s)
    ensures Inv(c, s)
  {
    var states: seq<State>, steps: seq<Step> :|
      IsRun(c, states, steps) && Init(c, states[0]) && states[|steps|] == s;
    InitHolds(c, states[0]);
    RunHolds(c, states, steps, |steps|);
  }

  /** The sequence has been claimed and published. */
  predicate PublishedIn(s: State, q: Sequence) {
    0 <= q < |s.published| && s.published[q]
  }

  // ---- no data races ----

  /** Two producers never have the same slot: neither while the closure of the caller may write it nor
      until it is published. */
  lemma NoTwoWriters(c: Config, s: State, p: nat, q: nat, a: Sequence, b: Sequence)
    requires ValidConfig(c) && Reachable(c, s)
    requires p < |s.producers| && q < |s.producers| && p != q
    requires Owns(s.producers[p].pc, a) && Owns(s.producers[q].pc, b)
    ensures Slot(c.size, a) != Slot(c.size, b)
  {
    ReachableHolds(c, s);
    var i := SomeCursor(c, s);
    OwnedIsAhead(c, s, p, a, i);
    OwnedIsAhead(c, s, q, b, i);
    if a < b {
      DistinctInWindow(c.size, a, b);
    } else {
      DistinctInWindow(c.size, b, a);
    }
  }

  /** A producer never has a slot that a consumer of any stage may still be reading: a handler its
      current event, and the guard of a poller everything from its first event on. */
  lemma NoWriterWithReader(c: Config, s: State, p: nat, i: nat, a: Sequence, b: Sequence)
    requires ValidConfig(c) && Reachable(c, s)
    requires p < |s.producers| && i < |s.consumers| && i < |s.cursors|
    requires Owns(s.producers[p].pc, a)
    requires s.consumers[i].pc.Reading? && s.cursors[i] < b <= s.consumers[i].pc.available
    ensures Slot(c.size, a) != Slot(c.size, b)
  {
    ReachableHolds(c, s);
    OwnedIsAhead(c, s, p, a, i);
    NoLapping(c, s.cursors, s.published, s.claimed, i);
    DistinctInWindow(c.size, b, a);
  }

  // ---- claims ----

  /** A claim takes effect at its compare-and-swap: its sequences directly follow all earlier claims,
      nobody else owns any of them, and at that moment they are at most one lap ahead of every
      consumer, although the bound that allowed it was computed earlier. */
  lemma ClaimTakesEffect(c: Config, s: State, t: Step)
    requires ValidConfig(c) && Reachable(c, s)
    requires t.Exchange? && Enabled(c, s, t) && Next(c, s, t).producers[t.p].pc.Writing?
    ensures var s' := Next(c, s, t);
      var n := s.producers[t.p].pc.n;
      && s'.claimed == s.claimed + n
      && s'.producers[t.p].pc == Writing(s.claimed + 1, s.claimed + n)
      && (forall a, q: nat :: s.claimed < a <= s.claimed + n && q < |s'.producers| && q != t.p ==>
            !Owns(s'.producers[q].pc, a))
      && (forall i :: 0 <= i < |s.cursors| ==> s'.claimed <= s.cursors[i] + c.size)
  {
    ReachableHolds(c, s);
    StepKeeps(c, s, t);
    assert ProducerOk(c, s.producers[t.p], s.cursors, s.claimed);
    var s' := Next(c, s, t);
    forall a, q: nat | s.claimed < a <= s.claimed + s.producers[t.p].pc.n && q < |s'.producers| && q != t.p
      ensures !Owns(s'.producers[q].pc, a)
    {
      assert s'.producers[q] == s.producers[q];
    }
    forall i: nat | i < |s.cursors|
      ensures s'.claimed <= s.cursors[i] + c.size
    {
      NoLapping(c, s'.cursors, s'.published, s'.claimed, i);
    }
  }

  /** More slots than the ring has are never claimed. */
  lemma ClaimsFitTheRing(c: Config, s: State, t: Step)
    requires ValidConfig(c) && Reachable(c, s)
    requires t.Exchange? && Enabled(c, s, t) && Next(c, s, t).producers[t.p].pc.Writing?
    ensures s.producers[t.p].pc.n <= c.size
  {
    ClaimTakesEffect(c, s, t);
    ReachableHolds(c, s);
    var i := SomeCursor(c, s);
    assert Granted(c, i, s.cursors, s.published, s.cursors[i]);
    assert Next(c, s, t).claimed <= s.cursors[i] + c.size;
  }

  // ---- what consumers get ----

  /** Whatever a scan of changing words returns is published, and less than a lap ahead. */
  lemma ScanIsSound(c: Config, s: State, i: nat)
    requires ValidConfig(c) && Reachable(c, s)
    requires i < |s.consumers| && i < |s.cursors| && s.consumers[i].pc.Found?
    ensures var h := s.consumers[i].pc.available;
      && (forall q :: 0 <= q <= h ==> PublishedIn(s, q))
      && h <= s.cursors[i] + c.size
  {
    ReachableHolds(c, s);
    assert ConsumerOk(c, i, s.consumers[i].pc, s.cursors, s.published);
    NoLapping(c, s.cursors, s.published, s.claimed, i);
  }

  /** The history of a handler is a prefix of the log: every sequence from 0 on, in order, without gap
      or repetition, each with the event that its producer published. */
  lemma HandlerSeesTheLog(c: Config, s: State, i: nat)
    requires ValidConfig(c) && Reachable(c, s)
    requires i < |s.consumers| && i < |s.cursors| && i < |c.managed| && c.managed[i]
    ensures var seen := s.consumers[i].seen;
      && s.cursors[i] < |seen| <= |s.log|
      && forall k :: 0 <= k < |seen| ==>
           seen[k].sequence == k && seen[k].event == s.log[k] && PublishedIn(s, k)
  {
    ReachableHolds(c, s);
    assert SeenOk(s.consumers[i].seen, NextOf(s.consumers[i].pc, s.cursors[i]), c.managed[i], s.log);
    assert ConsumerOk(c, i, s.consumers[i].pc, s.cursors, s.published);
    assert Granted(c, i, s.cursors, s.published, s.cursors[i]);
  }

  /** The events that a poller yields are in order and are those of the log; it may skip some. */
  lemma PollerSeesTheLog(c: Config, s: State, i: nat)
    requires ValidConfig(c) && Reachable(c, s) && i < |s.consumers|
    ensures var seen := s.consumers[i].seen;
      && (forall k, l :: 0 <= k < l < |seen| ==> seen[k].sequence < seen[l].sequence)
      && (forall k :: 0 <= k < |seen| ==>
            PublishedIn(s, seen[k].sequence) && seen[k].sequence < |s.log| &&
            seen[k].event == s.log[seen[k].sequence])
  {
    ReachableHolds(c, s);
    assert SeenOk(s.consumers[i].seen, NextOf(s.consumers[i].pc, s.cursors[i]), c.managed[i], s.log);
    assert ConsumerOk(c, i, s.consumers[i].pc, s.cursors, s.published);
    assert Granted(c, i, s.cursors, s.published, s.cursors[i]);
  }

  /** A consumer of a later stage has seen only what every consumer of the group before has passed. */
  lemma StagesAreOrdered(c: Config, s: State, i: nat, j: nat, k: nat)
    requires ValidConfig(c) && Reachable(c, s)
    requires Follows(c.wiring, j, i) && j < |s.cursors| && i < |s.consumers| && k < |s.consumers[i].seen|
    ensures s.consumers[i].seen[k].sequence <= s.cursors[j]
  {
    ReachableHolds(c, s);
    assert SeenOk(s.consumers[i].seen, NextOf(s.consumers[i].pc, s.cursors[i]), c.managed[i], s.log);
    assert ConsumerOk(c, i, s.consumers[i].pc, s.cursors, s.published);
    assert Granted(c, i, s.cursors, s.published, s.cursors[i]);
  }

  /** The gate alone keeps the producers within one lap of every consumer in every stage. */
  lemma GateProtectsEveryStage(c: Config, s: State, i: nat)
    requires ValidConfig(c) && Reachable(c, s) && i < |s.cursors|
    ensures s.claimed <= s.cursors[i] + c.size
    ensures exists g :: g in c.wiring.gate && g < |s.cursors| && s.cursors[g] <= s.cursors[i]
  {
    ReachableHolds(c, s);
    NoLapping(c, s.cursors, s.published, s.claimed, i);
    CursorsAreStaged(c, s.cursors, s.published);
    var g := GateIsBehind(c.wiring, s.cursors, i);
  }

  // ---- parity encodes history ----

  lemma BitIsParity(size: nat, words: seq<Word>, t: Sequence, published: bool)
    requires size > 0 && Fits(words, size) && (Agrees(words, size, t) <==> published)
    ensures var count := Round(size, t) + if published then 1 else 0;
      Bit(words[WordOf(size, t)], BitOf(size, t)) == (count % 2 == 0)
  {
  }

  /** For a sequence in the lap after the cursor of a consumer, the slot has been published in every
      earlier round, and once more exactly if the sequence is published; the availability bit is the
      parity of that number. */
  lemma ParityEncodesHistory(c: Config, s: State, i: nat, t: Sequence)
    requires ValidConfig(c) && c.mode.Multi? && Reachable(c, s)
    requires i < |s.cursors| && s.cursors[i] < t <= s.cursors[i] + c.size
    ensures var count := Publications(c.size, s.published, Slot(c.size, t), |s.published|);
      && count == Round(c.size, t) + (if PublishedIn(s, t) then 1 else 0)
      && Fits(s.words, c.size)
      && Bit(s.words[WordOf(c.size, t)], BitOf(c.size, t)) == (count % 2 == 0)
  {
    ReachableHolds(c, s);
    NoLapping(c, s.cursors, s.published, s.claimed, i);
    assert Granted(c, i, s.cursors, s.published, s.cursors[i]);
    BitTellsPublication(c, s, i, t);
    SlotPublications(c.size, s.published, t);
    BitIsParity(c.size, s.words, t, PublishedIn(s, t));
  }
}
