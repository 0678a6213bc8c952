/** What never changes again in the course of a run. */
module Runs {
  import opened Indexing
  import opened Protocol
  import opened Invariant
  import opened ConsumerSteps
  import opened Safety

  // ---- monotony ----

  /** The later state has at least the claims, publications and progress of the earlier one, the same
      owners, and the same events in published sequences. */
  ghost predicate Later(s: State, s': State) {
    && s.claimed <= s'.claimed
    && s.owner <= s'.owner
    && Grown(s.published, s'.published)
    && Advanced(s.cursors, s'.cursors)
    && |s.producers| <= |s'.producers|
    && |s.log| <= |s'.log| && |s.log| == |s.published| && |s'.log| == |s'.published|
    && forall q :: 0 <= q < |s.log| && s.published[q] ==> s'.log[q] == s.log[q]
  }

  lemma WriteIsLater(c: Config, s: State, t: Step)
    requires Inv(c, s) && t.Write? && Enabled(c, s, t)
    ensures Later(s, Next(c, s, t))
  {
    assert Owns(s.producers[t.p].pc, t.at);
  }

  lemma ConsumerStepIsLater(c: Config, s: State, t: Step)
    requires Inv(c, s) && !IsProducerStep(t) && Enabled(c, s, t)
    ensures Later(s, Next(c, s, t))
  {
    assert ConsumerOk(c, t.i, s.consumers[t.i].pc, s.cursors, s.published);
  }

  lemma StepIsLater(c: Config, s: State, t: Step)
    requires Inv(c, s) && Enabled(c, s, t)
    ensures Later(s, Next(c, s, t))
  {
    if t.Exchange? {
      assert ProducerOk(c, s.producers[t.p], s.cursors, s.claimed);
    } else if t.Write? {
      WriteIsLater(c, s, t);
    } else if IsProducerStep(t) {
    } else {
      ConsumerStepIsLater(c, s, t);
    }
  }

  lemma OneStepLater(c: Config, states: seq<State>, steps: seq<Step>, k: nat)
    requires IsRun(c, states, steps) && Inv(c, states[0]) && k < |steps|
    ensures Later(states[k], states[k + 1])
  {
    RunHolds(c, states, steps, k);
    assert IsStep(c, states, steps, k);
    StepIsLater(c, states[k], steps[k]);
  }

  lemma {:induction false} RunIsLater(c: Config, states: seq<State>, steps: seq<Step>, a: nat, b: nat)
    requires IsRun(c, states, steps) && Inv(c, states[0]) && a <= b <= |steps|
    ensures Later(states[a], states[b])
    decreases b
  {
    if a < b {
      RunIsLater(c, states, steps, a, b - 1);
      OneStepLater(c, states, steps, b - 1);
    } else {
      RunHolds(c, states, steps, a);
    }
  }

  /** What is published stays published, with the same event and the same owner. */
  lemma PublishedForever(c: Config, states: seq<State>, steps: seq<Step>, a: nat, b: nat, q: Sequence)
    requires ValidConfig(c) && IsRun(c, states, steps) && Init(c, states[0]) && a <= b <= |steps|
    requires PublishedIn(states[a], q)
    ensures PublishedIn(states[b], q)
    ensures q < |states[a].log| && q < |states[b].log| && states[b].log[q] == states[a].log[q]
    ensures q < |states[a].owner| && q < |states[b].owner| && states[b].owner[q] == states[a].owner[q]
  {
    InitHolds(c, states[0]);
    RunHolds(c, states, steps, a);
    RunIsLater(c, states, steps, a, b);
  }

  /** The compare-and-swap of this step succeeds. */
  predicate Claims(c: Config, s: State, t: Step)
    requires Enabled(c, s, t)
  {
    t.Exchange? && Next(c, s, t).producers[t.p].pc.Writing?
  }

  lemma ClaimBounds(c: Config, s: State, t: Step)
    requires Inv(c, s) && Enabled(c, s, t) && Claims(c, s, t)
    ensures var s' := Next(c, s, t); s'.producers[t.p].pc == Writing(s.claimed + 1, s'.claimed)
  {
    assert ProducerOk(c, s.producers[t.p], s.cursors, s.claimed);
  }

  /** A claim lies after all earlier claims, so the events of every producer keep their order. */
  lemma ProgramOrder(c: Config, states: seq<State>, steps: seq<Step>, a: nat, b: nat)
    requires ValidConfig(c) && IsRun(c, states, steps) && Init(c, states[0]) && a < b < |steps|
    requires IsStep(c, states, steps, a) && Claims(c, states[a], steps[a])
    requires IsStep(c, states, steps, b) && Claims(c, states[b], steps[b])
    ensures states[a + 1].producers[steps[a].p].pc.upper < states[b + 1].producers[steps[b].p].pc.lower
  {
    InitHolds(c, states[0]);
    RunHolds(c, states, steps, a);
    RunHolds(c, states, steps, b);
    ClaimBounds(c, states[a], steps[a]);
    ClaimBounds(c, states[b], steps[b]);
    RunIsLater(c, states, steps, a + 1, b);
  }

  /** Step `j` of the run is a successful compare-and-swap whose interval holds `q`. */
  ghost predicate ClaimedAt(c: Config, states: seq<State>, steps: seq<Step>, j: nat, q: Sequence) {
    && j < |steps| && |states| == |steps| + 1 && IsStep(c, states, steps, j)
    && Claims(c, states[j], steps[j])
    && var pc := states[j + 1].producers[steps[j].p].pc;
    pc.lower <= q <= pc.upper
  }

  lemma {:induction false} EverySequenceIsClaimed(
      c: Config, states: seq<State>, steps: seq<Step>, k: nat, q: Sequence) returns (j: nat)
    requires ValidConfig(c) && IsRun(c, states, steps) && Init(c, states[0])
    requires k <= |steps| && 0 <= q <= states[k].claimed
    ensures j < k && ClaimedAt(c, states, steps, j, q)
    decreases k
  {
    InitHolds(c, states[0]);
    RunHolds(c, states, steps, k - 1);
    assert IsStep(c, states, steps, k - 1);
    if q <= states[k - 1].claimed {
      j := EverySequenceIsClaimed(c, states, steps, k - 1, q);
    } else {
      j := k - 1;
      if steps[j].Exchange? {
        assert ProducerOk(c, states[j].producers[steps[j].p], states[j].cursors, states[j].claimed);
      }
      ClaimBounds(c, states[j], steps[j]);
    }
  }

  /** The successful claims of a run partition the sequences up to the cursor: exactly those have been
      claimed, every one of them in exactly one claim. */
  lemma ClaimsPartition(c: Config, states: seq<State>, steps: seq<Step>, k: nat, q: Sequence)
    requires ValidConfig(c) && IsRun(c, states, steps) && Init(c, states[0]) && k <= |steps|
    ensures 0 <= q <= states[k].claimed <==> exists j :: 0 <= j < k && ClaimedAt(c, states, steps, j, q)
    ensures forall i: nat, j: nat :: ClaimedAt(c, states, steps, i, q) && ClaimedAt(c, states, steps, j, q) ==> i == j
  {
    if 0 <= q <= states[k].claimed {
      var j := EverySequenceIsClaimed(c, states, steps, k, q);
    }
    forall j | 0 <= j < k && ClaimedAt(c, states, steps, j, q)
      ensures 0 <= q <= states[k].claimed
    {
      ClaimIsWithin(c, states, steps, j, k);
    }
    forall i: nat, j: nat | ClaimedAt(c, states, steps, i, q) && ClaimedAt(c, states, steps, j, q)
      ensures i == j
    {
      if i < j {
        ProgramOrder(c, states, steps, i, j);
      } else if j < i {
        ProgramOrder(c, states, steps, j, i);
      }
    }
  }

  lemma ClaimIsWithin(c: Config, states: seq<State>, steps: seq<Step>, j: nat, k: nat)
    requires ValidConfig(c) && IsRun(c, states, steps) && Init(c, states[0]) && j < k <= |steps|
    requires IsStep(c, states, steps, j) && Claims(c, states[j], steps[j])
    ensures var pc := states[j + 1].producers[steps[j].p].pc;
      0 <= pc.lower && pc.upper <= states[k].claimed
  {
    InitHolds(c, states[0]);
    RunHolds(c, states, steps, j);
    ClaimBounds(c, states[j], steps[j]);
    RunIsLater(c, states, steps, j + 1, k);
  }
}
