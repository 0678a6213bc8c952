/** How requests and publications end, when refusals take effect, and who pays for failed attempts to
    claim. */
module Claims {
  import opened Indexing
  import opened Cursors
  import opened Protocol
  import opened Invariant
  import opened ProducerSteps
  import opened ConsumerSteps
  import opened Safety
  import opened Runs
  import Rings

  // ---- refusals ----

  predicate InRange(gate: seq<nat>, cursors: seq<Sequence>) {
    gate != [] && forall k :: 0 <= k < |gate| ==> gate[k] < |cursors|
  }

  function Of(gate: seq<nat>, cursors: seq<Sequence>): (vs: seq<Sequence>)
    requires InRange(gate, cursors)
    ensures |vs| == |gate|
    ensures forall k :: 0 <= k < |gate| ==> vs[k] == cursors[gate[k]]
  {
    seq(|gate|, k requires 0 <= k < |gate| => cursors[gate[k]])
  }

  /** The true rear: the least cursor of the gate. */
  function Rear(gate: seq<nat>, cursors: seq<Sequence>): Sequence
    requires InRange(gate, cursors)
  {
    Least(Of(gate, cursors)).value
  }

  /** The number of slots that are really free in a state. */
  function TrulyFree(c: Config, s: State): int
    requires InRange(c.wiring.gate, s.cursors)
  {
    Rings.FreeSlots(c.size, s.claimed, Rear(c.wiring.gate, s.cursors))
  }

  /** In `next_sequences(n)`. */
  predicate Requesting(pc: ProducerPc, n: nat) {
    (pc.Check? || pc.Gate? || pc.Claim?) && pc.n == n
  }

  /** A request ends in two ways only: its exchange claims the sequences after all that is claimed, or it
      is refused after a look at the consumers. In particular, it goes on after an exchange that is lost. */
  lemma RequestEnds(c: Config, s: State, t: Step, p: nat, n: nat)
    requires Inv(c, s) && Enabled(c, s, t) && p < |s.producers| && Requesting(s.producers[p].pc, n)
    requires !Requesting(Next(c, s, t).producers[p].pc, n)
    ensures var pc := Next(c, s, t).producers[p].pc;
      || (t == Exchange(p) && pc == Writing(s.claimed + 1, s.claimed + n))
      || (t == Decide(p) && pc.Idle? && pc.last.MissingFreeSlots? && pc.last.missing > 0)
  {
    assert ProducerOk(c, s.producers[p], s.cursors, s.claimed);
  }

  /** The producer read `current` in this state, and its fold of the gate has not gone below the rear
      of this state. */
  ghost predicate ReadIn(c: Config, s: State, pc: ProducerPc)
    requires InRange(c.wiring.gate, s.cursors)
  {
    && (pc.Check? || pc.Gate? || pc.Claim?)
    && pc.current == s.claimed
    && (pc.Gate? && pc.low.Fin? ==> Rear(c.wiring.gate, s.cursors) <= pc.low.value)
  }

  lemma GateExists(c: Config, s: State)
    requires Inv(c, s)
    ensures InRange(c.wiring.gate, s.cursors)
  {
    forall k | 0 <= k < |c.wiring.gate|
      ensures c.wiring.gate[k] < |s.cursors|
    {
      assert c.wiring.gate[k] in c.wiring.gate;
    }
  }

  lemma RunInRange(c: Config, states: seq<State>, steps: seq<Step>, a: nat, b: nat)
    requires IsRun(c, states, steps) && Inv(c, states[0]) && a <= b <= |steps|
    ensures InRange(c.wiring.gate, states[a].cursors) && InRange(c.wiring.gate, states[b].cursors)
    ensures Advanced(states[a].cursors, states[b].cursors)
  {
    RunHolds(c, states, steps, a);
    GateExists(c, states[a]);
    RunIsLater(c, states, steps, a, b);
  }

  /** In state `m`, `current` was true, and what the producer has seen of the gate in state `b` is not
      below the rear of that moment. */
  ghost predicate WasRead(c: Config, states: seq<State>, m: nat, b: nat, p: nat) {
    && m < |states| && b < |states| && p < |states[b].producers|
    && InRange(c.wiring.gate, states[m].cursors)
    && ReadIn(c, states[m], states[b].producers[p].pc)
  }

  lemma MomentMoves(c: Config, states: seq<State>, steps: seq<Step>, m: nat, b: nat, p: nat, n: nat)
    requires IsRun(c, states, steps) && Inv(c, states[0]) && m <= b < |steps| && WasRead(c, states, m, b, p)
    requires Requesting(states[b].producers[p].pc, n)
    requires p < |states[b + 1].producers| && Requesting(states[b + 1].producers[p].pc, n)
    ensures WasRead(c, states, m, b + 1, p) || WasRead(c, states, b, b + 1, p)
  {
    assert IsStep(c, states, steps, b);
    RunInRange(c, states, steps, m, b);
    if steps[b].LoadGate? && steps[b].p == p {
      assert Of(c.wiring.gate, states[m].cursors)[states[b].producers[p].pc.i] in Of(c.wiring.gate, states[m].cursors);
    }
  }

  /** During a request there is always a moment since its start at which `current` was true. */
  lemma {:induction false} MomentOfReading(
      c: Config, states: seq<State>, steps: seq<Step>, a: nat, b: nat, p: nat, n: nat) returns (m: nat)
    requires IsRun(c, states, steps) && Inv(c, states[0]) && a < b <= |steps|
    requires steps[a] == Begin(p, n)
    requires forall j :: a < j <= b ==> p < |states[j].producers| && Requesting(states[j].producers[p].pc, n)
    ensures a <= m < b && WasRead(c, states, m, b, p)
    decreases b
  {
    if a + 1 == b {
      m := a;
      assert IsStep(c, states, steps, a);
      RunInRange(c, states, steps, a, a + 1);
    } else {
      m := MomentOfReading(c, states, steps, a, b - 1, p, n);
      MomentMoves(c, states, steps, m, b - 1, p, n);
      if !WasRead(c, states, m, b, p) {
        m := b - 1;
      }
    }
  }

  /** A refusal takes effect at a moment during the call: then fewer than `n` slots were really free, and
      at least as many were missing as the error says. The error does not say less either than what is
      missing at the end, if nobody claims in between; if the gate has not moved, it is exact. */
  lemma RefusalTakesEffect(
      c: Config, states: seq<State>, steps: seq<Step>, a: nat, b: nat, p: nat, n: nat, missing: int) returns (m: nat)
    requires ValidConfig(c) && IsRun(c, states, steps) && Init(c, states[0]) && a < b < |steps|
    requires steps[a] == Begin(p, n)
    requires forall j :: a < j <= b ==> p < |states[j].producers| && Requesting(states[j].producers[p].pc, n)
    requires p < |states[b + 1].producers| && states[b + 1].producers[p].pc == Idle(MissingFreeSlots(missing))
    ensures a <= m < b
    ensures InRange(c.wiring.gate, states[m].cursors) && InRange(c.wiring.gate, states[b].cursors)
    ensures TrulyFree(c, states[m]) < n && 0 < missing <= n - TrulyFree(c, states[m])
    ensures n - Rings.FreeSlots(c.size, states[m].claimed, Rear(c.wiring.gate, states[b].cursors)) <= missing
  {
    InitHolds(c, states[0]);
    m := MomentOfReading(c, states, steps, a, b, p, n);
    assert IsStep(c, states, steps, b);
    RunHolds(c, states, steps, b);
    RequestEnds(c, states[b], steps[b], p, n);
    FoldIsBelowRear(c, states[b], p);
  }

  /** What a look at the whole gate has found is not above the true rear. */
  lemma FoldIsBelowRear(c: Config, s: State, p: nat)
    requires Inv(c, s) && p < |s.producers|
    ensures InRange(c.wiring.gate, s.cursors)
    ensures var pc := s.producers[p].pc;
      pc.Gate? && pc.i == |c.wiring.gate| ==> pc.low.Fin? && pc.low.value <= Rear(c.wiring.gate, s.cursors)
  {
    GateExists(c, s);
    assert ProducerOk(c, s.producers[p], s.cursors, s.claimed);
    if s.producers[p].pc.Gate? && s.producers[p].pc.i == |c.wiring.gate| {
      BelowLeast(Of(c.wiring.gate, s.cursors), s.producers[p].pc.low.value);
    }
  }

  /** A producer reads the cursors of consumers only while its bound does not suffice. */
  lemma LooksOnlyWhenNeeded(c: Config, s: State, p: nat)
    requires ValidConfig(c) && Reachable(c, s) && ProducerEnabled(c, s, LoadGate(p))
    ensures s.producers[p].clear < s.producers[p].pc.current + s.producers[p].pc.n
  {
    ReachableHolds(c, s);
    assert ProducerOk(c, s.producers[p], s.cursors, s.claimed);
  }

  lemma OnlyLooksRenew(c: Config, s: State, t: Step, p: nat)
    requires Inv(c, s) && Enabled(c, s, t) && p < |s.producers|
    requires Next(c, s, t).producers[p].clear != s.producers[p].clear
    ensures var pc := s.producers[p].pc;
      && pc.Gate? && pc.i == |c.wiring.gate| && pc.low.Fin?
      && pc.current + pc.n <= Next(c, s, t).producers[p].clear == pc.low.value + c.size
  {
  }

  /** The bound that a producer keeps is renewed only when it does not suffice, and then to a lap after
      where the slowest consumer was during the call. */
  lemma BoundIsRenewed(
      c: Config, states: seq<State>, steps: seq<Step>, a: nat, b: nat, p: nat, n: nat) returns (m: nat)
    requires ValidConfig(c) && IsRun(c, states, steps) && Init(c, states[0]) && a < b < |steps|
    requires steps[a] == Begin(p, n)
    requires forall j :: a < j <= b ==> p < |states[j].producers| && Requesting(states[j].producers[p].pc, n)
    requires p < |states[b + 1].producers| && states[b + 1].producers[p].clear != states[b].producers[p].clear
    ensures a <= m < b
    ensures InRange(c.wiring.gate, states[m].cursors) && InRange(c.wiring.gate, states[b].cursors)
    ensures var clear := states[b + 1].producers[p].clear;
      && Rear(c.wiring.gate, states[m].cursors) + c.size <= clear <= Rear(c.wiring.gate, states[b].cursors) + c.size
      && states[m].claimed + n <= clear
  {
    InitHolds(c, states[0]);
    m := MomentOfReading(c, states, steps, a, b, p, n);
    assert IsStep(c, states, steps, b);
    RunHolds(c, states, steps, b);
    OnlyLooksRenew(c, states[b], steps[b], p);
    FoldIsBelowRear(c, states[b], p);
  }

  // ---- publications ----

  /** The batch `lower..upper` is being written, or published so far. */
  ghost predicate InBatch(s: State, p: nat, lower: Sequence, upper: Sequence) {
    && p < |s.producers|
    && var pc := s.producers[p].pc;
       || pc == Writing(lower, upper)
       || (pc.Publishing? && lower <= pc.next && pc.upper == upper && forall q :: lower <= q < pc.next ==> PublishedIn(s, q))
  }

  lemma StaysPublished(c: Config, s: State, t: Step)
    requires Inv(c, s) && Enabled(c, s, t)
    ensures forall q :: PublishedIn(s, q) ==> PublishedIn(Next(c, s, t), q)
  {
    StepIsLater(c, s, t);
  }

  /** A call that has claimed a batch goes on until it answers with the last sequence of the batch, and
      then all of it is published. */
  lemma BatchStep(c: Config, s: State, t: Step, p: nat, lower: Sequence, upper: Sequence)
    requires Inv(c, s) && Enabled(c, s, t) && InBatch(s, p, lower, upper)
    ensures var s' := Next(c, s, t);
      || InBatch(s', p, lower, upper)
      || (s'.producers[p].pc == Idle(Published(upper)) && forall q :: lower <= q <= upper ==> PublishedIn(s', q))
  {
    StaysPublished(c, s, t);
  }

  lemma {:induction false} BatchRun(
      c: Config, states: seq<State>, steps: seq<Step>, a: nat, b: nat, p: nat, lower: Sequence, upper: Sequence)
    requires IsRun(c, states, steps) && Inv(c, states[0]) && a <= b <= |steps|
    requires InBatch(states[a], p, lower, upper)
    requires forall j :: a <= j < b ==> p < |states[j].producers| && !states[j].producers[p].pc.Idle?
    ensures InBatch(states[b], p, lower, upper)
      || (&& p < |states[b].producers| && states[b].producers[p].pc == Idle(Published(upper))
          && forall q :: lower <= q <= upper ==> PublishedIn(states[b], q))
    decreases b
  {
    if a < b {
      BatchRun(c, states, steps, a, b - 1, p, lower, upper);
      RunHolds(c, states, steps, b - 1);
      assert IsStep(c, states, steps, b - 1);
      BatchStep(c, states[b - 1], steps[b - 1], p, lower, upper);
    }
  }

  /** In any run: a call whose exchange succeeds next answers with the last sequence that it has claimed,
      when all of them are published. */
  lemma CallsReportTheirClaims(c: Config, states: seq<State>, steps: seq<Step>, a: nat, b: nat, p: nat)
    requires ValidConfig(c) && IsRun(c, states, steps) && Init(c, states[0]) && a < b <= |steps|
    requires steps[a] == Exchange(p) && p < |states[a + 1].producers| && states[a + 1].producers[p].pc.Writing?
    requires forall j :: a < j < b ==> p < |states[j].producers| && !states[j].producers[p].pc.Idle?
    requires p < |states[b].producers| && states[b].producers[p].pc.Idle?
    ensures states[b].producers[p].pc == Idle(Published(states[a + 1].claimed))
    ensures forall q :: states[a].claimed < q <= states[a + 1].claimed ==> PublishedIn(states[b], q)
  {
    InitHolds(c, states[0]);
    RunHolds(c, states, steps, a);
    assert IsStep(c, states, steps, a);
    BatchRun(c, states, steps, a + 1, b, p, states[a].claimed + 1, states[a + 1].claimed);
  }

  // ---- lock freedom ----

  /** An attempt of `p` to claim lost against another claim. */
  predicate Fails(c: Config, s: State, t: Step, p: nat)
    requires Enabled(c, s, t)
  {
    t.Exchange? && t.p == p && Next(c, s, t).producers[p].pc.Check?
  }

  /** Another producer claimed at least one sequence. */
  predicate RivalWins(c: Config, s: State, t: Step, p: nat)
    requires Enabled(c, s, t)
  {
    t.Exchange? && t.p != p && Next(c, s, t).claimed > s.claimed
  }

  function Failures(c: Config, states: seq<State>, steps: seq<Step>, p: nat, k: nat): nat
    requires IsRun(c, states, steps) && k <= |steps|
  {
    if k == 0 then 0
    else
      assert IsStep(c, states, steps, k - 1);
      Failures(c, states, steps, p, k - 1) + if Fails(c, states[k - 1], steps[k - 1], p) then 1 else 0
  }

  function RivalClaims(c: Config, states: seq<State>, steps: seq<Step>, p: nat, k: nat): nat
    requires IsRun(c, states, steps) && k <= |steps|
  {
    if k == 0 then 0
    else
      assert IsStep(c, states, steps, k - 1);
      RivalClaims(c, states, steps, p, k - 1) + if RivalWins(c, states[k - 1], steps[k - 1], p) then 1 else 0
  }

  /** The producer holds a value of the cursor that is no longer true: its next attempt will fail. */
  predicate Stale(s: State, p: nat) {
    && p < |s.producers|
    && var pc := s.producers[p].pc;
    (pc.Check? || pc.Gate? || pc.Claim?) && pc.current != s.claimed
  }

  lemma StaleStep(c: Config, s: State, t: Step, p: nat)
    requires Inv(c, s) && Enabled(c, s, t) && c.mode.Multi?
    ensures One(Fails(c, s, t, p)) + One(Stale(Next(c, s, t), p)) <= One(Stale(s, p)) + One(RivalWins(c, s, t, p))
  {
    if t.Exchange? {
      assert ProducerOk(c, s.producers[t.p], s.cursors, s.claimed);
    }
  }

  /** Every attempt that fails is paid for by a claim of another producer: in any run, a producer loses
      at most as often as the others have claimed. */
  lemma {:induction false} FailuresArePaidFor(c: Config, states: seq<State>, steps: seq<Step>, p: nat, k: nat)
    requires ValidConfig(c) && c.mode.Multi? && IsRun(c, states, steps) && Init(c, states[0]) && k <= |steps|
    ensures Failures(c, states, steps, p, k) + One(Stale(states[k], p)) <= RivalClaims(c, states, steps, p, k)
  {
    if k == 0 {
    } else {
      FailuresArePaidFor(c, states, steps, p, k - 1);
      InitHolds(c, states[0]);
      RunHolds(c, states, steps, k - 1);
      assert IsStep(c, states, steps, k - 1);
      StaleStep(c, states[k - 1], steps[k - 1], p);
    }
  }

  /** A single producer never loses its claim. */
  lemma SingleProducerNeverFails(c: Config, s: State, t: Step)
    requires ValidConfig(c) && c.mode.Uni? && Reachable(c, s) && t.Exchange? && Enabled(c, s, t)
    ensures s.producers[t.p].pc.current == s.claimed
  {
    ReachableHolds(c, s);
  }
}
