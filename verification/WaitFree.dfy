/** How many steps of its own an actor needs at most, in every run and whatever the others do. */
module WaitFree {
  import opened Sums
  import opened Protocol
  import opened Invariant
  import opened ProducerSteps
  import opened Safety
  import opened Runs
  import opened Progress
  import opened Claims

  // ---- consumers ----

  /** The consumer takes a step, other than a poll with limit zero. */
  predicate IsOwnStep(t: Step, i: nat) {
    !IsProducerStep(t) && t.i == i && !(t.Poll? && AtMostNothing(t.limit))
  }

  function OwnSteps(steps: seq<Step>, i: nat, a: nat, b: nat): nat
    requires a <= b <= |steps|
  {
    if a == b then 0 else OwnSteps(steps, i, a, b - 1) + if IsOwnStep(steps[b - 1], i) then 1 else 0
  }

  /** Whatever step a consumer takes, it comes nearer to moving its cursor. */
  lemma EveryStepMoves(c: Config, s: State, t: Step)
    requires Inv(c, s) && !IsProducerStep(t) && ConsumerEnabled(c, s, t) && IsOwnStep(t, t.i) && Ahead(c, s, t.i)
    ensures Moves(c, s, t.i, t)
  {
    assert ConsumerOk(c, t.i, s.consumers[t.i].pc, s.cursors, s.published);
    match t
    case Look(i) => CanLook(c, s, i);
    case LoadGroup(i) => CanFold(c, s, i);
    case Test(i) => CanTest(c, s, i);
    case Settle(i) => CanSettle(c, s, i);
    case _ => OtherStepMoves(c, s, t);
  }

  lemma OtherStepMoves(c: Config, s: State, t: Step)
    requires Inv(c, s) && !IsProducerStep(t) && ConsumerEnabled(c, s, t) && IsOwnStep(t, t.i) && Ahead(c, s, t.i)
    requires t.Poll? || t.CheckEnd? || t.Handle? || t.Advance?
    ensures Moves(c, s, t.i, t)
  {
    assert ConsumerOk(c, t.i, s.consumers[t.i].pc, s.cursors, s.published);
  }

  lemma AheadStays(c: Config, s: State, s': State, i: nat)
    requires Later(s, s') && i < c.Consumers() && i < |s.cursors| && Ahead(c, s, i) && s'.cursors[i] == s.cursors[i]
    ensures Ahead(c, s', i)
  {
  }

  /** The cursor has moved, or the steps that were taken are steps fewer to go. */
  ghost predicate HasMoved(c: Config, s: State, s': State, i: nat, taken: nat)
    requires i < c.Consumers()
  {
    && i < |s.cursors| && i < |s.consumers| && i < |s'.cursors| && i < |s'.consumers|
    && (s.cursors[i] < s'.cursors[i]
        || (s'.cursors[i] == s.cursors[i]
            && taken + ConsumerWork(c, i, s'.cursors[i], s'.consumers[i].pc)
            <= ConsumerWork(c, i, s.cursors[i], s.consumers[i].pc)))
  }

  /** A poll with limit zero does not count as a step, and there is none. */
  ghost predicate PollsForSomething(steps: seq<Step>, i: nat, a: nat, b: nat) {
    forall k :: a <= k < b && k < |steps| && !IsProducerStep(steps[k]) && steps[k].i == i ==> IsOwnStep(steps[k], i)
  }

  lemma StepHasMoved(c: Config, s: State, t: Step, i: nat)
    requires Inv(c, s) && Enabled(c, s, t) && i < |s.cursors| && Ahead(c, s, i)
    requires !IsProducerStep(t) && t.i == i ==> IsOwnStep(t, i)
    ensures HasMoved(c, s, Next(c, s, t), i, if IsOwnStep(t, i) then 1 else 0)
  {
    if !IsProducerStep(t) && t.i == i {
      EveryStepMoves(c, s, t);
    }
  }

  lemma HasMovedFurther(c: Config, s: State, s': State, s'': State, i: nat, taken: nat, more: nat)
    requires i < c.Consumers() && HasMoved(c, s, s', i, taken) && HasMoved(c, s', s'', i, more)
    ensures HasMoved(c, s, s'', i, taken + more)
  {
  }

  lemma {:induction false} RunHasMoved(c: Config, states: seq<State>, steps: seq<Step>, a: nat, b: nat, i: nat)
    requires IsRun(c, states, steps) && Inv(c, states[0]) && a <= b <= |steps| && Inv(c, states[a])
    requires i < |states[a].cursors| && Ahead(c, states[a], i) && PollsForSomething(steps, i, a, b)
    ensures HasMoved(c, states[a], states[b], i, OwnSteps(steps, i, a, b))
    decreases b
  {
    if a == b {
    } else {
      RunHasMoved(c, states, steps, a, b - 1, i);
      RunIsLater(c, states, steps, a, b - 1);
      OneStepLater(c, states, steps, b - 1);
      RunHolds(c, states, steps, b);
      if states[b - 1].cursors[i] == states[a].cursors[i] {
        RunHolds(c, states, steps, b - 1);
        AheadStays(c, states[a], states[b - 1], i);
        assert IsStep(c, states, steps, b - 1);
        StepHasMoved(c, states[b - 1], steps[b - 1], i);
        HasMovedFurther(
          c, states[a], states[b - 1], states[b], i,
          OwnSteps(steps, i, a, b - 1), if IsOwnStep(steps[b - 1], i) then 1 else 0);
      }
    }
  }

  function ConsumerBound(c: Config, i: nat): nat
    requires i < c.Consumers()
  {
    4 * c.size + 2 * GroupSize(c, i) + 14
  }

  lemma WorkIsBounded(c: Config, s: State, i: nat)
    requires Inv(c, s) && i < |s.consumers|
    ensures ConsumerWork(c, i, s.cursors[i], s.consumers[i].pc) <= ConsumerBound(c, i)
  {
    assert ConsumerOk(c, i, s.consumers[i].pc, s.cursors, s.published);
    NoLapping(c, s.cursors, s.published, s.claimed, i);
  }

  /** In every run, whatever the others do: once what a consumer waits for is ahead of it, its cursor has
      moved when it has taken a bounded number of steps of its own. */
  lemma ConsumersAreWaitFree(c: Config, states: seq<State>, steps: seq<Step>, a: nat, b: nat, i: nat)
    requires ValidConfig(c) && IsRun(c, states, steps) && Init(c, states[0]) && a <= b <= |steps|
    requires i < c.Consumers() && i < |states[a].cursors| && Ahead(c, states[a], i)
    requires PollsForSomething(steps, i, a, b)
    ensures i < |states[b].cursors|
    ensures OwnSteps(steps, i, a, b) > ConsumerBound(c, i) ==> states[a].cursors[i] < states[b].cursors[i]
  {
    InitHolds(c, states[0]);
    RunHolds(c, states, steps, a);
    RunHasMoved(c, states, steps, a, b, i);
    WorkIsBounded(c, states[a], i);
  }

  // ---- requests ----

  function StepsOf(steps: seq<Step>, p: nat, a: nat, b: nat): nat
    requires a <= b <= |steps|
  {
    if a == b then 0
    else StepsOf(steps, p, a, b - 1) + if IsProducerStep(steps[b - 1]) && steps[b - 1].p == p then 1 else 0
  }

  /** The own steps that an attempt needs until its exchange, that step included. */
  function AttemptLeft(gate: nat, pc: ProducerPc): nat {
    match pc
    case Check(_, _) => gate + 3
    case Gate(_, _, i, _) => Positive(gate - i) + 2
    case Claim(_, _) => 1
    case _ => 0
  }

  predicate StaysInRequest(states: seq<State>, p: nat, a: nat, b: nat) {
    forall j :: a <= j <= b && j < |states| ==> p < |states[j].producers| && Requests(states[j].producers[p].pc)
  }

  lemma {:induction false} AttemptsAreBounded(
      c: Config, states: seq<State>, steps: seq<Step>, a: nat, b: nat, p: nat) returns (lost: nat)
    requires IsRun(c, states, steps) && a <= b <= |steps| && StaysInRequest(states, p, a, b)
    ensures lost == Failures(c, states, steps, p, b) - Failures(c, states, steps, p, a)
    ensures var gate := |c.wiring.gate|;
      StepsOf(steps, p, a, b) + AttemptLeft(gate, states[b].producers[p].pc)
        <= AttemptLeft(gate, states[a].producers[p].pc) + (gate + 3) * lost
    decreases b
  {
    if a == b {
      lost := 0;
    } else {
      var before := AttemptsAreBounded(c, states, steps, a, b - 1, p);
      assert IsStep(c, states, steps, b - 1);
      var now := One(Fails(c, states[b - 1], steps[b - 1], p));
      Times(|c.wiring.gate| + 3, before, now);
      lost := before + now;
    }
  }

  /** The exchanges that a producer loses in some stretch of a run are paid for by claims of others in it. */
  lemma {:induction false} LossesArePaidFor(
      c: Config, states: seq<State>, steps: seq<Step>, a: nat, b: nat, p: nat)
    requires c.mode.Multi? && IsRun(c, states, steps) && Inv(c, states[0]) && a <= b <= |steps|
    ensures Failures(c, states, steps, p, b) - Failures(c, states, steps, p, a) + One(Stale(states[b], p))
         <= RivalClaims(c, states, steps, p, b) - RivalClaims(c, states, steps, p, a) + One(Stale(states[a], p))
    decreases b
  {
    if a == b {
    } else {
      LossesArePaidFor(c, states, steps, a, b - 1, p);
      RunHolds(c, states, steps, b - 1);
      assert IsStep(c, states, steps, b - 1);
      StaleStep(c, states[b - 1], steps[b - 1], p);
    }
  }

  /** In every run, whatever the others do: a request is over before it has taken more steps of its own than
      one attempt has, for itself and for each claim that others have made since it began. */
  lemma RequestsAreLockFree(c: Config, states: seq<State>, steps: seq<Step>, a: nat, b: nat, p: nat, n: nat)
    requires ValidConfig(c) && c.mode.Multi? && IsRun(c, states, steps) && Init(c, states[0])
    requires a < b <= |steps| && steps[a] == Begin(p, n) && StaysInRequest(states, p, a + 1, b)
    ensures var rivals := RivalClaims(c, states, steps, p, b) - RivalClaims(c, states, steps, p, a + 1);
      rivals >= 0 && StepsOf(steps, p, a + 1, b) < (|c.wiring.gate| + 3) * (1 + rivals)
  {
    InitHolds(c, states[0]);
    assert IsStep(c, states, steps, a);
    var lost := AttemptsAreBounded(c, states, steps, a + 1, b, p);
    LossesArePaidFor(c, states, steps, a + 1, b, p);
    var rivals := RivalClaims(c, states, steps, p, b) - RivalClaims(c, states, steps, p, a + 1);
    Times(|c.wiring.gate| + 3, 1, rivals);
    NotMore(|c.wiring.gate| + 3, lost, rivals);
  }

  /** With a single producer there are no rivals: a request is over within one attempt. */
  lemma SingleRequestsAreWaitFree(c: Config, states: seq<State>, steps: seq<Step>, a: nat, b: nat, p: nat, n: nat)
    requires ValidConfig(c) && c.mode.Uni? && IsRun(c, states, steps) && Init(c, states[0])
    requires a < b <= |steps| && steps[a] == Begin(p, n) && StaysInRequest(states, p, a + 1, b)
    ensures StepsOf(steps, p, a + 1, b) < |c.wiring.gate| + 3
  {
    assert IsStep(c, states, steps, a);
    var lost := AttemptsAreBounded(c, states, steps, a + 1, b, p);
    NothingIsLost(c, states, steps, p, b);
  }

  lemma {:induction false} NothingIsLost(c: Config, states: seq<State>, steps: seq<Step>, p: nat, k: nat)
    requires c.mode.Uni? && IsRun(c, states, steps) && k <= |steps|
    ensures forall j :: 0 <= j <= k ==> Failures(c, states, steps, p, j) == 0
  {
    if k == 0 {
    } else {
      NothingIsLost(c, states, steps, p, k - 1);
      assert IsStep(c, states, steps, k - 1);
    }
  }

  // ---- publications ----

  predicate StaysPublishing(states: seq<State>, p: nat, a: nat, b: nat) {
    forall j :: a <= j <= b && j < |states| ==> p < |states[j].producers| && states[j].producers[p].pc.Publishing?
  }

  /** Publishing a batch takes at most one step for every sequence of it, whatever the others do; one for
      every word, but the number of words depends on where the batch starts. */
  lemma {:induction false} PublicationsAreWaitFree(
      c: Config, states: seq<State>, steps: seq<Step>, a: nat, b: nat, p: nat)
    requires IsRun(c, states, steps) && a <= b <= |steps| && StaysPublishing(states, p, a, b)
    ensures var (pc, pc') := (states[a].producers[p].pc, states[b].producers[p].pc);
      && pc.upper == pc'.upper && pc.next + StepsOf(steps, p, a, b) <= pc'.next
      && (pc.next <= pc.upper + 1 ==> pc'.next <= pc.upper + 1)
    decreases b
  {
    if a == b {
    } else {
      PublicationsAreWaitFree(c, states, steps, a, b - 1, p);
      assert IsStep(c, states, steps, b - 1);
    }
  }
}
