/** What consumers are told when they ask their barrier, while everybody else goes on: handlers between two
    batches and pollers in a call, on the cursor of a single producer, on availability bits or on a group. */
module Answers {
  import opened Indexing
  import opened Protocol
  import opened Invariant
  import opened Safety
  import opened Runs
  import opened ScanRuns
  import opened Grants

  /** From the start of a call to the answer of the barrier. */
  predicate Asks(pc: ConsumerPc) {
    pc.Ready? || pc.Folding? || pc.Scanning? || pc.Found?
  }

  /** The answer will be at least `q`. */
  ghost predicate WillFind(pc: ConsumerPc, q: Sequence) {
    match pc
    case Ready(_) => true
    case Folding(_, _, low) => low.Fin? ==> q <= low.value
    case Scanning(_, scan) => SeesUpTo(scan, q)
    case Found(_, available) => q <= available
    case _ => false
  }

  /** The consumer could be granted everything up to `q`, which is not more than a lap ahead. */
  ghost predicate IsThere(c: Config, s: State, i: nat, q: Sequence)
    requires i < c.Consumers() && i < |s.cursors|
  {
    Granted(c, i, s.cursors, s.published, q) && q <= s.cursors[i] + c.size
  }

  // ---- one step ----

  lemma LookFinds(c: Config, s: State, i: nat, q: Sequence)
    requires Inv(c, s) && ConsumerEnabled(c, s, Look(i)) && IsThere(c, s, i, q)
    ensures WillFind(ConsumerNext(c, s, Look(i)).consumers[i].pc, q)
  {
    if c.mode.Multi? {
      StartSees(c, s, i, q);
    } else {
      assert q >= 0 ==> s.published[q];
    }
  }

  lemma LoadGroupFinds(c: Config, s: State, i: nat, q: Sequence)
    requires Inv(c, s) && ConsumerEnabled(c, s, LoadGroup(i)) && IsThere(c, s, i, q)
    requires WillFind(s.consumers[i].pc, q)
    ensures WillFind(ConsumerNext(c, s, LoadGroup(i)).consumers[i].pc, q)
  {
    var (group, pc) := (c.wiring.dependencies[i].group, s.consumers[i].pc);
    if pc.k < |group| {
      assert group[pc.k] in group;
    }
  }

  /** The steps of the consumer itself, until it has its answer. */
  lemma OwnStepFinds(c: Config, s: State, t: Step, i: nat, q: Sequence)
    requires Inv(c, s) && !IsProducerStep(t) && t.i == i && ConsumerEnabled(c, s, t) && !t.Settle?
    requires IsThere(c, s, i, q) && Asks(s.consumers[i].pc) && WillFind(s.consumers[i].pc, q)
    ensures var s' := ConsumerNext(c, s, t);
      Asks(s'.consumers[i].pc) && WillFind(s'.consumers[i].pc, q) && s'.cursors == s.cursors
  {
    if t.Look? {
      LookFinds(c, s, i, q);
    } else if t.LoadGroup? {
      LoadGroupFinds(c, s, i, q);
    } else {
      TestSees(c, s, i, q);
    }
  }

  // ---- a whole call ----

  /** From state `a`, where it has looked at nothing yet, to state `b` the consumer asks its barrier. */
  ghost predicate IsAsking(c: Config, states: seq<State>, steps: seq<Step>, a: nat, b: nat, i: nat) {
    && IsRun(c, states, steps) && a <= b <= |steps| && i < c.Consumers()
    && (forall j :: a <= j <= b ==> i < |states[j].consumers| && Asks(states[j].consumers[i].pc))
    && (forall j :: a <= j < b ==> steps[j] != Settle(i))
    && states[a].consumers[i].pc.Ready?
  }

  lemma StillThere(c: Config, s: State, s': State, i: nat, q: Sequence)
    requires Later(s, s') && i < c.Consumers() && i < |s.cursors| && IsThere(c, s, i, q)
    ensures i < |s'.cursors| && IsThere(c, s', i, q)
  {
  }

  lemma {:induction false} AskingFinds(
      c: Config, states: seq<State>, steps: seq<Step>, a: nat, b: nat, i: nat, q: Sequence)
    requires IsAsking(c, states, steps, a, b, i) && Inv(c, states[0])
    requires i < |states[a].cursors| && IsThere(c, states[a], i, q)
    ensures WillFind(states[b].consumers[i].pc, q)
    ensures i < |states[b].cursors| && states[b].cursors[i] == states[a].cursors[i]
    decreases b
  {
    if a == b {
    } else {
      AskingFinds(c, states, steps, a, b - 1, i, q);
      RunHolds(c, states, steps, b - 1);
      RunIsLater(c, states, steps, a, b - 1);
      StillThere(c, states[a], states[b - 1], i, q);
      assert IsStep(c, states, steps, b - 1);
      if !IsProducerStep(steps[b - 1]) && steps[b - 1].i == i {
        OwnStepFinds(c, states[b - 1], steps[b - 1], i, q);
      }
    }
  }

  /** The answer of any barrier is true: all of it is there when it is given, and nothing is left out
      that was there when the consumer had not looked yet. So a consumer that is told that nothing is there
      was right at the start of its call, and right when it began to look. */
  lemma AnswersAreTrue(c: Config, states: seq<State>, steps: seq<Step>, a: nat, b: nat, i: nat, q: Sequence)
    requires ValidConfig(c) && IsAsking(c, states, steps, a, b, i) && Init(c, states[0])
    requires states[b].consumers[i].pc.Found? && i < |states[a].cursors| && i < |states[b].cursors|
    ensures IsThere(c, states[a], i, q) ==> q <= states[b].consumers[i].pc.available
    ensures IsThere(c, states[b], i, states[b].consumers[i].pc.available)
  {
    InitHolds(c, states[0]);
    RunHolds(c, states, steps, b);
    if IsThere(c, states[a], i, q) {
      AskingFinds(c, states, steps, a, b, i, q);
    }
    var s := states[b];
    assert ConsumerOk(c, i, s.consumers[i].pc, s.cursors, s.published);
    NoLapping(c, s.cursors, s.published, s.claimed, i);
  }

  // ---- the result of a poll ----

  /** A call of `poll_take`, from its first step `a` to its last step `b`. */
  ghost predicate IsPoll(
      c: Config, states: seq<State>, steps: seq<Step>, a: nat, b: nat, i: nat, limit: Limit)
  {
    && a < b < |steps| && steps[a] == Poll(i, limit) && steps[b] == Settle(i)
    && IsAsking(c, states, steps, a + 1, b, i)
  }

  lemma {:induction false} CallCarries(
      c: Config, states: seq<State>, steps: seq<Step>, a: nat, b: nat, i: nat, limit: Limit)
    requires IsAsking(c, states, steps, a, b, i) && Carries(states[a].consumers[i].pc, limit)
    ensures Carries(states[b].consumers[i].pc, limit)
    decreases b
  {
    if a == b {
    } else {
      CallCarries(c, states, steps, a, b - 1, i, limit);
      assert IsStep(c, states, steps, b - 1);
    }
  }

  /** The next sequence of a consumer is published and has been passed by the group before. */
  ghost predicate HasNext(c: Config, s: State, i: nat)
    requires i < c.Consumers()
  {
    i < |s.cursors| && IsThere(c, s, i, s.cursors[i] + 1)
  }

  /** A poll that does not find the shutdown returns either `NoEvents`, and then nothing was there when it
      was called, or a guard, and then something is there when it returns. The guard starts right after
      the cursor, and is at most as long as the limit; with limit zero it is empty. It has everything that was
      there when the poll was called, as far as the limit goes. */
  lemma PollsAreTrue(
      c: Config, states: seq<State>, steps: seq<Step>, a: nat, b: nat, i: nat, limit: Limit, q: Sequence)
    requires ValidConfig(c) && IsPoll(c, states, steps, a, b, i, limit) && Init(c, states[0])
    requires i < |states[a].cursors|
    ensures i < |states[b + 1].consumers| && i < |states[b + 1].cursors|
    ensures var (pc, cursor) := (states[b + 1].consumers[i].pc, states[b + 1].cursors[i]);
      && (pc == Resting(NoEvents) || pc.Reading?)
      && (pc == Resting(NoEvents) ==> !HasNext(c, states[a], i))
      && (pc.Reading? ==> HasNext(c, states[b + 1], i) && pc.next == cursor + 1 && IsThere(c, states[b + 1], i, pc.available))
      && (pc.Reading? && limit.AtMost? ==> pc.available <= cursor + limit.n)
      && (pc.Reading? && limit == AtMost(0) ==> pc.available == cursor)
      && (pc.Reading? && IsThere(c, states[a], i, q) && (limit.AtMost? ==> q <= cursor + limit.n) ==> q <= pc.available)
  {
    InitHolds(c, states[0]);
    RunHolds(c, states, steps, a);
    RunHolds(c, states, steps, b);
    assert IsStep(c, states, steps, a);
    assert IsStep(c, states, steps, b);
    CallCarries(c, states, steps, a + 1, b, i, limit);
    RunIsLater(c, states, steps, a + 1, b);
    AnswersAreTrue(c, states, steps, a + 1, b, i, q);
    SettleIsTrue(c, states[b], i, limit);
    if HasNext(c, states[a], i) {
      AskingFinds(c, states, steps, a + 1, b, i, states[a].cursors[i] + 1);
    }
  }

  /** Only a poll that has asked its barrier answers `NoEvents`. */
  lemma OnlyPollsFindNothing(c: Config, s: State, t: Step, i: nat)
    requires Enabled(c, s, t) && i < |s.consumers| && s.consumers[i].pc != Resting(NoEvents)
    requires Next(c, s, t).consumers[i].pc == Resting(NoEvents)
    ensures t == Settle(i) && s.consumers[i].pc.Found? && s.consumers[i].pc.available <= s.cursors[i]
  {
  }

  lemma SettleIsTrue(c: Config, s: State, i: nat, limit: Limit)
    requires Inv(c, s) && ConsumerEnabled(c, s, Settle(i)) && !c.managed[i] && s.consumers[i].pc.limit == limit
    requires IsThere(c, s, i, s.consumers[i].pc.available)
    ensures var (s', found) := (ConsumerNext(c, s, Settle(i)), s.consumers[i].pc.available);
      var pc := s'.consumers[i].pc;
      && s'.cursors == s.cursors
      && (pc == Resting(NoEvents) || pc.Reading?)
      && (pc == Resting(NoEvents) <==> found <= s.cursors[i])
      && (pc.Reading? ==> HasNext(c, s', i) && pc.next == s.cursors[i] + 1 && IsThere(c, s', i, pc.available))
      && (pc.Reading? && limit.AtMost? ==> pc.available <= s.cursors[i] + limit.n)
      && (pc.Reading? && limit == AtMost(0) ==> pc.available == s.cursors[i])
      && (pc.Reading? ==> pc.available == found || (limit.AtMost? && pc.available == s.cursors[i] + limit.n))
  {
    SettleGrants(c, s, i);
    assert Granted(c, i, s.cursors, s.published, s.cursors[i]);
  }
}
