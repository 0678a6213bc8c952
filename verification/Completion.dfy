/** From every reachable state everything that was begun can be brought to its end, as far as it does not
    depend on actors that take no step any more; and exactly that far. */
module Completion {
  import opened Sums
  import opened Indexing
  import opened Topology
  import opened Protocol
  import opened Invariant
  import opened Safety
  import opened Runs
  import opened Progress

  // ---- continuing a state ----

  predicate Legal(c: Config, s: State, steps: seq<Step>)
    decreases |steps|
  {
    steps == [] || (Enabled(c, s, steps[0]) && Legal(c, Next(c, s, steps[0]), steps[1..]))
  }

  function After(c: Config, s: State, steps: seq<Step>): State
    requires Legal(c, s, steps)
    decreases |steps|
  {
    if steps == [] then s else After(c, Next(c, s, steps[0]), steps[1..])
  }

  lemma Before(c: Config, s: State, t: Step, steps: seq<Step>)
    requires Enabled(c, s, t) && Legal(c, Next(c, s, t), steps)
    ensures Legal(c, s, [t] + steps) && After(c, s, [t] + steps) == After(c, Next(c, s, t), steps)
  {
    assert ([t] + steps)[1..] == steps;
  }

  lemma {:induction false} Concatenated(c: Config, s: State, a: seq<Step>, b: seq<Step>)
    requires Legal(c, s, a) && Legal(c, After(c, s, a), b)
    ensures Legal(c, s, a + b) && After(c, s, a + b) == After(c, After(c, s, a), b)
    decreases |a|
  {
    HeadFirst(a, b);
    if a == [] {
    } else {
      Concatenated(c, Next(c, s, a[0]), a[1..], b);
      Before(c, s, a[0], a[1..] + b);
    }
  }

  lemma {:induction false} LegalIsRun(c: Config, s: State, steps: seq<Step>) returns (states: seq<State>)
    requires Legal(c, s, steps)
    ensures IsRun(c, states, steps) && states[0] == s && states[|steps|] == After(c, s, steps)
    decreases |steps|
  {
    if steps == [] {
      states := [s];
    } else {
      var rest := LegalIsRun(c, Next(c, s, steps[0]), steps[1..]);
      states := [s] + rest;
      forall k: nat | k < |steps|
        ensures IsStep(c, states, steps, k)
      {
        if k > 0 {
          assert IsStep(c, rest, steps[1..], k - 1);
        }
      }
    }
  }

  /** What a legal continuation of a reachable state leads to is reachable. */
  lemma StaysReachable(c: Config, s: State, steps: seq<Step>)
    requires Reachable(c, s) && Legal(c, s, steps)
    ensures Reachable(c, After(c, s, steps))
  {
    var states: seq<State>, before: seq<Step> :|
      IsRun(c, states, before) && Init(c, states[0]) && states[|before|] == s;
    var more := LegalIsRun(c, s, steps);
    var all, through := before + steps, states + more[1..];
    forall k: nat | k < |all|
      ensures IsStep(c, through, all, k)
    {
      if k < |before| {
        assert IsStep(c, states, before, k);
      } else {
        assert IsStep(c, more, steps, k - |before|);
      }
    }
    assert IsRun(c, through, all) && through[|all|] == After(c, s, steps);
  }

  /** A continuation keeps the invariant and what never changes again. */
  lemma {:induction false} LegalIsLater(c: Config, s: State, steps: seq<Step>)
    requires Inv(c, s) && Legal(c, s, steps)
    ensures Inv(c, After(c, s, steps)) && Later(s, After(c, s, steps))
    decreases |steps|
  {
    if steps == [] {
    } else {
      var s' := Next(c, s, steps[0]);
      StepKeeps(c, s, steps[0]);
      StepIsLater(c, s, steps[0]);
      LegalIsLater(c, s', steps[1..]);
    }
  }

  // ---- standing still ----

  ghost predicate AllLeaveAlone(still: Still, steps: seq<Step>) {
    forall k :: 0 <= k < |steps| ==> LeavesAlone(still, steps[k])
  }

  /** Those who stand still are where they were. */
  ghost predicate StoodStill(s: State, s': State, still: Still) {
    && |s.producers| <= |s'.producers|
    && (forall p :: p in still.producers && p < |s.producers| ==> s'.producers[p] == s.producers[p])
    && |s.consumers| == |s'.consumers| && |s.cursors| == |s'.cursors|
    && (forall i :: i in still.consumers && i < |s.consumers| ==> s'.consumers[i] == s.consumers[i])
    && (forall i :: i in still.consumers && i < |s.cursors| ==> s'.cursors[i] == s.cursors[i])
  }

  lemma {:induction false} StillStay(c: Config, s: State, still: Still, steps: seq<Step>)
    requires Legal(c, s, steps) && AllLeaveAlone(still, steps)
    ensures StoodStill(s, After(c, s, steps), still)
    decreases |steps|
  {
    if steps == [] {
    } else {
      var t := steps[0];
      assert LeavesAlone(still, t);
      StillStay(c, Next(c, s, t), still, steps[1..]);
    }
  }

  /** A poller that rests and is not polled stands still. This is what dropping it comes to: its cursor
      stays in its group. */
  lemma {:induction false} UnpolledStandsStill(c: Config, s: State, i: nat, steps: seq<Step>)
    requires Legal(c, s, steps) && i < |s.consumers| && s.consumers[i].pc.Resting?
    requires forall k :: 0 <= k < |steps| ==> !(steps[k].Poll? && steps[k].i == i)
    ensures AllLeaveAlone(Still({}, {i}), steps)
    decreases |steps|
  {
    if steps == [] {
    } else {
      var t := steps[0];
      assert LeavesAlone(Still({}, {i}), t);
      UnpolledStandsStill(c, Next(c, s, t), i, steps[1..]);
    }
  }

  /** What a producer that stands still has not published is never published. */
  lemma HeldBack(s: State, s': State, still: Still, q: Sequence)
    requires OwnershipOk(s.producers, s.owner, s.published) && OwnershipOk(s'.producers, s'.owner, s'.published)
    requires StoodStill(s, s', still) && s.owner <= s'.owner
    requires 0 <= q < |s.published| && q < |s'.published| && s'.published[q]
    ensures s.published[q] || s.owner[q] !in still.producers
  {
    assert s'.owner[q] == s.owner[q];
  }

  // ---- finishing everything that was begun ----

  /** The step is no new call of a producer, no write, clone or drop. It may be a poll. */
  predicate BeginsNothing(t: Step) {
    !t.Begin? && !t.Write? && !t.Clone? && !t.Drop? && !t.Join?
  }

  /** The same handles are live, idle ones are as they were, and no claim is lost. */
  ghost predicate SameHandles(s: State, s': State) {
    && |s'.producers| == |s.producers|
    && (forall p :: 0 <= p < |s.producers| ==> Live(s'.producers[p].pc) == Live(s.producers[p].pc))
    && (forall p :: 0 <= p < |s.producers| && s.producers[p].pc.Idle? ==> s'.producers[p] == s.producers[p])
    && s'.handles == s.handles
    && s.claimed <= s'.claimed
  }

  lemma PublicationKeepsHandles(c: Config, s: State, t: Step)
    requires (t.Flush? || t.FlipBits? || t.StoreCursor? || t.Return?) && ProducerEnabled(c, s, t)
    ensures SameHandles(s, ProducerNext(c, s, t))
  {
  }

  lemma OtherStepKeepsHandles(c: Config, s: State, t: Step)
    requires t.CheckClear? || t.LoadGate? || t.Decide? || t.LoadEnd? || t.StoreEnd?
    requires ProducerEnabled(c, s, t)
    ensures SameHandles(s, ProducerNext(c, s, t))
  {
  }

  lemma HandlesStay(c: Config, s: State, t: Step)
    requires Inv(c, s) && Enabled(c, s, t) && BeginsNothing(t)
    ensures SameHandles(s, Next(c, s, t))
  {
    if t.Exchange? {
      assert ProducerOk(c, s.producers[t.p], s.cursors, s.claimed);
    } else if t.Flush? || t.FlipBits? || t.StoreCursor? || t.Return? {
      PublicationKeepsHandles(c, s, t);
    } else if IsProducerStep(t) {
      OtherStepKeepsHandles(c, s, t);
    }
  }

  lemma ProductiveStep(c: Config, s: State, still: Still) returns (t: Step, s': State)
    requires Inv(c, s) && Unfinished(c, s, still)
    ensures Enabled(c, s, t) && s' == Next(c, s, t) && Quiet(still, t)
    ensures Inv(c, s') && LessLeft(c, s', s) && SameHandles(s, s')
  {
    t := NeverStuck(c, s, still);
    HandlesStay(c, s, t);
    s' := Next(c, s, t);
  }

  predicate Quiet(still: Still, t: Step) {
    BeginsNothing(t) && LeavesAlone(still, t)
  }

  ghost predicate AllQuiet(still: Still, steps: seq<Step>) {
    forall k :: 0 <= k < |steps| ==> Quiet(still, steps[k])
  }

  lemma AlsoQuiet(still: Still, t: Step, rest: seq<Step>)
    requires Quiet(still, t) && AllQuiet(still, rest)
    ensures AllQuiet(still, [t] + rest)
  {
  }

  lemma QuietLeavesAlone(still: Still, steps: seq<Step>)
    requires AllQuiet(still, steps)
    ensures AllLeaveAlone(still, steps)
  {
    forall k | 0 <= k < |steps|
      ensures LeavesAlone(still, steps[k])
    {
      assert Quiet(still, steps[k]);
    }
  }

  /** Whoever stands still, every reachable state can be continued by the others, without new calls of
      producers, until nothing is unfinished that does not need those who stand still. */
  lemma {:induction false} EverythingFinishes(c: Config, s: State, still: Still) returns (steps: seq<Step>)
    requires Inv(c, s)
    ensures Legal(c, s, steps) && AllQuiet(still, steps)
    ensures var s' := After(c, s, steps); Inv(c, s') && !Unfinished(c, s', still) && SameHandles(s, s')
    decreases Sum(RequestsOf(s)), Sum(WorkOf(c, s)), Sum(LagOf(s)), Sum(HandlingOf(c, s))
  {
    if Unfinished(c, s, still) {
      var t, s' := ProductiveStep(c, s, still);
      var rest := EverythingFinishes(c, s', still);
      Before(c, s, t, rest);
      AlsoQuiet(still, t, rest);
      steps := [t] + rest;
    } else {
      steps := [];
    }
  }

  /** In a finished state every live handle that does not stand still is idle. */
  lemma FinishedHandles(c: Config, s: State, still: Still)
    requires !Unfinished(c, s, still)
    ensures ProducersAreDone(c, s, still)
    ensures forall p :: 0 <= p < |s.producers| && p !in still.producers && Live(s.producers[p].pc) ==>
              s.producers[p].pc.Idle?
  {
    forall p | 0 <= p < |s.producers| && p !in still.producers
      ensures ProducerWork(|c.wiring.gate|, s.claimed, s.producers[p].pc) == 0
    {
    }
  }

  /** In a finished state every consumer is as far as its way is free. */
  lemma FinishedConsumer(c: Config, s: State, still: Still, i: nat, target: Sequence)
    requires !Unfinished(c, s, still) && i < |s.cursors| && target <= s.claimed && WayIsFree(c, s, still, i, target)
    ensures target <= s.cursors[i]
  {
    if s.cursors[i] < target {
      assert WayIsFree(c, s, still, i, s.cursors[i] + 1);
    }
  }

  // ---- exactly how far consumers can come ----

  lemma FreeWayStaysFree(c: Config, s: State, s': State, still: Still, i: nat, target: Sequence)
    requires Later(s, s') && StoodStill(s, s', still) && |s.owner| == |s.published| && target < |s.owner|
    requires WayIsFree(c, s, still, i, target)
    ensures WayIsFree(c, s', still, i, target)
  {
  }

  /** A consumer that has come to a target had a free way. */
  lemma WayWasFree(c: Config, s: State, s': State, still: Still, i: nat, target: Sequence)
    requires Inv(c, s) && Inv(c, s') && Later(s, s') && StoodStill(s, s', still)
    requires i < |s'.cursors| && target <= s'.cursors[i] && target <= s.claimed
    ensures WayIsFree(c, s, still, i, target)
  {
    CursorsAreStaged(c, s'.cursors, s'.published);
    forall e | e in still.consumers && e < |s.cursors| && (e == i || Precedes(c.wiring, e, i))
      ensures target <= s.cursors[e]
    {
      if e != i {
        PrecedingIsAhead(c.wiring, s'.cursors, e, i);
      }
    }
    WasPublishable(c, s, s', still, i, target);
  }

  lemma WasPublishable(c: Config, s: State, s': State, still: Still, i: nat, target: Sequence)
    requires Inv(c, s) && Inv(c, s') && Later(s, s') && StoodStill(s, s', still)
    requires i < |s'.cursors| && target <= s'.cursors[i]
    ensures Publishable(s, still, target)
  {
    assert Granted(c, i, s'.cursors, s'.published, s'.cursors[i]);
    forall q | 0 <= q <= target && q < |s.owner| && q < |s.published|
      ensures s.published[q] || s.owner[q] !in still.producers
    {
      HeldBack(s, s', still, q);
    }
  }

  ghost predicate HavePassed(s: State, need: set<nat>, target: Sequence) {
    forall i :: i in need && i < |s.cursors| ==> target <= s.cursors[i]
  }

  ghost predicate WaysAreFree(c: Config, s: State, still: Still, need: set<nat>, target: Sequence) {
    forall i :: i in need && i < |s.cursors| ==> WayIsFree(c, s, still, i, target)
  }

  /** Some consumers can all come to a target, whatever the actors do that do not stand still. */
  ghost predicate CanPass(c: Config, s: State, still: Still, need: set<nat>, target: Sequence) {
    exists steps :: Legal(c, s, steps) && AllLeaveAlone(still, steps) && HavePassed(After(c, s, steps), need, target)
  }

  lemma FinishedPass(c: Config, s: State, s': State, still: Still, need: set<nat>, target: Sequence)
    requires Inv(c, s) && Later(s, s') && StoodStill(s, s', still) && !Unfinished(c, s', still)
    requires target <= s.claimed && WaysAreFree(c, s, still, need, target)
    ensures HavePassed(s', need, target)
  {
    forall i | i in need && i < |s'.cursors|
      ensures target <= s'.cursors[i]
    {
      FreeWayStaysFree(c, s, s', still, i, target);
      FinishedConsumer(c, s', still, i, target);
    }
  }

  /** Consumers can all come to a claimed sequence if and only if the way of each of them is free: no
      consumer that stands still is before it on the way, and no unpublished sequence up to it belongs to
      a producer that stands still. */
  lemma FreeWaysPass(c: Config, s: State, still: Still, need: set<nat>, target: Sequence)
    requires ValidConfig(c) && Reachable(c, s) && target <= s.claimed
    ensures CanPass(c, s, still, need, target) <==> WaysAreFree(c, s, still, need, target)
  {
    ReachableHolds(c, s);
    if WaysAreFree(c, s, still, need, target) {
      var steps := EverythingFinishes(c, s, still);
      QuietLeavesAlone(still, steps);
      LegalIsLater(c, s, steps);
      StillStay(c, s, still, steps);
      FinishedPass(c, s, After(c, s, steps), still, need, target);
    }
    if CanPass(c, s, still, need, target) {
      var steps :| Legal(c, s, steps) && AllLeaveAlone(still, steps) && HavePassed(After(c, s, steps), need, target);
      LegalIsLater(c, s, steps);
      StillStay(c, s, still, steps);
      forall i | i in need && i < |s.cursors|
        ensures WayIsFree(c, s, still, i, target)
      {
        WayWasFree(c, s, After(c, s, steps), still, i, target);
      }
    }
  }

  /** All handlers whose way is free can come to have handled, in order, all that is claimed now, without
      new calls of producers. By `FreeWaysPass` no others can. */
  lemma EverythingIsDelivered(c: Config, s: State, still: Still) returns (steps: seq<Step>)
    requires ValidConfig(c) && Reachable(c, s)
    ensures Legal(c, s, steps) && AllQuiet(still, steps)
    ensures var s' := After(c, s, steps);
      && Reachable(c, s')
      && forall i: nat :: i < |s'.consumers| && i < |c.managed| && c.managed[i] && WayIsFree(c, s, still, i, s.claimed) ==>
           HasHandled(s'.consumers[i].seen, s'.log, s.claimed)
  {
    ReachableHolds(c, s);
    steps := EverythingFinishes(c, s, still);
    StaysReachable(c, s, steps);
    QuietLeavesAlone(still, steps);
    LegalIsLater(c, s, steps);
    StillStay(c, s, still, steps);
    var s' := After(c, s, steps);
    forall i: nat | i < |s'.consumers| && i < |c.managed| && c.managed[i] && WayIsFree(c, s, still, i, s.claimed)
      ensures HasHandled(s'.consumers[i].seen, s'.log, s.claimed)
    {
      FreeWayStaysFree(c, s, s', still, i, s.claimed);
      FinishedConsumer(c, s', still, i, s.claimed);
      PassedIsHandled(c, s', i, s.claimed);
    }
  }

  /** The calls start with `0..last`, in order, with the events of the log. */
  ghost predicate HasHandled(seen: seq<Call>, log: seq<Event>, last: Sequence) {
    last < |seen| && last < |log| && forall k :: 0 <= k <= last ==> seen[k].sequence == k && seen[k].event == log[k]
  }

  lemma PassedIsHandled(c: Config, s: State, i: nat, last: Sequence)
    requires Inv(c, s) && i < |s.consumers| && c.managed[i] && last <= s.cursors[i]
    ensures HasHandled(s.consumers[i].seen, s.log, last)
  {
    assert ConsumerOk(c, i, s.consumers[i].pc, s.cursors, s.published);
    assert Granted(c, i, s.cursors, s.published, s.cursors[i]);
    assert SeenOk(s.consumers[i].seen, NextOf(s.consumers[i].pc, s.cursors[i]), c.managed[i], s.log);
  }
}
