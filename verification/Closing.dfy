/** Exactly when the drop of the last handle can return. */
module Closing {
  import opened Bits
  import opened Indexing
  import opened Topology
  import opened Protocol
  import opened Invariant
  import opened ConsumerSteps
  import opened Safety
  import opened Runs
  import opened Shutdown
  import opened Progress
  import opened Completion

  // ---- handlers exit ----

  /** The steps that a handler without anything left to handle needs to exit. */
  function ExitWork(c: Config, i: nat, cursor: Sequence, pc: ConsumerPc): nat
    requires i < c.Consumers()
  {
    match pc
    case Exited => 0
    case Doubting => 1
    case Found(_, _) => 2
    case Scanning(_, scan) => 3 + Positive(cursor + 1 + c.size - scan.highest)
    case Folding(_, k, _) => 3 + Positive(GroupSize(c, i) - k)
    case Ready(_) => 4 + c.size + GroupSize(c, i)
    case _ => 5 + c.size + GroupSize(c, i)
  }

  /** The stop sequence is set and the consumer has passed everything before it. */
  ghost predicate AtTheEnd(c: Config, s: State, i: nat) {
    i < |s.cursors| && s.cursors[i] == s.claimed && s.shutdownAt == s.claimed + 1
  }

  /** A scan finds nothing after the last claim. */
  lemma NoBitAfterTheEnd(c: Config, s: State, i: nat)
    requires Inv(c, s) && AtTheEnd(c, s, i) && s.consumers[i].pc.Scanning?
    ensures var scan := s.consumers[i].pc.scan; Bit(scan.availability, 0) != scan.flag
  {
    assert ConsumerOk(c, i, s.consumers[i].pc, s.cursors, s.published);
    var scan := s.consumers[i].pc.scan;
    assert scan.highest + 0 == scan.highest;
  }

  lemma FoldingCanExit(c: Config, s: State, i: nat)
    requires Inv(c, s) && i < |s.consumers| && s.consumers[i].pc.Folding? && AtTheEnd(c, s, i)
    ensures ConsumerEnabled(c, s, LoadGroup(i))
    ensures var s' := ConsumerNext(c, s, LoadGroup(i));
      && s' == s.(consumers := s.consumers[i := s'.consumers[i]])
      && ExitWork(c, i, s.cursors[i], s'.consumers[i].pc) < ExitWork(c, i, s.cursors[i], s.consumers[i].pc)
  {
    var pc := s.consumers[i].pc;
    assert ConsumerOk(c, i, pc, s.cursors, s.published);
    if pc.k < GroupSize(c, i) {
      assert c.wiring.dependencies[i].group[pc.k] in c.wiring.dependencies[i].group;
    }
  }

  lemma CanExit(c: Config, s: State, i: nat) returns (t: Step)
    requires Inv(c, s) && AtTheEnd(c, s, i) && c.managed[i] && !s.consumers[i].pc.Exited?
    ensures !IsProducerStep(t) && t.i == i && ConsumerEnabled(c, s, t)
    ensures var s' := ConsumerNext(c, s, t);
      && s' == s.(consumers := s.consumers[i := s'.consumers[i]])
      && ExitWork(c, i, s.cursors[i], s'.consumers[i].pc) < ExitWork(c, i, s.cursors[i], s.consumers[i].pc)
  {
    var pc := s.consumers[i].pc;
    assert ConsumerOk(c, i, pc, s.cursors, s.published);
    match pc
    case Ready(_) => t := Look(i);
    case Folding(_, _, _) =>
      t := LoadGroup(i);
      FoldingCanExit(c, s, i);
    case Scanning(_, scan) =>
      NoBitAfterTheEnd(c, s, i);
      t := Test(i);
    case Found(_, _) => t := Settle(i);
    case Doubting => t := CheckEnd(i);
    case Reading(_, _) => t := Advance(i);
  }

  lemma {:induction false} HandlerExits(c: Config, s: State, i: nat, still: Still) returns (steps: seq<Step>)
    requires Inv(c, s) && AtTheEnd(c, s, i) && c.managed[i] && i !in still.consumers
    ensures Legal(c, s, steps) && AllLeaveAlone(still, steps)
    ensures var s' := After(c, s, steps);
      && Inv(c, s') && s' == s.(consumers := s.consumers[i := s'.consumers[i]]) && s'.consumers[i].pc.Exited?
    decreases ExitWork(c, i, s.cursors[i], s.consumers[i].pc)
  {
    if s.consumers[i].pc.Exited? {
      steps := [];
    } else {
      var t := CanExit(c, s, i);
      ConsumerStepKeeps(c, s, t);
      var rest := HandlerExits(c, ConsumerNext(c, s, t), i, still);
      Before(c, s, t, rest);
      steps := [t] + rest;
    }
  }

  ghost predicate FirstExited(c: Config, consumers: seq<Consumer>, n: nat) {
    forall i :: 0 <= i < n && i < |consumers| && i < |c.managed| && c.managed[i] ==> consumers[i].pc.Exited?
  }

  /** The handler has exited, or it is at the end and goes on. */
  ghost predicate MayExit(c: Config, s: State, still: Still, i: nat)
    requires i < |s.consumers|
  {
    s.consumers[i].pc.Exited? || (AtTheEnd(c, s, i) && i !in still.consumers)
  }

  lemma OneMoreExits(c: Config, s: State, still: Still, n: nat) returns (steps: seq<Step>)
    requires Inv(c, s) && n < |s.consumers| && FirstExited(c, s.consumers, n)
    requires c.managed[n] ==> MayExit(c, s, still, n)
    ensures Legal(c, s, steps) && AllLeaveAlone(still, steps)
    ensures var s' := After(c, s, steps);
      && Inv(c, s') && s' == s.(consumers := s'.consumers) && FirstExited(c, s'.consumers, n + 1)
      && |s'.consumers| == |s.consumers| && (forall i :: n < i < |s.consumers| ==> s'.consumers[i] == s.consumers[i])
  {
    if c.managed[n] && !s.consumers[n].pc.Exited? {
      steps := HandlerExits(c, s, n, still);
    } else {
      steps := [];
    }
  }

  lemma {:induction false} HandlersExit(c: Config, s: State, still: Still, n: nat) returns (steps: seq<Step>)
    requires Inv(c, s) && n <= |s.consumers|
    requires forall i: nat :: i < |s.consumers| && c.managed[i] ==> MayExit(c, s, still, i)
    ensures Legal(c, s, steps) && AllLeaveAlone(still, steps)
    ensures var s' := After(c, s, steps);
      && Inv(c, s') && s' == s.(consumers := s'.consumers) && FirstExited(c, s'.consumers, n)
      && |s'.consumers| == |s.consumers| && (forall i :: n <= i < |s.consumers| ==> s'.consumers[i] == s.consumers[i])
  {
    if n == 0 {
      steps := [];
    } else {
      steps := HandlersExit(c, s, still, n - 1);
      var s1 := After(c, s, steps);
      assert c.managed[n - 1] ==> MayExit(c, s, still, n - 1);
      var more := OneMoreExits(c, s1, still, n - 1);
      Concatenated(c, s, steps, more);
      steps := steps + more;
    }
  }

  /** Without live handles nothing more is claimed. */
  lemma {:induction false} ClaimsAreOver(c: Config, s: State, steps: seq<Step>)
    requires Inv(c, s) && s.handles == 0 && Legal(c, s, steps)
    ensures After(c, s, steps).claimed == s.claimed
    decreases |steps|
  {
    if steps == [] {
    } else {
      var t := steps[0];
      StepKeeps(c, s, t);
      ClosedStep(c, s, t);
      ClaimsAreOver(c, Next(c, s, t), steps[1..]);
    }
  }

  // ---- the drop of the last handle ----

  /** The producer is in the drop of the last handle. */
  predicate Drops(pc: ProducerPc) {
    BeingClosed(pc) || pc.Joining?
  }

  /** The drop can come to return, by the actors that do not stand still. */
  ghost predicate CanReturn(c: Config, s: State, still: Still, p: nat) {
    exists steps :: Legal(c, s, steps) && AllLeaveAlone(still, steps) && Returns(c, After(c, s, steps), p)
  }

  predicate Returns(c: Config, s: State, p: nat) {
    Enabled(c, s, Join(p))
  }

  /** Every handler has exited, or goes on and no consumer that stands still is before it and has not
      passed everything. */
  ghost predicate HandlersAreFree(c: Config, s: State, still: Still) {
    forall h :: 0 <= h < |s.consumers| && h < |c.managed| && c.managed[h] ==>
      || s.consumers[h].pc.Exited?
      || (h !in still.consumers && Unhindered(c.wiring, s.cursors, still.consumers, h, s.claimed))
  }

  lemma {:induction false} DropStaysThroughout(c: Config, s: State, still: Still, steps: seq<Step>, p: nat)
    requires Legal(c, s, steps) && AllQuiet(still, steps) && p < |s.producers| && Drops(s.producers[p].pc)
    ensures p < |After(c, s, steps).producers| && Drops(After(c, s, steps).producers[p].pc)
    decreases |steps|
  {
    if steps == [] {
    } else {
      assert Quiet(still, steps[0]);
      DropStaysThroughout(c, Next(c, s, steps[0]), still, steps[1..], p);
    }
  }

  /** Everybody has finished: the handlers with a free way are at the end. */
  lemma FinishedHandlers(c: Config, s: State, s': State, still: Still)
    requires Inv(c, s) && Inv(c, s') && Later(s, s') && StoodStill(s, s', still) && !Unfinished(c, s', still)
    requires s'.claimed == s.claimed && s.handles == 0 && s'.shutdownAt == s'.claimed + 1
    requires HandlersAreFree(c, s, still)
    ensures forall h: nat :: h < |s'.consumers| && c.managed[h] ==> s.consumers[h].pc.Exited? || MayExit(c, s', still, h)
  {
    forall h: nat | h < |s'.consumers| && c.managed[h] && !s.consumers[h].pc.Exited?
      ensures MayExit(c, s', still, h)
    {
      EverythingIsPublishable(c, s, still);
      assert WayIsFree(c, s, still, h, s.claimed);
      FreeWayStaysFree(c, s, s', still, h, s.claimed);
      FinishedConsumer(c, s', still, h, s.claimed);
      assert Granted(c, h, s'.cursors, s'.published, s'.cursors[h]);
    }
  }

  /** The stop sequence is set once nobody is about to set it. */
  lemma FinishedStop(c: Config, s: State, still: Still)
    requires Inv(c, s) && !Unfinished(c, s, still) && s.handles == 0
    requires forall p :: 0 <= p < |s.producers| && BeingClosed(s.producers[p].pc) ==> p !in still.producers
    ensures s.shutdownAt == s.claimed + 1
    ensures forall p :: 0 <= p < |s.producers| ==> !BeingClosed(s.producers[p].pc)
  {
    FinishedHandles(c, s, still);
    forall p: nat | p < |s.producers|
      ensures !BeingClosed(s.producers[p].pc)
    {
      assert p !in still.producers ==> ProducerWork(|c.wiring.gate|, s.claimed, s.producers[p].pc) == 0;
    }
  }

  /** The same if the drop of the last handle goes on. */
  lemma FinishedDrop(c: Config, s: State, still: Still, p: nat)
    requires Inv(c, s) && !Unfinished(c, s, still)
    requires p < |s.producers| && Drops(s.producers[p].pc) && p !in still.producers
    ensures s.producers[p].pc.Joining? && s.shutdownAt == s.claimed + 1
  {
    FinishedHandles(c, s, still);
    assert ProducerWork(|c.wiring.gate|, s.claimed, s.producers[p].pc) == 0;
  }

  lemma EverythingIsPublishable(c: Config, s: State, still: Still)
    requires Inv(c, s) && s.handles == 0
    ensures Publishable(s, still, s.claimed)
  {
    NothingPendingWithoutHandles(c, s);
    forall q | 0 <= q <= s.claimed && q < |s.owner| && q < |s.published|
      ensures s.published[q]
    {
      assert PublishedIn(s, q);
    }
  }

  /** A handler that has exited stays so. */
  lemma {:induction false} ExitedStays(c: Config, s: State, steps: seq<Step>, h: nat)
    requires Legal(c, s, steps) && h < |s.consumers| && s.consumers[h].pc.Exited?
    ensures h < |After(c, s, steps).consumers| && After(c, s, steps).consumers[h].pc.Exited?
    decreases |steps|
  {
    if steps == [] {
    } else {
      ExitedStays(c, Next(c, s, steps[0]), steps[1..], h);
    }
  }

  /** The others finish: then every handler has exited or may exit. */
  lemma HandlersFinish(c: Config, s: State, still: Still) returns (steps: seq<Step>)
    requires Inv(c, s) && s.handles == 0 && HandlersAreFree(c, s, still)
    ensures Legal(c, s, steps) && AllQuiet(still, steps) && AllLeaveAlone(still, steps)
    ensures var s' := After(c, s, steps);
      && Inv(c, s') && s'.handles == 0 && s'.claimed == s.claimed && !Unfinished(c, s', still) && StoodStill(s, s', still)
      && (s'.shutdownAt == s'.claimed + 1 ==>
            forall h: nat :: h < |s'.consumers| && c.managed[h] ==> MayExit(c, s', still, h))
  {
    steps := EverythingFinishes(c, s, still);
    var s' := After(c, s, steps);
    QuietLeavesAlone(still, steps);
    LegalIsLater(c, s, steps);
    StillStay(c, s, still, steps);
    ClaimsAreOver(c, s, steps);
    if s'.shutdownAt == s'.claimed + 1 {
      FinishedHandlers(c, s, s', still);
      forall h: nat | h < |s'.consumers| && c.managed[h]
        ensures MayExit(c, s', still, h)
      {
        if s.consumers[h].pc.Exited? {
          ExitedStays(c, s, steps, h);
        }
      }
    }
  }

  lemma JoinIsEnabled(c: Config, s: State, p: nat)
    requires Inv(c, s) && FirstExited(c, s.consumers, |s.consumers|)
    requires p < |s.producers| && s.producers[p].pc.Joining?
    ensures Returns(c, s, p)
  {
  }

  lemma DropCanReturn(c: Config, s: State, still: Still, p: nat) returns (steps: seq<Step>)
    requires Inv(c, s) && p < |s.producers| && Drops(s.producers[p].pc) && p !in still.producers
    requires HandlersAreFree(c, s, still)
    ensures Legal(c, s, steps) && AllLeaveAlone(still, steps) && Returns(c, After(c, s, steps), p)
  {
    var finish := HandlersFinish(c, s, still);
    var s1 := After(c, s, finish);
    DropStaysThroughout(c, s, still, finish, p);
    FinishedDrop(c, s1, still, p);
    var exit := HandlersExit(c, s1, still, |s1.consumers|);
    Concatenated(c, s, finish, exit);
    steps := finish + exit;
    JoinIsEnabled(c, After(c, s, steps), p);
  }

  /** When the last handle has been dropped, the shutdown can complete, if it is not among those who
      stand still and the handlers' ways are free: every handler exits, having handled everything. */
  lemma ShutdownCompletes(c: Config, s: State, still: Still) returns (steps: seq<Step>)
    requires ValidConfig(c) && Reachable(c, s) && s.handles == 0 && HandlersAreFree(c, s, still)
    requires forall p :: 0 <= p < |s.producers| && BeingClosed(s.producers[p].pc) ==> p !in still.producers
    ensures Legal(c, s, steps) && AllLeaveAlone(still, steps)
    ensures var s' := After(c, s, steps);
      && Reachable(c, s')
      && s'.claimed == s.claimed && s'.shutdownAt == s.claimed + 1
      && |s'.consumers| == |c.managed|
      && forall i :: 0 <= i < |s'.consumers| && c.managed[i] ==>
           s'.consumers[i].pc.Exited? && HasHandled(s'.consumers[i].seen, s'.log, s.claimed)
  {
    ReachableHolds(c, s);
    var finish := HandlersFinish(c, s, still);
    var s1 := After(c, s, finish);
    NobodyStartsClosing(c, s, finish, still);
    FinishedStop(c, s1, still);
    var exit := HandlersExit(c, s1, still, |s1.consumers|);
    Concatenated(c, s, finish, exit);
    steps := finish + exit;
    StaysReachable(c, s, steps);
    ExitedHaveHandled(c, After(c, s, steps));
  }

  lemma ExitedHaveHandled(c: Config, s: State)
    requires Inv(c, s)
    ensures forall i: nat :: i < |s.consumers| && c.managed[i] && s.consumers[i].pc.Exited? && s.shutdownAt == s.claimed + 1 ==>
              HasHandled(s.consumers[i].seen, s.log, s.claimed)
  {
    forall i: nat | i < |s.consumers| && c.managed[i] && s.consumers[i].pc.Exited? && s.shutdownAt == s.claimed + 1
      ensures HasHandled(s.consumers[i].seen, s.log, s.claimed)
    {
      PassedIsHandled(c, s, i, s.claimed);
    }
  }

  lemma {:induction false} NobodyStartsClosing(c: Config, s: State, steps: seq<Step>, still: Still)
    requires Legal(c, s, steps) && AllQuiet(still, steps)
    requires forall p :: 0 <= p < |s.producers| && BeingClosed(s.producers[p].pc) ==> p !in still.producers
    ensures var s' := After(c, s, steps);
      forall p :: 0 <= p < |s'.producers| && BeingClosed(s'.producers[p].pc) ==> p !in still.producers
    decreases |steps|
  {
    if steps == [] {
    } else {
      assert Quiet(still, steps[0]);
      NobodyStartsClosing(c, Next(c, s, steps[0]), steps[1..], still);
    }
  }

  lemma HandlersWereFree(c: Config, s: State, s': State, still: Still, p: nat)
    requires Inv(c, s) && Inv(c, s') && Later(s, s') && StoodStill(s, s', still) && s'.claimed == s.claimed
    requires Returns(c, s', p)
    ensures HandlersAreFree(c, s, still)
  {
    forall h: nat | h < |s.consumers| && h < |c.managed| && c.managed[h] && !s.consumers[h].pc.Exited?
      ensures h !in still.consumers && Unhindered(c.wiring, s.cursors, still.consumers, h, s.claimed)
    {
      assert s'.consumers[h].pc.Exited?;
      WayWasFree(c, s, s', still, h, s.claimed);
    }
  }

  /** The drop of the last handle can come to return if and only if every handler has exited or goes on,
      with no consumer that stands still before it on its way to the last claim. */
  lemma DropsReturnExactly(c: Config, s: State, still: Still, p: nat)
    requires ValidConfig(c) && Reachable(c, s)
    requires p < |s.producers| && Drops(s.producers[p].pc) && p !in still.producers
    ensures CanReturn(c, s, still, p) <==> HandlersAreFree(c, s, still)
  {
    ReachableHolds(c, s);
    if HandlersAreFree(c, s, still) {
      var steps := DropCanReturn(c, s, still, p);
    }
    if CanReturn(c, s, still, p) {
      var steps :| Legal(c, s, steps) && AllLeaveAlone(still, steps) && Returns(c, After(c, s, steps), p);
      LegalIsLater(c, s, steps);
      StillStay(c, s, still, steps);
        ClaimsAreOver(c, s, steps);
      HandlersWereFree(c, s, After(c, s, steps), still, p);
    }
  }
}
