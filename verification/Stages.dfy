/** The stages that a builder makes, over whole runs of the disruptor. */
module Stages {
  import opened Topology
  import opened Protocol
  import opened Builders
  import Invariant
  import Safety

  /** Over whole runs of the disruptor that was built: a consumer is never ahead of any consumer of any
      earlier stage, and has been handed nothing that one of them has not finished. */
  lemma EarlierStagesAreAhead(c: Config, s: State, calls: seq<BuilderCall>, i: nat, j: nat)
    requires Admitted(calls) && Buildable(calls) && Wired(c.wiring, Members(calls), Level(calls))
    requires ValidSize(c) && Reachable(c, s)
    requires i < |s.cursors| && j < |s.cursors| && j < |s.consumers|
    requires i < |Members(calls)| && j < |Members(calls)|
    requires Members(calls)[i].level < Members(calls)[j].level
    ensures s.cursors[j] <= s.cursors[i]
    ensures forall k :: 0 <= k < |s.consumers[j].seen| ==> s.consumers[j].seen[k].sequence <= s.cursors[i]
  {
    CallsAreDense(calls);
    WiredIsWellWired(c.wiring, Members(calls), Level(calls));
    BuiltCursorsAreStaged(c, s);
    EarlierLevelsAreAhead(c.wiring, s.cursors, Members(calls), Level(calls), i, j);
    var h: nat :| Follows(c.wiring, h, j) && h < |s.cursors| && s.cursors[j] <= s.cursors[h] <= s.cursors[i];
    forall k | 0 <= k < |s.consumers[j].seen|
      ensures s.consumers[j].seen[k].sequence <= s.cursors[h]
    {
      Safety.StagesAreOrdered(c, s, j, h, k);
    }
  }

  /** The cursors of the last group alone, on which the producers are gated, bound the cursors of every
      stage, and so the producers never get more than a lap ahead of any consumer. */
  lemma LastStageIsBehind(c: Config, s: State, calls: seq<BuilderCall>, i: nat) returns (g: nat)
    requires Admitted(calls) && Buildable(calls) && Wired(c.wiring, Members(calls), Level(calls))
    requires ValidSize(c) && Reachable(c, s) && i < |s.cursors|
    ensures g < |s.cursors| && g < |Members(calls)| && Members(calls)[g].level == Level(calls)
    ensures s.cursors[g] <= s.cursors[i] && s.claimed <= s.cursors[g] + c.size
  {
    CallsAreDense(calls);
    WiredIsWellWired(c.wiring, Members(calls), Level(calls));
    BuiltCursorsAreStaged(c, s);
    g := GateIsBehind(c.wiring, s.cursors, i);
    Safety.GateProtectsEveryStage(c, s, g);
  }

  lemma BuiltCursorsAreStaged(c: Config, s: State)
    requires ValidConfig(c) && Reachable(c, s)
    ensures Staged(c.wiring, s.cursors)
  {
    Safety.ReachableHolds(c, s);
    Invariant.CursorsAreStaged(c, s.cursors, s.published);
  }
}
