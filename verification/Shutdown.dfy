/** Shutdown: the last handle to be dropped sets the stop sequence, and every handler stops exactly
    there. */
module Shutdown {
  import opened Indexing
  import opened Protocol
  import opened Invariant
  import opened ProducerSteps
  import opened Safety

  /** Without live handles everything that was claimed is published. */
  lemma NothingPendingWithoutHandles(c: Config, s: State)
    requires Inv(c, s) && s.handles == 0
    ensures forall q :: 0 <= q <= s.claimed ==> PublishedIn(s, q)
  {
    forall q | 0 <= q <= s.claimed
      ensures PublishedIn(s, q)
    {
      if Owns(s.producers[s.owner[q]].pc, q) {
        LiveCounts(s.producers, s.owner[q]);
      }
    }
  }

  /** The counter is the number of live handles, and dropping a handle starts the shutdown exactly if no
      other handle is live. */
  lemma OnlyTheLastDropCloses(c: Config, s: State, t: Step)
    requires ValidConfig(c) && Reachable(c, s) && t.Drop? && Enabled(c, s, t)
    ensures s.handles == LiveHandles(s.producers)
    ensures Next(c, s, t).producers[t.p].pc.Closing? <==>
            forall q: nat :: q < |s.producers| && q != t.p ==> !Live(s.producers[q].pc)
  {
    ReachableHolds(c, s);
    LiveCounts(s.producers, t.p);
    var gone := s.producers[t.p].(pc := Gone);
    var others := s.producers[t.p := gone];
    LiveHandlesAfter(s.producers, t.p, gone);
    if LiveHandles(others) == 0 {
      forall q: nat | q < |s.producers| && q != t.p
        ensures !Live(s.producers[q].pc)
      {
        if Live(others[q].pc) {
          LiveCounts(others, q);
        }
      }
    } else {
      var q := SomeoneLive(others);
      assert Live(s.producers[q].pc) && q != t.p;
    }
  }

  lemma {:induction false} SomeoneLive(producers: seq<Producer>) returns (q: nat)
    requires LiveHandles(producers) > 0
    ensures q < |producers| && Live(producers[q].pc)
  {
    var n := |producers| - 1;
    if Live(producers[n].pc) {
      q := n;
    } else {
      q := SomeoneLive(producers[..n]);
    }
  }

  /** Once the last handle is dropped, nothing more is claimed and no handle comes back. */
  lemma ClosedIsFinal(c: Config, s: State, t: Step)
    requires ValidConfig(c) && Reachable(c, s) && s.handles == 0 && Enabled(c, s, t)
    ensures Next(c, s, t).claimed == s.claimed && Next(c, s, t).handles == 0
  {
    ReachableHolds(c, s);
    ClosedStep(c, s, t);
  }

  lemma ClosedStep(c: Config, s: State, t: Step)
    requires Inv(c, s) && s.handles == 0 && Enabled(c, s, t)
    ensures Next(c, s, t).claimed == s.claimed && Next(c, s, t).handles == 0
  {
    if IsProducerStep(t) {
      if Live(s.producers[t.p].pc) {
        LiveCounts(s.producers, t.p);
      }
    }
  }

  /** When the stop sequence is set, it is one past the last claim and everything is published. */
  lemma StopSequenceIsExact(c: Config, s: State)
    requires ValidConfig(c) && Reachable(c, s) && s.shutdownAt != NONE
    ensures s.shutdownAt == s.claimed + 1 && LiveHandles(s.producers) == 0
    ensures forall q :: 0 <= q < s.shutdownAt ==> PublishedIn(s, q)
  {
    ReachableHolds(c, s);
    NothingPendingWithoutHandles(c, s);
  }

  /** A handler exits only after it has handled every sequence that was ever claimed. */
  lemma ExitIsExact(c: Config, s: State, i: nat)
    requires ValidConfig(c) && Reachable(c, s)
    requires i < |s.consumers| && i < |s.cursors| && s.consumers[i].pc.Exited?
    ensures s.shutdownAt == s.claimed + 1 == |s.log| == |s.consumers[i].seen| && s.cursors[i] == s.claimed
    ensures forall k :: 0 <= k < |s.log| ==>
              s.consumers[i].seen[k].sequence == k && s.consumers[i].seen[k].event == s.log[k]
  {
    ReachableHolds(c, s);
    assert ConsumerOk(c, i, s.consumers[i].pc, s.cursors, s.published);
    assert Granted(c, i, s.cursors, s.published, s.cursors[i]);
    assert SeenOk(s.consumers[i].seen, NextOf(s.consumers[i].pc, s.cursors[i]), c.managed[i], s.log);
  }

  /** A handler that looks at the stop sequence exits exactly if there is nothing left for it. */
  lemma ExitDecision(c: Config, s: State, t: Step)
    requires ValidConfig(c) && Reachable(c, s) && t.CheckEnd? && Enabled(c, s, t)
    ensures Next(c, s, t).consumers[t.i].pc.Exited? <==> s.shutdownAt != NONE && s.cursors[t.i] == s.claimed
  {
    ReachableHolds(c, s);
    assert Granted(c, t.i, s.cursors, s.published, s.cursors[t.i]);
  }

  /** `poll` returns `Shutdown` exactly if the producers are gone and everything has been granted. */
  lemma PollShutdownIsExact(c: Config, s: State, t: Step)
    requires ValidConfig(c) && Reachable(c, s) && t.Poll? && Enabled(c, s, t)
    ensures Next(c, s, t).consumers[t.i].pc == Resting(Shutdown) <==>
            s.shutdownAt != NONE && s.cursors[t.i] == s.claimed
  {
    ReachableHolds(c, s);
    assert Granted(c, t.i, s.cursors, s.published, s.cursors[t.i]);
  }

  /** Dropping the last handle returns only after every handler has handled everything. */
  lemma DropWaitsForHandlers(c: Config, s: State, t: Step, i: nat)
    requires ValidConfig(c) && Reachable(c, s) && t.Join? && Enabled(c, s, t)
    requires i < |s.consumers| && i < |s.cursors| && i < |c.managed| && c.managed[i]
    ensures |s.consumers[i].seen| == |s.log| == s.claimed + 1
    ensures forall k :: 0 <= k < |s.log| ==> s.consumers[i].seen[k].event == s.log[k] && PublishedIn(s, k)
  {
    ExitIsExact(c, s, i);
    StopSequenceIsExact(c, s);
  }
}
