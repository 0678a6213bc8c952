/** The thread of a handler, as its loop, meets in every run of the protocol what the loop relies on, and
    does what the steps of the protocol do. */
module HandlerRuns {
  import opened Indexing
  import opened Protocol
  import opened Invariant
  import opened Safety
  import opened Runs
  import opened Shutdown
  import opened Grants
  import M = Managed

  /** The looks of a handler at shared memory in the first `k` steps: those that found a batch, and those
      that found nothing and then the stop sequence. A look that found nothing is given the cursor as
      its answer. */
  function LooksOf(states: seq<State>, steps: seq<Step>, i: nat, k: nat): seq<M.Look<Event>>
    requires k <= |steps| && |states| == |steps| + 1
  {
    if k == 0 then []
    else
      var (before, s, t) := (LooksOf(states, steps, i, k - 1), states[k - 1], steps[k - 1]);
      if IsGrant(states, steps, i, k - 1) then
        before + [M.Look(states[k].consumers[i].pc.available, NONE, s.slots)]
      else if t == CheckEnd(i) && i < |s.cursors| then
        before + [M.Look(s.cursors[i], s.shutdownAt, s.slots)]
      else before
  }

  // ---- the looks show the log ----

  lemma {:induction false} ClosedStays(c: Config, states: seq<State>, steps: seq<Step>, a: nat, b: nat)
    requires IsRun(c, states, steps) && Inv(c, states[0]) && a <= b <= |steps| && states[a].handles == 0
    ensures states[b].claimed == states[a].claimed && states[b].handles == 0
  {
    if a == b {
    } else {
      ClosedStays(c, states, steps, a, b - 1);
      RunHolds(c, states, steps, b - 1);
      assert IsStep(c, states, steps, b - 1);
      ClosedStep(c, states[b - 1], steps[b - 1]);
    }
  }

  /** What is granted is in the ring, and stays in the log until the end of the run. */
  lemma GrantShowsLog(c: Config, s: State, s': State, i: nat, available: Sequence)
    requires Inv(c, s) && Later(s, s') && i < |s.cursors| && Granted(c, i, s.cursors, s.published, available)
    ensures M.ShowsLog(c.size, s'.log, s.cursors[i] + 1, M.Look(available, NONE, s.slots))
  {
    NoLapping(c, s.cursors, s.published, s.claimed, i);
    assert Granted(c, i, s.cursors, s.published, s.cursors[i]);
    forall q | s.cursors[i] + 1 <= q <= available
      ensures s.slots[Slot(c.size, q)] == s'.log[q]
    {
      assert s.published[q];
    }
  }

  lemma EndShowsLog(c: Config, states: seq<State>, steps: seq<Step>, i: nat, j: nat)
    requires IsRun(c, states, steps) && Inv(c, states[0]) && j <= |steps|
    requires i < |states[j].cursors| && NONE <= states[j].cursors[i]
    requires Later(states[j], states[|steps|])
    ensures var s := states[j];
      M.ShowsLog(c.size, states[|steps|].log, s.cursors[i] + 1, M.Look(s.cursors[i], s.shutdownAt, s.slots))
  {
    RunHolds(c, states, steps, j);
    RunHolds(c, states, steps, |steps|);
    var s := states[j];
    assert Granted(c, i, s.cursors, s.published, s.cursors[i]);
    if s.shutdownAt != NONE {
      ClosedStays(c, states, steps, j, |steps|);
    }
  }

  // ---- the loop and the steps ----

  /** The marks at the ends of batches are those of the looks. */
  predicate Marked(seen: seq<Call>, looks: seq<M.Look<Event>>) {
    forall n :: 0 <= n < |seen| ==> (seen[n].endOfBatch <==> M.EndsBatch(looks, n))
  }

  /** No batch ends inside the one that is being handled. */
  predicate OneBatch(pc: ConsumerPc, cursor: Sequence, looks: seq<M.Look<Event>>) {
    pc.Reading? ==> forall n :: cursor < n < pc.available ==> !M.EndsBatch(looks, n)
  }

  /** Where the loop is after some looks is where the handler is. */
  ghost predicate Mirrors(me: Consumer, cursor: Sequence, looks: seq<M.Look<Event>>) {
    && M.Reached(looks) == EndOf(me.pc, cursor) + 1
    && Marked(me.seen, looks)
    && OneBatch(me.pc, cursor, looks)
    && (me.pc.Exited? <==> M.Stops(looks))
    && (if me.pc.Exited? then looks != [] && M.GoesOn(looks[..|looks| - 1]) else M.GoesOn(looks))
  }

  lemma MirrorsNewBatch(me: Consumer, me': Consumer, cursor: Sequence, looks: seq<M.Look<Event>>, slots: seq<Event>)
    requires Mirrors(me, cursor, looks) && me.pc.Found? && |me.seen| == cursor + 1
    requires me'.seen == me.seen && me'.pc.Reading? && cursor < me'.pc.available
    ensures Mirrors(me', cursor, looks + [M.Look(me'.pc.available, NONE, slots)])
  {
    var looks' := looks + [M.Look(me'.pc.available, NONE, slots)];
    assert looks'[..|looks|] == looks;
    assert M.Reached(looks') == me'.pc.available + 1;
    assert !M.Stops(looks');
    assert M.GoesOn(looks');
    M.BatchesEndBefore(looks);
  }

  ghost predicate MirrorsAt(c: Config, states: seq<State>, steps: seq<Step>, i: nat, k: nat) {
    && k <= |steps| && |states| == |steps| + 1 && i < |states[k].consumers| && i < |states[k].cursors|
    && Mirrors(states[k].consumers[i], states[k].cursors[i], LooksOf(states, steps, i, k))
  }

  lemma MirrorsAfterSettle(c: Config, states: seq<State>, steps: seq<Step>, i: nat, k: nat)
    requires k < |steps| && |states| == |steps| + 1 && IsStep(c, states, steps, k) && steps[k] == Settle(i)
    requires states[k].consumers[i].pc.limit.Unlimited?
    requires MirrorsAt(c, states, steps, i, k) && |states[k].consumers[i].seen| == states[k].cursors[i] + 1
    ensures MirrorsAt(c, states, steps, i, k + 1)
  {
    var s := states[k];
    SettleGrants(c, s, i);
    if IsGrant(states, steps, i, k) {
      MirrorsNewBatch(s.consumers[i], states[k + 1].consumers[i], s.cursors[i], LooksOf(states, steps, i, k), s.slots);
    }
  }

  lemma MirrorsAfterCheck(c: Config, states: seq<State>, steps: seq<Step>, i: nat, k: nat)
    requires k < |steps| && |states| == |steps| + 1 && IsStep(c, states, steps, k) && steps[k] == CheckEnd(i)
    requires MirrorsAt(c, states, steps, i, k) && |states[k].consumers[i].seen| == states[k].cursors[i] + 1
    ensures MirrorsAt(c, states, steps, i, k + 1)
  {
    var (s, looks) := (states[k], LooksOf(states, steps, i, k));
    assert (looks + [M.Look(s.cursors[i], s.shutdownAt, s.slots)])[..|looks|] == looks;
  }

  lemma MirrorsAfterCall(c: Config, states: seq<State>, steps: seq<Step>, i: nat, k: nat)
    requires k < |steps| && |states| == |steps| + 1 && IsStep(c, states, steps, k) && steps[k] == Handle(i)
    requires MirrorsAt(c, states, steps, i, k)
    requires states[k].cursors[i] < states[k].consumers[i].pc.next == |states[k].consumers[i].seen|
    ensures MirrorsAt(c, states, steps, i, k + 1)
  {
    M.BatchesEndBefore(LooksOf(states, steps, i, k));
  }

  lemma MirrorsNext(c: Config, states: seq<State>, steps: seq<Step>, i: nat, k: nat)
    requires k < |steps| && |states| == |steps| + 1 && IsStep(c, states, steps, k)
    requires Inv(c, states[k]) && i < |states[k].consumers| && c.managed[i] && MirrorsAt(c, states, steps, i, k)
    ensures MirrorsAt(c, states, steps, i, k + 1)
  {
    var (s, t) := (states[k], steps[k]);
    assert SeenOk(s.consumers[i].seen, NextOf(s.consumers[i].pc, s.cursors[i]), c.managed[i], s.log);
    assert ConsumerOk(c, i, s.consumers[i].pc, s.cursors, s.published);
    if t == Settle(i) {
      MirrorsAfterSettle(c, states, steps, i, k);
    } else if t == CheckEnd(i) {
      MirrorsAfterCheck(c, states, steps, i, k);
    } else if t == Handle(i) {
      MirrorsAfterCall(c, states, steps, i, k);
    } else if IsProducerStep(t) {
    } else {
      EndStays(c, s, t, i);
    }
  }

  lemma MirrorsStep(c: Config, states: seq<State>, steps: seq<Step>, i: nat, k: nat)
    requires ValidConfig(c) && IsRun(c, states, steps) && Init(c, states[0]) && k < |steps|
    requires i < |c.managed| && c.managed[i] && MirrorsAt(c, states, steps, i, k)
    ensures MirrorsAt(c, states, steps, i, k + 1)
  {
    InitHolds(c, states[0]);
    RunHolds(c, states, steps, k);
    assert IsStep(c, states, steps, k);
    MirrorsNext(c, states, steps, i, k);
  }

  lemma {:induction false} RunMirrors(c: Config, states: seq<State>, steps: seq<Step>, i: nat, k: nat)
    requires ValidConfig(c) && IsRun(c, states, steps) && Init(c, states[0]) && k <= |steps|
    requires i < c.Consumers() && c.managed[i]
    ensures MirrorsAt(c, states, steps, i, k)
  {
    if k == 0 {
    } else {
      RunMirrors(c, states, steps, i, k - 1);
      MirrorsStep(c, states, steps, i, k - 1);
    }
  }

  lemma {:induction false} LooksAreSound(c: Config, states: seq<State>, steps: seq<Step>, i: nat, k: nat)
    requires ValidConfig(c) && IsRun(c, states, steps) && Init(c, states[0]) && k <= |steps|
    requires i < c.Consumers() && c.managed[i]
    ensures M.AllSound(c.size, states[|steps|].log, LooksOf(states, steps, i, k))
  {
    if k == 0 {
    } else {
      LooksAreSound(c, states, steps, i, k - 1);
      InitHolds(c, states[0]);
      RunHolds(c, states, steps, k - 1);
      RunMirrors(c, states, steps, i, k - 1);
      RunIsLater(c, states, steps, k - 1, |steps|);
      NextLookIsSound(c, states, steps, i, k - 1);
    }
  }

  lemma NextLookIsSound(c: Config, states: seq<State>, steps: seq<Step>, i: nat, k: nat)
    requires IsRun(c, states, steps) && Inv(c, states[0]) && k < |steps| && Inv(c, states[k])
    requires MirrorsAt(c, states, steps, i, k) && Later(states[k], states[|steps|]) && i < |c.managed| && c.managed[i]
    requires M.AllSound(c.size, states[|steps|].log, LooksOf(states, steps, i, k))
    ensures M.AllSound(c.size, states[|steps|].log, LooksOf(states, steps, i, k + 1))
  {
    var s := states[k];
    assert IsStep(c, states, steps, k);
    assert ConsumerOk(c, i, s.consumers[i].pc, s.cursors, s.published);
    if IsGrant(states, steps, i, k) {
      SettleGrants(c, s, i);
      GrantShowsLog(c, s, states[|steps|], i, s.consumers[i].pc.available);
      M.OneMoreSound(c.size, states[|steps|].log, LooksOf(states, steps, i, k),
        M.Look(s.consumers[i].pc.available, NONE, s.slots));
    } else if steps[k] == CheckEnd(i) {
      EndShowsLog(c, states, steps, i, k);
      M.OneMoreSound(c.size, states[|steps|].log, LooksOf(states, steps, i, k),
        M.Look(s.cursors[i], s.shutdownAt, s.slots));
    }
  }

  /** The calls as the loop records them. */
  function Calls(seen: seq<Call>): (calls: seq<M.Call<Event>>)
    ensures |calls| == |seen|
    ensures forall n :: 0 <= n < |seen| ==> calls[n] == M.Call(seen[n].sequence, seen[n].event, seen[n].endOfBatch)
  {
    seq(|seen|, n requires 0 <= n < |seen| => M.Call(seen[n].sequence, seen[n].event, seen[n].endOfBatch))
  }

  /** A loop over these looks has what it relies on, has made these calls, and has ended if `exited`. */
  ghost predicate LoopHasRun(
      size: nat, log: seq<Event>, looks: seq<M.Look<Event>>, calls: seq<M.Call<Event>>, exited: bool)
    requires size > 0
  {
    && (forall n :: 0 <= n <= |looks| ==> M.Sound(size, log, looks[..n]))
    && M.InOrder(calls, log, looks)
    && (if exited then looks != [] && M.Stops(looks) && M.GoesOn(looks[..|looks| - 1]) else M.GoesOn(looks))
  }

  lemma SoundLoop(me: Consumer, cursor: Sequence, size: nat, log: seq<Event>, looks: seq<M.Look<Event>>)
    requires size > 0 && M.AllSound(size, log, looks)
    requires Mirrors(me, cursor, looks) && SeenOk(me.seen, NextOf(me.pc, cursor), true, log) && !me.pc.Reading?
    ensures LoopHasRun(size, log, looks, Calls(me.seen), me.pc.Exited?)
  {
    forall n: nat | n <= |looks|
      ensures M.Sound(size, log, looks[..n])
    {
      M.EveryPrefixIsSound(size, log, looks, n);
    }
  }

  /** In every run, whenever a handler is not inside a batch, its loop has met what it relies on, has made
      exactly the calls of the handler, the marks at the ends of batches included, and has ended exactly
      if the handler has exited: at the first look that stops it. */
  lemma HandlerRunsItsLoop(c: Config, states: seq<State>, steps: seq<Step>, i: nat)
    requires ValidConfig(c) && IsRun(c, states, steps) && Init(c, states[0])
    requires i < c.Consumers() && c.managed[i]
    requires i < |states[|steps|].consumers| && !states[|steps|].consumers[i].pc.Reading?
    ensures var s := states[|steps|];
      LoopHasRun(c.size, s.log, LooksOf(states, steps, i, |steps|), Calls(s.consumers[i].seen),
        s.consumers[i].pc.Exited?)
  {
    LooksAreSound(c, states, steps, i, |steps|);
    RunMirrors(c, states, steps, i, |steps|);
    InitHolds(c, states[0]);
    RunHolds(c, states, steps, |steps|);
    var s := states[|steps|];
    assert SeenOk(s.consumers[i].seen, NextOf(s.consumers[i].pc, s.cursors[i]), c.managed[i], s.log);
    SoundLoop(s.consumers[i], s.cursors[i], c.size, s.log, LooksOf(states, steps, i, |steps|));
  }
}
