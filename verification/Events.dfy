/** Where the events of the log come from. */
module Events {
  import opened Indexing
  import opened Protocol
  import opened Invariant
  import opened ProducerSteps
  import opened Safety
  import opened Wrappers

  /** The last event that was written to sequence `q` in the first `k` steps. */
  function LastWrite(steps: seq<Step>, k: nat, q: Sequence): Option<Event>
    requires k <= |steps|
  {
    if k == 0 then None
    else if steps[k - 1].Write? && steps[k - 1].at == q then Some(steps[k - 1].event)
    else LastWrite(steps, k - 1, q)
  }

  ghost predicate NoneFrom(steps: seq<Step>, k: nat, n: nat)
    requires k <= |steps|
  {
    forall q :: n <= q ==> LastWrite(steps, k, q) == None
  }

  /** The event of a sequence is the last one written to it; if its producer wrote none, it is the
      event of one lap before, and in the first lap what the factory had put in the slot. */
  function Source(size: nat, initial: seq<Event>, log: seq<Event>, steps: seq<Step>, k: nat, q: Sequence): Event
    requires size > 0 && |initial| == size && k <= |steps| && 0 <= q < |log|
  {
    match LastWrite(steps, k, q)
    case Some(event) => event
    case None => if q < size then initial[q] else log[q - size]
  }

  ghost predicate Sourced(c: Config, initial: seq<Event>, s: State, steps: seq<Step>, k: nat) {
    && c.size > 0 && |initial| == |s.slots| == c.size && k <= |steps|
    && (forall q :: 0 <= q < |s.log| ==> s.log[q] == Source(c.size, initial, s.log, steps, k, q))
    && (forall q :: |s.log| <= q < c.size ==> s.slots[q] == initial[q])
    && NoneFrom(steps, k, |s.log|)
  }

  lemma NothingWrittenBeyond(steps: seq<Step>, k: nat, n: nat, n': nat)
    requires k < |steps| && n <= n' && NoneFrom(steps, k, n)
    requires steps[k].Write? ==> steps[k].at < n'
    ensures NoneFrom(steps, k + 1, n')
  {
    var k' := k + 1;
    forall q | n' <= q
      ensures LastWrite(steps, k', q) == None
    {
      assert LastWrite(steps, k, q) == None;
    }
  }

  lemma SourcedAfterClaim(c: Config, initial: seq<Event>, s: State, steps: seq<Step>, k: nat, n: nat, log': seq<Event>)
    requires Inv(c, s) && Sourced(c, initial, s, steps, k) && k < |steps| && !steps[k].Write?
    requires log' == s.log + Inherited(c.size, s.slots, |s.log|, n) && n <= c.size
    ensures forall q :: 0 <= q < |log'| ==> log'[q] == Source(c.size, initial, log', steps, k + 1, q)
  {
    forall q | 0 <= q < |log'|
      ensures log'[q] == Source(c.size, initial, log', steps, k + 1, q)
    {
      assert LastWrite(steps, k + 1, q) == LastWrite(steps, k, q);
      if q < |s.log| {
        assert s.log[q] == Source(c.size, initial, s.log, steps, k, q);
      } else {
        assert log'[q] == s.slots[Slot(c.size, |s.log| + (q - |s.log|))];
        if q >= c.size {
          OneLapOn(c.size, q - c.size);
        }
      }
    }
  }

  lemma SourcedAfterWrite(c: Config, initial: seq<Event>, s: State, steps: seq<Step>, k: nat)
    requires Inv(c, s) && Sourced(c, initial, s, steps, k) && k < |steps|
    requires steps[k].Write? && Enabled(c, s, steps[k])
    ensures Sourced(c, initial, Next(c, s, steps[k]), steps, k + 1)
  {
    var at := steps[k].at;
    var s' := Next(c, s, steps[k]);
    var i := SomeCursor(c, s);
    OwnedIsAhead(c, s, steps[k].p, at, i);
    NothingWrittenBeyond(steps, k, |s.log|, |s.log|);
    forall q | 0 <= q < |s.log|
      ensures s'.log[q] == Source(c.size, initial, s'.log, steps, k + 1, q)
    {
      assert s.log[q] == Source(c.size, initial, s.log, steps, k, q);
    }
    forall q | |s.log| <= q < c.size
      ensures s'.slots[q] == initial[q]
    {
      assert Slot(c.size, at) == at;
    }
  }

  lemma SourcedAfterExchange(c: Config, initial: seq<Event>, s: State, steps: seq<Step>, k: nat)
    requires Inv(c, s) && Sourced(c, initial, s, steps, k) && k < |steps| && steps[k].Exchange? && Enabled(c, s, steps[k])
    requires Next(c, s, steps[k]).producers[steps[k].p].pc.Writing?
    ensures Sourced(c, initial, Next(c, s, steps[k]), steps, k + 1)
  {
    var t := steps[k];
    assert ProducerOk(c, s.producers[t.p], s.cursors, s.claimed);
    ClaimFits(c, s, t.p);
    NothingWrittenBeyond(steps, k, |s.log|, |Next(c, s, t).log|);
    SourcedAfterClaim(c, initial, s, steps, k, s.producers[t.p].pc.n, Next(c, s, t).log);
  }

  lemma ClaimFits(c: Config, s: State, p: nat)
    requires Inv(c, s) && p < |s.producers| && s.producers[p].pc.Claim? && s.producers[p].pc.current == s.claimed
    ensures s.producers[p].pc.n <= c.size
  {
    assert ProducerOk(c, s.producers[p], s.cursors, s.claimed);
    var g := c.wiring.gate[0];
    assert g in c.wiring.gate;
    assert Granted(c, g, s.cursors, s.published, s.cursors[g]);
  }

  lemma SourcedOtherwise(c: Config, initial: seq<Event>, s: State, steps: seq<Step>, k: nat, s': State)
    requires Sourced(c, initial, s, steps, k) && k < |steps| && !steps[k].Write?
    requires s'.log == s.log && s'.slots == s.slots
    ensures Sourced(c, initial, s', steps, k + 1)
  {
    NothingWrittenBeyond(steps, k, |s.log|, |s.log|);
    forall q | 0 <= q < |s.log|
      ensures s.log[q] == Source(c.size, initial, s.log, steps, k + 1, q)
    {
      assert s.log[q] == Source(c.size, initial, s.log, steps, k, q);
    }
  }

  lemma SourcedStep(c: Config, initial: seq<Event>, s: State, steps: seq<Step>, k: nat)
    requires Inv(c, s) && Sourced(c, initial, s, steps, k) && k < |steps| && Enabled(c, s, steps[k])
    ensures Sourced(c, initial, Next(c, s, steps[k]), steps, k + 1)
  {
    var t := steps[k];
    if t.Write? {
      SourcedAfterWrite(c, initial, s, steps, k);
    } else if t.Exchange? && Next(c, s, t).producers[t.p].pc.Writing? {
      SourcedAfterExchange(c, initial, s, steps, k);
    } else {
      SourcedOtherwise(c, initial, s, steps, k, Next(c, s, t));
    }
  }

  lemma {:induction false} RunSourced(c: Config, states: seq<State>, steps: seq<Step>, k: nat)
    requires ValidConfig(c) && IsRun(c, states, steps) && Init(c, states[0]) && Inv(c, states[0]) && k <= |steps|
    ensures Sourced(c, states[0].slots, states[k], steps, k)
  {
    if k == 0 {
    } else {
      RunSourced(c, states, steps, k - 1);
      RunHolds(c, states, steps, k - 1);
      assert IsStep(c, states, steps, k - 1);
      SourcedStep(c, states[0].slots, states[k - 1], steps, k - 1);
    }
  }

  /** In every reachable state, an idle handle may begin a request, be cloned or be dropped; a clone
      starts with a bound that knows nothing of the consumers. The closure of a caller may write any event
      to the sequences of its batch, in any order, and to no others. */
  lemma CallersMay(c: Config, s: State, p: nat, n: nat, at: Sequence, event: Event)
    requires ValidConfig(c) && Reachable(c, s) && p < |s.producers|
    ensures var pc := s.producers[p].pc;
      && (Enabled(c, s, Begin(p, n)) && Enabled(c, s, Drop(p)) <==> pc.Idle?)
      && (Enabled(c, s, Clone(p)) <==> pc.Idle? && c.mode.Multi?)
      && (Enabled(c, s, Clone(p)) ==>
            Next(c, s, Clone(p)).producers == s.producers + [Producer(Idle(NoCall), 0)])
      && (Enabled(c, s, Write(p, at, event)) <==> pc.Writing? && pc.lower <= at <= pc.upper)
      && (Enabled(c, s, Write(p, at, event)) ==>
            var s' := Next(c, s, Write(p, at, event));
            && s'.producers == s.producers && s'.log == s.log[at := event]
            && s'.slots[Slot(c.size, at)] == event)
  {
    ReachableHolds(c, s);
    assert ProducerOk(c, s.producers[p], s.cursors, s.claimed);
  }

  /** In every run, the log holds for every claimed sequence what its producer wrote last, and this
      producer is the one that claimed it. */
  lemma EventsComeFromTheirProducers(c: Config, states: seq<State>, steps: seq<Step>, k: nat)
    requires ValidConfig(c) && IsRun(c, states, steps) && Init(c, states[0]) && k <= |steps|
    ensures Sourced(c, states[0].slots, states[k], steps, k)
    ensures k < |steps| && steps[k].Write? ==>
      0 <= steps[k].at < |states[k].owner| && states[k].owner[steps[k].at] == steps[k].p
  {
    InitHolds(c, states[0]);
    RunSourced(c, states, steps, k);
    if k < |steps| && steps[k].Write? {
      RunHolds(c, states, steps, k);
      assert IsStep(c, states, steps, k);
      assert Owns(states[k].producers[steps[k].p].pc, steps[k].at);
    }
  }
}
