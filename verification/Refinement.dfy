/** The protocol refines an append-only log of bounded lag with one offset for every consumer.

    The abstract machine knows no ring, no availability bits, no cached bounds and no local values.
    Its entries are reserved in order, filled while they are not committed, committed, delivered and
    passed. */
module Refinement {
  import opened Indexing
  import opened Topology
  import opened Protocol
  import opened Invariant
  import opened ConsumerSteps
  import opened Safety

  datatype Log = Log(entries: seq<Event>, committed: seq<bool>, offsets: seq<Sequence>, delivered: seq<seq<Call>>)

  function Abstraction(s: State): Log {
    Log(s.log, s.published, s.cursors, seq(|s.consumers|, i requires 0 <= i < |s.consumers| => s.consumers[i].seen))
  }

  ghost predicate LogInit(c: Config, a: Log) {
    && a.entries == [] && a.committed == []
    && a.offsets == seq(c.Consumers(), _ => NONE)
    && a.delivered == seq(c.Consumers(), _ => [])
  }

  /** `n` entries are appended, at most `size` beyond the slowest consumer. What they hold is open. */
  ghost predicate Reserve(c: Config, a: Log, a': Log) {
    && a.entries <= a'.entries
    && a' == a.(entries := a'.entries, committed := a.committed + seq(|a'.entries| - |a.entries|, _ => false))
    && (forall i :: 0 <= i < |a.offsets| ==> |a'.entries| - 1 <= a.offsets[i] + c.size)
  }

  /** An entry that is not yet committed gets a value. */
  ghost predicate Fill(a: Log, a': Log, at: Sequence, event: Event) {
    && 0 <= at < |a.entries| == |a.committed| && !a.committed[at]
    && a' == a.(entries := a.entries[at := event])
  }

  /** Entries are committed that were not committed before. */
  ghost predicate Commit(a: Log, a': Log, from: nat, to: Sequence) {
    && from <= to + 1 <= |a.committed|
    && (forall q :: from <= q <= to ==> !a.committed[q])
    && a' == a.(committed := Mark(a.committed, from, to))
  }

  /** The entry is committed, and every consumer of the group before has passed it. */
  ghost predicate Deliverable(c: Config, a: Log, i: nat, at: Sequence) {
    && 0 <= at < |a.entries| == |a.committed| && a.committed[at]
    && forall j: nat :: j < |a.offsets| && Follows(c.wiring, j, i) ==> at <= a.offsets[j]
  }

  /** A consumer gets an entry after its offset. A handler gets every entry in turn. */
  ghost predicate Deliver(c: Config, a: Log, a': Log, i: nat, call: Call) {
    && i < |a.delivered| == |a.offsets| == |c.managed|
    && Deliverable(c, a, i, call.sequence)
    && a.offsets[i] < call.sequence
    && call.event == a.entries[call.sequence]
    && (a.delivered[i] == [] || a.delivered[i][|a.delivered[i]| - 1].sequence < call.sequence)
    && (c.managed[i] ==> call.sequence == |a.delivered[i]|)
    && a' == a.(delivered := a.delivered[i := a.delivered[i] + [call]])
  }

  /** A consumer moves its offset; a handler only past what it has got. */
  ghost predicate Pass(c: Config, a: Log, a': Log, i: nat, upto: Sequence) {
    && i < |a.delivered| == |a.offsets| == |c.managed|
    && a.offsets[i] <= upto
    && (forall q :: a.offsets[i] < q <= upto ==> Deliverable(c, a, i, q))
    && (c.managed[i] ==> |a.delivered[i]| == upto + 1)
    && a' == a.(offsets := a.offsets[i := upto])
  }

  ghost predicate LogNext(c: Config, a: Log, a': Log) {
    || a' == a
    || Reserve(c, a, a')
    || (exists at, event :: Fill(a, a', at, event))
    || (exists from, to :: Commit(a, a', from, to))
    || (exists i, call :: Deliver(c, a, a', i, call))
    || (exists i, upto :: Pass(c, a, a', i, upto))
  }

  // ---- what the log promises by itself ----

  /** The lag of every consumer is bounded by the size of the ring, what is passed is committed, and a
      handler has got exactly the first entries. */
  ghost predicate LogOk(c: Config, a: Log) {
    && |a.entries| == |a.committed|
    && |a.offsets| == |a.delivered| == |c.managed| == c.Consumers()
    && (forall i :: 0 <= i < |a.offsets| ==>
          PublishedUpTo(a.committed, a.offsets[i]) && |a.entries| - 1 <= a.offsets[i] + c.size)
    && (forall i, k :: 0 <= i < |a.delivered| && 0 <= k < |a.delivered[i]| ==>
          var call := a.delivered[i][k];
          0 <= call.sequence < |a.entries| && a.committed[call.sequence] && call.event == a.entries[call.sequence])
    && (forall i, k :: 0 <= i < |a.delivered| && c.managed[i] && 0 <= k < |a.delivered[i]| ==>
          a.delivered[i][k].sequence == k)
  }

  /** Entries are only added, and committed entries are final. */
  ghost predicate Extends(a: Log, a': Log) {
    && |a.entries| == |a.committed| <= |a'.entries| == |a'.committed|
    && forall q :: 0 <= q < |a.entries| && a.committed[q] ==> a'.committed[q] && a'.entries[q] == a.entries[q]
  }

  lemma PassOk(c: Config, a: Log, a': Log, i: nat, upto: Sequence)
    requires LogOk(c, a) && Pass(c, a, a', i, upto)
    ensures LogOk(c, a') && Extends(a, a')
  {
    assert PublishedUpTo(a.committed, a.offsets[i]);
    forall q | 0 <= q <= upto
      ensures q < |a.committed| && a.committed[q]
    {
      if q > a.offsets[i] {
        assert Deliverable(c, a, i, q);
      }
    }
    assert upto > a.offsets[i] ==> Deliverable(c, a, i, upto);
  }

  lemma CommitOk(c: Config, a: Log, a': Log, from: nat, to: Sequence)
    requires LogOk(c, a) && Commit(a, a', from, to)
    ensures LogOk(c, a') && Extends(a, a')
  {
    forall i | 0 <= i < |a.offsets|
      ensures PublishedUpTo(a'.committed, a.offsets[i])
    {
      assert PublishedUpTo(a.committed, a.offsets[i]);
    }
  }

  lemma ReserveOk(c: Config, a: Log, a': Log)
    requires LogOk(c, a) && Reserve(c, a, a')
    ensures LogOk(c, a') && Extends(a, a')
  {
    forall i | 0 <= i < |a.offsets|
      ensures PublishedUpTo(a'.committed, a.offsets[i])
    {
      assert PublishedUpTo(a.committed, a.offsets[i]);
    }
  }

  lemma LogStepOk(c: Config, a: Log, a': Log)
    requires LogOk(c, a) && LogNext(c, a, a')
    ensures LogOk(c, a') && Extends(a, a')
  {
    if a' == a {
    } else if Reserve(c, a, a') {
      ReserveOk(c, a, a');
    } else if at, event :| Fill(a, a', at, event) {
    } else if from, to :| Commit(a, a', from, to) {
      CommitOk(c, a, a', from, to);
    } else if i, call :| Deliver(c, a, a', i, call) {
    } else {
      var i, upto :| Pass(c, a, a', i, upto);
      PassOk(c, a, a', i, upto);
    }
  }

  /** In every run of the log, committed entries are final and every consumer keeps within its lag. */
  lemma {:induction false} LogRunOk(c: Config, logs: seq<Log>, k: nat, l: nat)
    requires IsLogRun(c, logs) && k <= l < |logs| && |c.managed| == c.Consumers() && c.size > 0
    ensures LogOk(c, logs[l]) && Extends(logs[k], logs[l])
    decreases l
  {
    if l == 0 {
    } else {
      LogRunOk(c, logs, if k < l then k else l - 1, l - 1);
      LogStepOk(c, logs[l - 1], logs[l]);
    }
  }

  ghost predicate IsLogRun(c: Config, logs: seq<Log>) {
    logs != [] && LogInit(c, logs[0]) && forall k :: 0 <= k < |logs| - 1 ==> LogNext(c, logs[k], logs[k + 1])
  }

  // ---- every step of the protocol is a step of the log, or none ----

  lemma SameSeen(s: State, s': State)
    requires |s'.consumers| == |s.consumers|
    requires forall i :: 0 <= i < |s.consumers| ==> s'.consumers[i].seen == s.consumers[i].seen
    requires s'.log == s.log && s'.published == s.published && s'.cursors == s.cursors
    ensures Abstraction(s') == Abstraction(s)
  {
    assert Abstraction(s').delivered == Abstraction(s).delivered;
  }

  lemma ExchangeRefines(c: Config, s: State, t: Step)
    requires Inv(c, s) && t.Exchange? && Enabled(c, s, t)
    ensures LogNext(c, Abstraction(s), Abstraction(Next(c, s, t)))
  {
    var s' := Next(c, s, t);
    StepKeeps(c, s, t);
    assert ProducerOk(c, s.producers[t.p], s.cursors, s.claimed);
    if s'.producers[t.p].pc.Writing? {
      assert Reserve(c, Abstraction(s), Abstraction(s')) by {
        forall i: nat | i < |s.cursors|
          ensures |s'.log| - 1 <= s.cursors[i] + c.size
        {
          NoLapping(c, s'.cursors, s'.published, s'.claimed, i);
        }
      }
    } else {
      SameSeen(s, s');
    }
  }

  lemma PublishRefines(c: Config, s: State, t: Step)
    requires Inv(c, s) && (t.FlipBits? || t.StoreCursor?) && Enabled(c, s, t)
    ensures LogNext(c, Abstraction(s), Abstraction(Next(c, s, t)))
  {
    var pc := s.producers[t.p].pc;
    assert ProducerOk(c, s.producers[t.p], s.cursors, s.claimed);
    var e := if t.FlipBits? then ChunkEnd(c.size, pc.next, pc.upper) else pc.upper;
    assert Commit(Abstraction(s), Abstraction(Next(c, s, t)), pc.next, e) by {
      forall q | pc.next <= q <= e
        ensures !s.published[q]
      {
        assert Owns(pc, q);
      }
    }
  }

  lemma HandleRefines(c: Config, s: State, t: Step)
    requires Inv(c, s) && t.Handle? && Enabled(c, s, t)
    ensures LogNext(c, Abstraction(s), Abstraction(Next(c, s, t)))
  {
    var i := t.i;
    var me := s.consumers[i];
    assert ConsumerOk(c, i, me.pc, s.cursors, s.published);
    assert SeenOk(me.seen, NextOf(me.pc, s.cursors[i]), c.managed[i], s.log);
    ReadsTheLog(c, s, i);
    var call := Call(me.pc.next, s.log[me.pc.next], me.pc.next == me.pc.available);
    assert Abstraction(Next(c, s, t)).delivered == Abstraction(s).delivered[i := me.seen + [call]];
    assert Deliver(c, Abstraction(s), Abstraction(Next(c, s, t)), i, call);
  }

  lemma AdvanceRefines(c: Config, s: State, t: Step)
    requires Inv(c, s) && t.Advance? && Enabled(c, s, t)
    ensures LogNext(c, Abstraction(s), Abstraction(Next(c, s, t)))
  {
    var i := t.i;
    var me := s.consumers[i];
    assert ConsumerOk(c, i, me.pc, s.cursors, s.published);
    assert Granted(c, i, s.cursors, s.published, s.cursors[i]);
    assert SeenOk(me.seen, NextOf(me.pc, s.cursors[i]), c.managed[i], s.log);
    forall q | s.cursors[i] < q <= me.pc.available
      ensures Deliverable(c, Abstraction(s), i, q)
    {
    }
    assert Abstraction(Next(c, s, t)).delivered == Abstraction(s).delivered;
    assert Pass(c, Abstraction(s), Abstraction(Next(c, s, t)), i, me.pc.available);
  }

  lemma ProducerStepRefines(c: Config, s: State, t: Step)
    requires Inv(c, s) && IsProducerStep(t) && Enabled(c, s, t)
    ensures LogNext(c, Abstraction(s), Abstraction(Next(c, s, t)))
  {
    if t.Exchange? {
      ExchangeRefines(c, s, t);
    } else if t.Write? {
      assert Owns(s.producers[t.p].pc, t.at);
      assert Fill(Abstraction(s), Abstraction(Next(c, s, t)), t.at, t.event);
    } else if t.FlipBits? || t.StoreCursor? {
      PublishRefines(c, s, t);
    } else {
      SameSeen(s, ProducerNext(c, s, t));
    }
  }

  lemma ConsumerStepRefines(c: Config, s: State, t: Step)
    requires Inv(c, s) && !IsProducerStep(t) && Enabled(c, s, t)
    ensures LogNext(c, Abstraction(s), Abstraction(Next(c, s, t)))
  {
    if t.Handle? {
      HandleRefines(c, s, t);
    } else if t.Advance? {
      AdvanceRefines(c, s, t);
    } else {
      SameSeen(s, ConsumerNext(c, s, t));
    }
  }

  /** Every step of the protocol is a step of the log. */
  lemma StepRefines(c: Config, s: State, t: Step)
    requires Inv(c, s) && Enabled(c, s, t)
    ensures LogNext(c, Abstraction(s), Abstraction(Next(c, s, t)))
  {
    if IsProducerStep(t) {
      ProducerStepRefines(c, s, t);
    } else {
      ConsumerStepRefines(c, s, t);
    }
  }

  /** The log has what is claimed, published, passed and seen in a state of the protocol. */
  ghost predicate Represents(a: Log, s: State) {
    && a.entries == s.log && a.committed == s.published && a.offsets == s.cursors
    && |a.delivered| == |s.consumers| && forall i :: 0 <= i < |s.consumers| ==> a.delivered[i] == s.consumers[i].seen
  }

  /** Every run of the protocol, seen through the abstraction, is a run of the log. */
  lemma ProtocolRefinesLog(c: Config, states: seq<State>, steps: seq<Step>) returns (logs: seq<Log>)
    requires ValidConfig(c) && IsRun(c, states, steps) && Init(c, states[0])
    ensures IsLogRun(c, logs) && |logs| == |states|
    ensures forall k :: 0 <= k < |states| ==> Represents(logs[k], states[k])
  {
    logs := seq(|states|, k requires 0 <= k < |states| => Abstraction(states[k]));
    InitHolds(c, states[0]);
    assert Abstraction(states[0]).delivered == seq(c.Consumers(), _ => []);
    forall k | 0 <= k < |steps|
      ensures LogNext(c, Abstraction(states[k]), Abstraction(states[k + 1]))
    {
      RunHolds(c, states, steps, k);
      assert IsStep(c, states, steps, k);
      StepRefines(c, states[k], steps[k]);
    }
  }
}
