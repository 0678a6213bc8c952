/** What consumers are granted in the course of a run: batches of handlers and guards of pollers, on any
    dependency, while everybody else goes on. */
module Grants {
  import opened Bits
  import opened Indexing
  import opened Topology
  import opened Protocol
  import opened Invariant
  import opened Safety
  import opened Completion
  import P = Pollers

  /** The limit of the last poll of consumer `i` in the first `k` steps. */
  function Asked(steps: seq<Step>, i: nat, k: nat): Limit
    requires k <= |steps|
  {
    if k == 0 then Unlimited
    else if steps[k - 1].Poll? && steps[k - 1].i == i then steps[k - 1].limit
    else Asked(steps, i, k - 1)
  }

  /** The end of what a consumer has been granted. */
  function EndOf(pc: ConsumerPc, cursor: Sequence): Sequence {
    if pc.Reading? then pc.available else cursor
  }

  /** Step `k` grants something to consumer `i`. */
  predicate IsGrant(states: seq<State>, steps: seq<Step>, i: nat, k: nat)
    requires k < |steps| && |states| == |steps| + 1
  {
    && steps[k] == Settle(i)
    && i < |states[k].consumers| && states[k].consumers[i].pc.Found?
    && i < |states[k + 1].consumers| && states[k + 1].consumers[i].pc.Reading?
  }

  /** The grant of step `k`, with the limit that was asked for and what the barrier had answered. */
  function GrantAt(states: seq<State>, steps: seq<Step>, i: nat, k: nat): P.Grant
    requires k < |steps| && |states| == |steps| + 1 && IsGrant(states, steps, i, k)
  {
    var found := states[k].consumers[i].pc.available;
    var pc := states[k + 1].consumers[i].pc;
    var limit := match Asked(steps, i, k)
      case AtMost(n) => n
      case Unlimited => if found < pc.next then 0 else found - pc.next + 1;
    P.Grant(pc.next, pc.available, limit, found)
  }

  function GrantsOf(states: seq<State>, steps: seq<Step>, i: nat, k: nat): seq<P.Grant>
    requires k <= |steps| && |states| == |steps| + 1
  {
    if k == 0 then []
    else
      var before := GrantsOf(states, steps, i, k - 1);
      if IsGrant(states, steps, i, k - 1) then before + [GrantAt(states, steps, i, k - 1)] else before
  }

  /** A request in progress has the limit that was asked for. */
  predicate Carries(pc: ConsumerPc, limit: Limit) {
    match pc
    case Ready(l) => l == limit
    case Folding(l, _, _) => l == limit
    case Scanning(l, _) => l == limit
    case Found(l, _) => l == limit
    case _ => true
  }

  lemma CarriesOn(c: Config, s: State, t: Step, i: nat, limit: Limit)
    requires !IsProducerStep(t) && ConsumerEnabled(c, s, t) && i < |s.consumers|
    requires Carries(s.consumers[i].pc, limit) && (c.managed[i] ==> limit.Unlimited?)
    requires s.consumers[i].pc.Doubting? ==> c.managed[i]
    ensures Carries(ConsumerNext(c, s, t).consumers[i].pc, if t.Poll? && t.i == i then t.limit else limit)
    ensures c.managed[i] ==> !(t.Poll? && t.i == i)
  {
  }

  /** No step but the start of a batch or guard changes what has been granted. */
  lemma EndStays(c: Config, s: State, t: Step, i: nat)
    requires Inv(c, s) && !IsProducerStep(t) && ConsumerEnabled(c, s, t) && i < |s.consumers|
    requires t != Settle(i)
    ensures var s' := ConsumerNext(c, s, t);
      EndOf(s'.consumers[i].pc, s'.cursors[i]) == EndOf(s.consumers[i].pc, s.cursors[i])
  {
  }

  /** A grant starts right after the cursor and takes as much as there is, up to the limit. */
  lemma SettleGrants(c: Config, s: State, i: nat)
    requires ConsumerEnabled(c, s, Settle(i))
    ensures var s' := ConsumerNext(c, s, Settle(i));
      var (pc, pc') := (s.consumers[i].pc, s'.consumers[i].pc);
      && s'.cursors == s.cursors
      && (pc'.Reading? <==> s.cursors[i] < pc.available)
      && (pc'.Reading? ==>
            && pc'.next == s.cursors[i] + 1 <= pc.available
            && pc'.available ==
               P.Min(pc.available, if pc.limit.AtMost? then s.cursors[i] + pc.limit.n else pc.available))
  {
  }

  /** In any run, the grants of a consumer up to any moment. */
  ghost predicate Tiled(c: Config, states: seq<State>, steps: seq<Step>, i: nat, k: nat) {
    && k <= |steps| && |states| == |steps| + 1
    && i < |states[k].consumers| && i < |states[k].cursors| && i < |c.managed|
    && P.Tiles(GrantsOf(states, steps, i, k))
    && P.Reach(GrantsOf(states, steps, i, k)) == EndOf(states[k].consumers[i].pc, states[k].cursors[i])
    && Carries(states[k].consumers[i].pc, Asked(steps, i, k))
    && (c.managed[i] ==> Asked(steps, i, k).Unlimited?)
  }

  /** A consumer that has its answer continues its grants, or not if nothing was found. */
  lemma GrantContinues(pc: ConsumerPc, pc': ConsumerPc, cursor: Sequence, grants: seq<P.Grant>, g: P.Grant)
    requires P.Tiles(grants) && P.Reach(grants) == EndOf(pc, cursor) && pc.Found? && pc'.Reading?
    requires g.from == pc'.next == cursor + 1 <= pc.available == g.dependency
    requires g.to == pc'.available == P.Min(pc.available, cursor + g.limit)
    ensures P.Tiles(grants + [g]) && P.Reach(grants + [g]) == EndOf(pc', cursor)
  {
    P.OneMoreGrant(grants, g.to, g.limit, g.dependency);
  }

  lemma TiledNext(c: Config, states: seq<State>, steps: seq<Step>, i: nat, k: nat)
    requires ValidConfig(c) && IsRun(c, states, steps) && Init(c, states[0]) && k < |steps|
    requires Tiled(c, states, steps, i, k)
    ensures Tiled(c, states, steps, i, k + 1)
  {
    InitHolds(c, states[0]);
    RunHolds(c, states, steps, k);
    assert IsStep(c, states, steps, k);
    var s, t := states[k], steps[k];
    if !IsProducerStep(t) {
      assert ConsumerOk(c, i, s.consumers[i].pc, s.cursors, s.published);
      CarriesOn(c, s, t, i, Asked(steps, i, k));
      if t != Settle(i) {
        EndStays(c, s, t, i);
      } else {
        SettleGrants(c, s, i);
        if IsGrant(states, steps, i, k) {
          GrantContinues(
            s.consumers[i].pc, states[k + 1].consumers[i].pc, s.cursors[i],
            GrantsOf(states, steps, i, k), GrantAt(states, steps, i, k));
        }
      }
    }
  }

  lemma {:induction false} RunTiled(c: Config, states: seq<State>, steps: seq<Step>, i: nat, k: nat)
    requires ValidConfig(c) && IsRun(c, states, steps) && Init(c, states[0]) && i < c.Consumers() && k <= |steps|
    ensures Tiled(c, states, steps, i, k)
  {
    if k == 0 {
    } else {
      RunTiled(c, states, steps, i, k - 1);
      TiledNext(c, states, steps, i, k - 1);
    }
  }

  /** In every run, whatever the limits and however the guards are used, the grants of a consumer cover
      the sequences up to the end of the last one, every sequence exactly once. Each grant takes as
      much as its limit and the answer of the barrier allow, and all that is granted is published and has
      been passed by the group before. */
  lemma GrantsTile(c: Config, states: seq<State>, steps: seq<Step>, i: nat, k: nat, q: Sequence)
    requires ValidConfig(c) && IsRun(c, states, steps) && Init(c, states[0]) && i < c.Consumers() && k <= |steps|
    ensures i < |states[k].consumers| && i < |states[k].cursors|
    ensures var (grants, end) := (GrantsOf(states, steps, i, k), EndOf(states[k].consumers[i].pc, states[k].cursors[i]));
      && (0 <= q <= end <==> exists m :: P.Holds(grants, m, q))
      && (forall m, n :: P.Holds(grants, m, q) && P.Holds(grants, n, q) ==> m == n)
      && (forall m :: 0 <= m < |grants| ==>
            var g := grants[m];
            && g.to <= g.dependency && g.to - g.from + 1 <= g.limit
            && (g.to == g.dependency || g.to - g.from + 1 == g.limit))
      && Granted(c, i, states[k].cursors, states[k].published, end)
  {
    RunTiled(c, states, steps, i, k);
    InitHolds(c, states[0]);
    RunHolds(c, states, steps, k);
    var s := states[k];
    assert ConsumerOk(c, i, s.consumers[i].pc, s.cursors, s.published);
    assert Granted(c, i, s.cursors, s.published, s.cursors[i]);
    var grants := GrantsOf(states, steps, i, k);
    P.GrantsPartition(grants, q);
    forall m: nat | m < |grants| {
      P.ReachGrows(grants, m);
    }
  }

  // ---- a limit of zero ----

  /** A poll with limit zero gives an empty guard exactly if something is available, and otherwise
      `NoEvents`. */
  lemma ZeroLimit(c: Config, s: State, i: nat)
    requires ConsumerEnabled(c, s, Settle(i)) && !c.managed[i] && s.consumers[i].pc.limit == AtMost(0)
    ensures var (pc, pc') := (s.consumers[i].pc, ConsumerNext(c, s, Settle(i)).consumers[i].pc);
      && (pc' == Resting(NoEvents) <==> pc.available <= s.cursors[i])
      && (pc' == Reading(s.cursors[i] + 1, s.cursors[i]) <==> s.cursors[i] < pc.available)
  {
  }

  /** So a poll with limit zero can find no events: on a new disruptor with one poller it does. */
  lemma ZeroLimitFindsNothing() returns (c: Config, start: State, steps: seq<Step>)
    ensures ValidConfig(c) && Init(c, start) && Legal(c, start, steps) && steps != []
    ensures steps[0] == Poll(0, AtMost(0))
    ensures var end := After(c, start, steps); |end.consumers| == 1 && end.consumers[0].pc == Resting(NoEvents)
  {
    var pollers := Wiring([OnProducer], [0]);
    c := Config(Uni, 1, pollers, [false]);
    assert Pow2(0) == 1;
    start := State(
      NONE, NONE, [], [0], [NONE], NONE, 1, [Producer(Idle(NoCall), 0)],
      [Consumer(Resting(NotPolled), [])], [], [], []);
    steps := [Poll(0, AtMost(0)), Look(0), Settle(0)];
  }
}
