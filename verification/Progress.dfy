/** Nothing gets stuck: as long as there is unfinished work, some actor has a step that brings the end
    of that work nearer. */
module Progress {
  import opened Sums
  import opened Bits
  import opened Indexing
  import opened Topology
  import opened Protocol
  import opened Invariant
  import opened ProducerSteps
  import opened ConsumerSteps
  import opened Safety

  // ---- how much is left ----

  function Positive(n: int): nat {
    if n > 0 then n else 0
  }

  predicate Requests(pc: ProducerPc) {
    pc.Check? || pc.Gate? || pc.Claim?
  }

  /** The steps that a producer still needs if nobody interferes. A request whose `current` is stale
      needs a second attempt. */
  function ProducerWork(gate: nat, claimed: Sequence, pc: ProducerPc): nat {
    var again := if Requests(pc) && pc.current != claimed then gate + 3 else 0;
    match pc
    case Check(n, _) => again + 5 + n + gate
    case Gate(n, _, i, _) => again + 4 + n + Positive(gate - i)
    case Claim(n, _) => again + 3 + n
    case Writing(lower, upper) => 2 + Positive(upper + 1 - lower)
    case Publishing(next, upper) => 1 + Positive(upper + 1 - next)
    case Closing => 2
    case ClosingAt(_) => 1
    case _ => 0
  }

  predicate AtMostNothing(limit: Limit) {
    limit.AtMost? && limit.n == 0
  }

  /** What the consumer is doing now will move its cursor, if its dependency is ahead. */
  predicate Fresh(cursor: Sequence, pc: ConsumerPc) {
    match pc
    case Reading(_, available) => available > cursor
    case Found(limit, available) => available > cursor && !AtMostNothing(limit)
    case Folding(limit, _, low) => (low.Top? || low.value > cursor) && !AtMostNothing(limit)
    case Scanning(limit, scan) =>
      (scan.highest > cursor + 1 || Bit(scan.availability, 0) == scan.flag) && !AtMostNothing(limit)
    case Ready(limit) => !AtMostNothing(limit)
    case _ => false
  }

  function GroupSize(c: Config, i: nat): nat
    requires i < c.Consumers()
  {
    if c.wiring.dependencies[i].OnGroup? then |c.wiring.dependencies[i].group| else 0
  }

  /** The steps that a consumer needs at most before it moves its cursor. */
  function ConsumerWork(c: Config, i: nat, cursor: Sequence, pc: ConsumerPc): nat
    requires i < c.Consumers()
  {
    var round := 2 * c.size + GroupSize(c, i) + 6;
    var again := if Fresh(cursor, pc) then 0 else round + 2;
    match pc
    case Resting(_) => round + 1
    case Ready(_) => again + round
    case Folding(_, k, _) => again + c.size + 4 + Positive(GroupSize(c, i) - k)
    case Scanning(_, scan) => again + c.size + 4 + Positive(cursor + 1 + c.size - scan.highest)
    case Found(_, _) => again + c.size + 3
    case Doubting => again + 1
    case Reading(next, available) => again + 1 + Positive(available + 1 - next)
    case Exited => 0
  }

  // ---- producers can always finish ----

  lemma CanRequest(c: Config, s: State, p: nat) returns (t: Step)
    requires Inv(c, s) && p < |s.producers| && Requests(s.producers[p].pc)
    ensures IsProducerStep(t) && t.p == p && ProducerEnabled(c, s, t)
    ensures t.CheckClear? || t.LoadGate? || t.Decide? || t.Exchange?
    ensures var s' := ProducerNext(c, s, t);
      && s'.producers == s.producers[p := s'.producers[p]]
      && s'.cursors == s.cursors && s'.consumers == s.consumers
      && (!Requests(s'.producers[p].pc)
          || (s'.claimed == s.claimed
              && ProducerWork(|c.wiring.gate|, s'.claimed, s'.producers[p].pc)
               < ProducerWork(|c.wiring.gate|, s.claimed, s.producers[p].pc)))
  {
    var pc := s.producers[p].pc;
    assert ProducerOk(c, s.producers[p], s.cursors, s.claimed);
    match pc
    case Check(_, _) => t := CheckClear(p);
    case Gate(_, _, i, _) =>
      if i < |c.wiring.gate| {
        assert c.wiring.gate[i] in c.wiring.gate;
        t := LoadGate(p);
      } else {
        t := Decide(p);
      }
    case Claim(_, _) => t := Exchange(p);
  }

  lemma CanFinish(c: Config, s: State, p: nat) returns (t: Step)
    requires Inv(c, s) && p < |s.producers| && !Requests(s.producers[p].pc)
    requires ProducerWork(|c.wiring.gate|, s.claimed, s.producers[p].pc) > 0
    ensures IsProducerStep(t) && t.p == p && ProducerEnabled(c, s, t)
    ensures t.Flush? || t.FlipBits? || t.StoreCursor? || t.Return? || t.LoadEnd? || t.StoreEnd?
    ensures var s' := ProducerNext(c, s, t);
      && s'.producers == s.producers[p := s'.producers[p]]
      && s'.cursors == s.cursors && s'.consumers == s.consumers && s'.claimed == s.claimed
      && !Requests(s'.producers[p].pc)
      && ProducerWork(|c.wiring.gate|, s'.claimed, s'.producers[p].pc)
       < ProducerWork(|c.wiring.gate|, s.claimed, s.producers[p].pc)
  {
    var pc := s.producers[p].pc;
    assert ProducerOk(c, s.producers[p], s.cursors, s.claimed);
    match pc
    case Writing(_, _) => t := Flush(p);
    case Publishing(next, upper) =>
      if c.mode.Uni? {
        t := StoreCursor(p);
      } else if next <= upper {
        t := FlipBits(p);
      } else {
        t := Return(p);
      }
    case Closing => t := LoadEnd(p);
    case ClosingAt(_) => t := StoreEnd(p);
  }

  // ---- a consumer can move if its dependency is ahead ----

  /** The consumer is behind, and what it waits for is ahead of it. */
  ghost predicate Ahead(c: Config, s: State, i: nat)
    requires i < c.Consumers() && i < |s.cursors|
  {
    && s.cursors[i] < s.claimed
    && (c.wiring.dependencies[i].OnProducer? ==> PublishedIn(s, s.cursors[i] + 1))
    && (c.wiring.dependencies[i].OnGroup? ==>
          forall j: nat :: j < |s.cursors| && j in c.wiring.dependencies[i].group ==> s.cursors[i] < s.cursors[j])
  }

  /** A step of consumer `i` alone that moves its cursor or lessens its work. */
  ghost predicate Moves(c: Config, s: State, i: nat, t: Step)
    requires i < c.Consumers() && i < |s.cursors|
  {
    && !IsProducerStep(t) && t.i == i && ConsumerEnabled(c, s, t)
    && var s' := ConsumerNext(c, s, t);
    && s'.consumers == s.consumers[i := s'.consumers[i]]
    && s'.cursors == s.cursors[i := s'.cursors[i]]
    && (s.cursors[i] < s'.cursors[i]
        || (s'.cursors[i] == s.cursors[i]
            && ConsumerWork(c, i, s.cursors[i], s'.consumers[i].pc) < ConsumerWork(c, i, s.cursors[i], s.consumers[i].pc)))
  }

  lemma CanLook(c: Config, s: State, i: nat)
    requires Inv(c, s) && i < |s.cursors| && Ahead(c, s, i) && s.consumers[i].pc.Ready?
    ensures Moves(c, s, i, Look(i))
  {
    if c.mode.Multi? && c.wiring.dependencies[i].OnProducer? {
      var h := s.cursors[i] + 1;
      BitTellsPublication(c, s, i, h);
      BitOfShifted(s.words[WordOf(c.size, h)], BitOf(c.size, h), 0);
    }
  }

  lemma CanFold(c: Config, s: State, i: nat)
    requires Inv(c, s) && i < |s.cursors| && Ahead(c, s, i) && s.consumers[i].pc.Folding?
    ensures Moves(c, s, i, LoadGroup(i))
  {
    var pc := s.consumers[i].pc;
    assert ConsumerOk(c, i, pc, s.cursors, s.published);
    var group := c.wiring.dependencies[i].group;
    if pc.k < |group| {
      assert group[pc.k] in group;
    }
  }

  lemma CanTest(c: Config, s: State, i: nat)
    requires Inv(c, s) && i < |s.cursors| && Ahead(c, s, i) && s.consumers[i].pc.Scanning?
    ensures Moves(c, s, i, Test(i))
  {
    var pc := s.consumers[i].pc;
    assert ConsumerOk(c, i, pc, s.cursors, s.published);
    if Bit(pc.scan.availability, 0) == pc.scan.flag {
      TestedBit(c.size, pc.scan, s.cursors[i], s.published);
    }
  }

  lemma CanSettle(c: Config, s: State, i: nat)
    requires Inv(c, s) && i < |s.cursors| && Ahead(c, s, i) && s.consumers[i].pc.Found?
    ensures Moves(c, s, i, Settle(i))
  {
    assert ConsumerOk(c, i, s.consumers[i].pc, s.cursors, s.published);
    NoLapping(c, s.cursors, s.published, s.claimed, i);
  }

  lemma CanRead(c: Config, s: State, i: nat) returns (t: Step)
    requires Inv(c, s) && i < |s.cursors| && Ahead(c, s, i) && s.consumers[i].pc.Reading?
    ensures Moves(c, s, i, t)
  {
    var pc := s.consumers[i].pc;
    assert ConsumerOk(c, i, pc, s.cursors, s.published);
    t := if pc.next <= pc.available then Handle(i) else Advance(i);
  }

  /** If its dependency is ahead, a consumer has a step that moves its cursor, or after which fewer steps
      are left until it does. */
  lemma CanMove(c: Config, s: State, i: nat) returns (t: Step)
    requires Inv(c, s) && i < |s.cursors| && Ahead(c, s, i)
    ensures Moves(c, s, i, t)
  {
    assert ConsumerOk(c, i, s.consumers[i].pc, s.cursors, s.published);
    match s.consumers[i].pc
    case Resting(_) => t := Poll(i, Unlimited);
    case Ready(_) =>
      t := Look(i);
      CanLook(c, s, i);
    case Folding(_, _, _) =>
      t := LoadGroup(i);
      CanFold(c, s, i);
    case Scanning(_, _) =>
      t := Test(i);
      CanTest(c, s, i);
    case Found(_, _) =>
      t := Settle(i);
      CanSettle(c, s, i);
    case Doubting => t := CheckEnd(i);
    case Reading(_, _) => t := CanRead(c, s, i);
    case Exited => assert false;
  }

  /** If some consumer is behind what is published, then it or some consumer that precedes it, no further
      than it, has its dependency ahead. */
  lemma {:induction false} SomebodyCanMove(c: Config, s: State, i: nat) returns (j: nat)
    requires Inv(c, s) && i < |s.cursors| && s.cursors[i] < s.claimed
    requires PublishedIn(s, s.cursors[i] + 1)
    ensures j <= i && Ahead(c, s, j) && s.cursors[j] <= s.cursors[i] && (j == i || Precedes(c.wiring, j, i))
    decreases i
  {
    assert Granted(c, i, s.cursors, s.published, s.cursors[i]);
    if Ahead(c, s, i) {
      j := i;
    } else {
      var k: nat :| k < |s.cursors| && k in c.wiring.dependencies[i].group && s.cursors[k] <= s.cursors[i];
      assert Follows(c.wiring, k, i);
      assert Granted(c, i, s.cursors, s.published, s.cursors[i]);
      j := SomebodyCanMove(c, s, k);
      assert j != k ==> Precedes(c.wiring, j, k);
    }
  }

  // ---- the measure ----

  function RequestsOf(s: State): seq<nat> {
    seq(|s.producers|, p requires 0 <= p < |s.producers| => One(Requests(s.producers[p].pc)))
  }

  function WorkOf(c: Config, s: State): seq<nat> {
    seq(|s.producers|, p requires 0 <= p < |s.producers| =>
      ProducerWork(|c.wiring.gate|, s.claimed, s.producers[p].pc))
  }

  function LagOf(s: State): seq<nat> {
    seq(|s.cursors|, i requires 0 <= i < |s.cursors| => Positive(s.claimed - s.cursors[i]))
  }

  function HandlingOf(c: Config, s: State): seq<nat>
    requires |s.consumers| == |s.cursors| == c.Consumers()
  {
    seq(|s.consumers|, i requires 0 <= i < |s.consumers| => ConsumerWork(c, i, s.cursors[i], s.consumers[i].pc))
  }

  /** Less is left to do: fewer open requests; or as many, and less work of producers; or the same, and
      less lag of consumers; or the same, and less work of consumers. */
  ghost predicate LessLeft(c: Config, s': State, s: State)
    requires |s.consumers| == |s.cursors| == c.Consumers()
    requires |s'.consumers| == |s'.cursors| == c.Consumers()
  {
    var r', w', l', h' := Sum(RequestsOf(s')), Sum(WorkOf(c, s')), Sum(LagOf(s')), Sum(HandlingOf(c, s'));
    var r, w, l, h := Sum(RequestsOf(s)), Sum(WorkOf(c, s)), Sum(LagOf(s)), Sum(HandlingOf(c, s));
    r' < r || (r' == r && (w' < w || (w' == w && (l' < l || (l' == l && h' < h)))))
  }

  // ---- actors that stand still ----

  /** Actors that take no step any more: pollers that nobody polls, or that have been dropped, handlers
      and producers whose closures do not return, calls that are left in the middle. */
  datatype Still = Still(producers: set<nat>, consumers: set<nat>)

  predicate LeavesAlone(still: Still, t: Step) {
    if IsProducerStep(t) then t.p !in still.producers else t.i !in still.consumers
  }

  /** No producer that stands still keeps anything up to `target` from being published. */
  ghost predicate Publishable(s: State, still: Still, target: Sequence) {
    forall q :: 0 <= q <= target && q < |s.owner| && q < |s.published| ==>
      s.published[q] || s.owner[q] !in still.producers
  }

  /** Nobody who stands still keeps consumer `i` from coming to `target`. */
  ghost predicate WayIsFree(c: Config, s: State, still: Still, i: nat, target: Sequence) {
    Unhindered(c.wiring, s.cursors, still.consumers, i, target) && Publishable(s, still, target)
  }

  /** Some call of a producer, some drop of the last handle, or the way of some consumer to the claimed
      sequences is not finished, and could be without those who stand still. */
  ghost predicate Unfinished(c: Config, s: State, still: Still) {
    || (exists p :: 0 <= p < |s.producers| && p !in still.producers
          && ProducerWork(|c.wiring.gate|, s.claimed, s.producers[p].pc) > 0)
    || (exists i: nat :: i < |s.cursors| && s.cursors[i] < s.claimed && WayIsFree(c, s, still, i, s.cursors[i] + 1))
  }

  lemma ProducerStepLessens(c: Config, s: State, p: nat, t: Step)
    requires Inv(c, s) && p < |s.producers| && IsProducerStep(t) && t.p == p && ProducerEnabled(c, s, t)
    requires var s' := ProducerNext(c, s, t);
      && s'.producers == s.producers[p := s'.producers[p]]
      && s'.cursors == s.cursors && s'.consumers == s.consumers
      && ((Requests(s.producers[p].pc) && !Requests(s'.producers[p].pc))
          || (Requests(s.producers[p].pc) == Requests(s'.producers[p].pc)
              && s'.claimed == s.claimed
              && ProducerWork(|c.wiring.gate|, s'.claimed, s'.producers[p].pc)
               < ProducerWork(|c.wiring.gate|, s.claimed, s.producers[p].pc)))
    ensures LessLeft(c, ProducerNext(c, s, t), s)
  {
    var s' := ProducerNext(c, s, t);
    SumAfter(RequestsOf(s), p, One(Requests(s'.producers[p].pc)));
    assert RequestsOf(s') == RequestsOf(s)[p := One(Requests(s'.producers[p].pc))];
    if s'.claimed == s.claimed {
      var w := ProducerWork(|c.wiring.gate|, s.claimed, s'.producers[p].pc);
      SumAfter(WorkOf(c, s), p, w);
      assert WorkOf(c, s') == WorkOf(c, s)[p := w];
    }
  }

  lemma ConsumerChangeLessens(c: Config, s: State, s': State, i: nat)
    requires |s.consumers| == |s.cursors| == c.Consumers() && i < |s.cursors| && s.cursors[i] < s.claimed
    requires |s'.consumers| == |s.consumers| && |s'.cursors| == |s.cursors|
    requires s'.producers == s.producers && s'.claimed == s.claimed
    requires s'.consumers == s.consumers[i := s'.consumers[i]]
    requires s'.cursors == s.cursors[i := s'.cursors[i]]
    requires s.cursors[i] < s'.cursors[i]
      || (s'.cursors[i] == s.cursors[i]
          && ConsumerWork(c, i, s.cursors[i], s'.consumers[i].pc) < ConsumerWork(c, i, s.cursors[i], s.consumers[i].pc))
    ensures LessLeft(c, s', s)
  {
    assert RequestsOf(s') == RequestsOf(s) && WorkOf(c, s') == WorkOf(c, s);
    var l := Positive(s.claimed - s'.cursors[i]);
    SumAfter(LagOf(s), i, l);
    assert LagOf(s') == LagOf(s)[i := l];
    if s'.cursors[i] == s.cursors[i] {
      var h := ConsumerWork(c, i, s.cursors[i], s'.consumers[i].pc);
      SumAfter(HandlingOf(c, s), i, h);
      assert HandlingOf(c, s') == HandlingOf(c, s)[i := h];
    }
  }

  /** No other producer has anything to do. */
  ghost predicate ProducersAreDone(c: Config, s: State, still: Still) {
    forall p :: 0 <= p < |s.producers| && p !in still.producers ==>
      ProducerWork(|c.wiring.gate|, s.claimed, s.producers[p].pc) == 0
  }

  lemma ProducerIsNotStuck(c: Config, s: State, p: nat) returns (t: Step)
    requires Inv(c, s) && p < |s.producers| && ProducerWork(|c.wiring.gate|, s.claimed, s.producers[p].pc) > 0
    ensures IsProducerStep(t) && t.p == p && ProducerEnabled(c, s, t)
    ensures Inv(c, ProducerNext(c, s, t)) && LessLeft(c, ProducerNext(c, s, t), s)
    ensures !t.Begin? && !t.Write? && !t.Clone? && !t.Drop? && !t.Join?
  {
    if Requests(s.producers[p].pc) {
      t := CanRequest(c, s, p);
    } else {
      t := CanFinish(c, s, p);
    }
    ProducerStepLessens(c, s, p, t);
    ProducerStepKeeps(c, s, t);
  }

  lemma ConsumersAreNotStuck(c: Config, s: State, still: Still, i: nat) returns (t: Step)
    requires Inv(c, s) && ProducersAreDone(c, s, still)
    requires i < |s.cursors| && s.cursors[i] < s.claimed && WayIsFree(c, s, still, i, s.cursors[i] + 1)
    ensures !IsProducerStep(t) && ConsumerEnabled(c, s, t) && LeavesAlone(still, t)
    ensures Inv(c, ConsumerNext(c, s, t)) && LessLeft(c, ConsumerNext(c, s, t), s)
  {
    assert Granted(c, i, s.cursors, s.published, s.cursors[i]);
    var p := s.owner[s.cursors[i] + 1];
    assert p !in still.producers ==> !Owns(s.producers[p].pc, s.cursors[i] + 1);
    var j := SomebodyCanMove(c, s, i);
    t := CanMove(c, s, j);
    ConsumerChangeLessens(c, s, ConsumerNext(c, s, t), j);
    ConsumerStepKeeps(c, s, t);
  }

  /** Whoever stands still: as long as something that does not need them is unfinished, some other actor
      has a step after which less is left. */
  lemma NeverStuck(c: Config, s: State, still: Still) returns (t: Step)
    requires Inv(c, s) && Unfinished(c, s, still)
    ensures Enabled(c, s, t) && LeavesAlone(still, t) && Inv(c, Next(c, s, t)) && LessLeft(c, Next(c, s, t), s)
    ensures !t.Begin? && !t.Write? && !t.Clone? && !t.Drop? && !t.Join?
  {
    if p: nat :| p < |s.producers| && p !in still.producers
                 && ProducerWork(|c.wiring.gate|, s.claimed, s.producers[p].pc) > 0 {
      t := ProducerIsNotStuck(c, s, p);
    } else {
      assert ProducersAreDone(c, s, still);
      var i: nat :| i < |s.cursors| && s.cursors[i] < s.claimed && WayIsFree(c, s, still, i, s.cursors[i] + 1);
      t := ConsumersAreNotStuck(c, s, still, i);
    }
  }
}
