/** Which requests can come to be granted, and how far producers can come ahead, while some actors take no
    step any more. */
module Requests {
  import opened Indexing
  import opened Protocol
  import opened Invariant
  import opened ProducerSteps
  import opened Safety
  import opened Runs
  import opened Progress
  import opened Completion

  // ---- a request with room for it ----

  /** There is room for `n` more sequences after the claimed ones. */
  ghost predicate HasRoom(c: Config, s: State, n: nat) {
    forall i :: 0 <= i < |s.cursors| ==> s.claimed + n <= s.cursors[i] + c.size
  }

  /** The request has read the true cursor, and the cursors it has read leave room. */
  ghost predicate UpToDate(c: Config, s: State, pc: ProducerPc, n: nat) {
    && Requests(pc) && pc.n == n && pc.current == s.claimed
    && (pc.Gate? && pc.low.Fin? ==> s.claimed + n <= pc.low.value + c.size)
  }

  lemma UpToDateStep(c: Config, s: State, p: nat, n: nat) returns (t: Step)
    requires Inv(c, s) && p < |s.producers| && UpToDate(c, s, s.producers[p].pc, n) && HasRoom(c, s, n)
    ensures IsProducerStep(t) && t.p == p && ProducerEnabled(c, s, t)
    ensures var s' := ProducerNext(c, s, t);
      && p < |s'.producers| && s'.cursors == s.cursors
      && (s'.producers[p].pc == Writing(s.claimed + 1, s.claimed + n)
          || (UpToDate(c, s', s'.producers[p].pc, n) && s'.claimed == s.claimed
              && ProducerWork(|c.wiring.gate|, s'.claimed, s'.producers[p].pc)
               < ProducerWork(|c.wiring.gate|, s.claimed, s.producers[p].pc)))
  {
    t := CanRequest(c, s, p);
  }

  lemma {:induction false} ClaimSucceeds(c: Config, s: State, p: nat, n: nat, still: Still) returns (steps: seq<Step>)
    requires Inv(c, s) && p < |s.producers| && UpToDate(c, s, s.producers[p].pc, n) && HasRoom(c, s, n)
    requires p !in still.producers
    ensures Legal(c, s, steps) && AllLeaveAlone(still, steps)
    ensures var s' := After(c, s, steps);
      && p < |s'.producers| && s'.producers[p].pc == Writing(s.claimed + 1, s.claimed + n)
      && s'.cursors == s.cursors
    decreases ProducerWork(|c.wiring.gate|, s.claimed, s.producers[p].pc)
  {
    var t := UpToDateStep(c, s, p, n);
    var s' := ProducerNext(c, s, t);
    ProducerStepKeeps(c, s, t);
    if s'.producers[p].pc.Writing? {
      Before(c, s, t, []);
      steps := [t] + [];
    } else {
      var rest := ClaimSucceeds(c, s', p, n, still);
      Before(c, s, t, rest);
      steps := [t] + rest;
    }
  }

  /** A call on an idle handle is granted if nobody interferes and there is room. */
  lemma CallSucceeds(c: Config, s: State, p: nat, n: nat, still: Still) returns (steps: seq<Step>)
    requires Inv(c, s) && p < |s.producers| && s.producers[p].pc.Idle? && HasRoom(c, s, n)
    requires p !in still.producers
    ensures Legal(c, s, steps) && AllLeaveAlone(still, steps)
    ensures var s' := After(c, s, steps);
      && p < |s'.producers| && s'.producers[p].pc == Writing(s.claimed + 1, s.claimed + n)
      && s'.cursors == s.cursors
  {
    var t := Begin(p, n);
    ProducerStepKeeps(c, s, t);
    var rest := ClaimSucceeds(c, ProducerNext(c, s, t), p, n, still);
    Before(c, s, t, rest);
    steps := [t] + rest;
  }

  // ---- making room without granting anything to others ----

  /** Everybody who is in the middle of a request stands still. */
  ghost predicate RequestsWait(s: State, still: Still) {
    forall p :: 0 <= p < |s.producers| && Requests(s.producers[p].pc) ==> p in still.producers
  }

  lemma {:induction false} QuietClaimsNothing(c: Config, s: State, still: Still, steps: seq<Step>)
    requires Legal(c, s, steps) && AllQuiet(still, steps) && RequestsWait(s, still)
    ensures After(c, s, steps).claimed == s.claimed
    decreases |steps|
  {
    if steps == [] {
    } else {
      assert Quiet(still, steps[0]);
      QuietClaimsNothing(c, Next(c, s, steps[0]), still, steps[1..]);
    }
  }

  ghost function Waiting(s: State, still: Still): (all: Still)
    ensures still.producers <= all.producers && still.consumers == all.consumers && RequestsWait(s, all)
    ensures forall p :: p in all.producers && p !in still.producers ==> p < |s.producers| && Requests(s.producers[p].pc)
  {
    Still(still.producers + (set p: nat | p < |s.producers| && Requests(s.producers[p].pc)), still.consumers)
  }

  lemma LeftAloneToo(all: Still, still: Still, steps: seq<Step>)
    requires still.producers <= all.producers && still.consumers <= all.consumers && AllLeaveAlone(all, steps)
    ensures AllLeaveAlone(still, steps)
  {
    forall k | 0 <= k < |steps|
      ensures LeavesAlone(still, steps[k])
    {
      assert LeavesAlone(all, steps[k]);
    }
  }

  /** What those in the middle of a request own nothing of can be published without them. */
  lemma PublishableWithoutRequests(s: State, still: Still, target: Sequence)
    requires OwnershipOk(s.producers, s.owner, s.published) && Publishable(s, still, target)
    ensures Publishable(s, Waiting(s, still), target)
  {
    forall q | 0 <= q <= target && q < |s.owner| && q < |s.published|
      ensures s.published[q] || s.owner[q] !in Waiting(s, still).producers
    {
      assert s.published[q] <==> !Owns(s.producers[s.owner[q]].pc, q);
    }
  }

  /** No consumer that stands still is too far behind for `n` more sequences, and no producer that stands
      still keeps the consumers from making room for them. */
  ghost predicate CanMakeRoom(c: Config, s: State, still: Still, n: nat) {
    && n <= c.size
    && (forall i :: i in still.consumers && i < |s.cursors| ==> s.claimed + n <= s.cursors[i] + c.size)
    && Publishable(s, still, s.claimed + n - c.size)
  }

  /** The others finish what they have begun, and leave requests where they are. */
  lemma RoomIsMade(c: Config, s: State, still: Still, n: nat) returns (steps: seq<Step>)
    requires Inv(c, s) && CanMakeRoom(c, s, still, n)
    ensures Legal(c, s, steps) && AllLeaveAlone(still, steps)
    ensures var s' := After(c, s, steps);
      && Inv(c, s') && s'.claimed == s.claimed && HasRoom(c, s', n) && SameHandles(s, s')
      && ProducersAreDone(c, s', Waiting(s, still)) && StoodStill(s, s', Waiting(s, still)) && Later(s, s')
  {
    var all := Waiting(s, still);
    steps := EverythingFinishes(c, s, all);
    QuietLeavesAlone(all, steps);
    LeftAloneToo(all, still, steps);
    LegalIsLater(c, s, steps);
    StillStay(c, s, all, steps);
    QuietClaimsNothing(c, s, all, steps);
    PublishableWithoutRequests(s, still, s.claimed + n - c.size);
    FinishedHandles(c, After(c, s, steps), all);
    FinishedHasRoom(c, s, After(c, s, steps), all, n);
  }

  lemma FinishedHasRoom(c: Config, s: State, s': State, still: Still, n: nat)
    requires Inv(c, s) && Later(s, s') && StoodStill(s, s', still) && !Unfinished(c, s', still)
    requires s'.claimed == s.claimed && CanMakeRoom(c, s, still, n)
    ensures HasRoom(c, s', n)
  {
    var target := s.claimed + n - c.size;
    forall i: nat | i < |s'.cursors|
      ensures target <= s'.cursors[i]
    {
      assert WayIsFree(c, s, still, i, target);
      FreeWayStaysFree(c, s, s', still, i, target);
      FinishedConsumer(c, s', still, i, target);
    }
  }

  // ---- exactly which requests can be granted ----

  predicate Has(s: State, p: nat, n: nat) {
    && p < |s.producers| && s.producers[p].pc.Writing?
    && s.producers[p].pc.upper - s.producers[p].pc.lower + 1 == n
  }

  /** The handle can get `n` slots in some continuation in which those who stand still take no step. */
  ghost predicate CanGet(c: Config, s: State, still: Still, p: nat, n: nat) {
    exists steps :: Legal(c, s, steps) && AllLeaveAlone(still, steps) && Has(After(c, s, steps), p, n)
  }

  /** What the producer owns has been claimed after the first `claimed`. */
  predicate OwnsOnlyLater(pc: ProducerPc, claimed: Sequence) {
    match pc
    case Writing(lower, _) => claimed < lower
    case Publishing(next, _) => claimed < next
    case _ => true
  }

  lemma StillOwnsOnlyLater(c: Config, s: State, t: Step, p: nat, claimed: Sequence)
    requires Inv(c, s) && Enabled(c, s, t) && p < |s.producers| && claimed <= s.claimed
    requires OwnsOnlyLater(s.producers[p].pc, claimed)
    ensures p < |Next(c, s, t).producers| && OwnsOnlyLater(Next(c, s, t).producers[p].pc, claimed)
  {
    if t.Exchange? {
      assert ProducerOk(c, s.producers[t.p], s.cursors, s.claimed);
    } else if IsProducerStep(t) {
      OtherStepOwnsOnlyLater(c, s, t, p, claimed);
    }
  }

  lemma OtherStepOwnsOnlyLater(c: Config, s: State, t: Step, p: nat, claimed: Sequence)
    requires IsProducerStep(t) && !t.Exchange? && ProducerEnabled(c, s, t) && p < |s.producers|
    requires OwnsOnlyLater(s.producers[p].pc, claimed)
    ensures p < |ProducerNext(c, s, t).producers| && OwnsOnlyLater(ProducerNext(c, s, t).producers[p].pc, claimed)
  {
  }

  lemma {:induction false} OwnsOnlyNew(c: Config, s: State, steps: seq<Step>, p: nat, claimed: Sequence)
    requires Inv(c, s) && Legal(c, s, steps) && p < |s.producers| && claimed <= s.claimed
    requires OwnsOnlyLater(s.producers[p].pc, claimed)
    ensures p < |After(c, s, steps).producers| && OwnsOnlyLater(After(c, s, steps).producers[p].pc, claimed)
    decreases |steps|
  {
    if steps == [] {
    } else {
      StillOwnsOnlyLater(c, s, steps[0], p, claimed);
      StepKeeps(c, s, steps[0]);
      StepIsLater(c, s, steps[0]);
      OwnsOnlyNew(c, Next(c, s, steps[0]), steps[1..], p, claimed);
    }
  }

  /** What one has lies in one lap after every consumer. */
  lemma WhatOneHasFits(c: Config, s: State, p: nat, n: nat)
    requires Inv(c, s) && Has(s, p, n)
    ensures n <= c.size
  {
    var pc := s.producers[p].pc;
    assert ProducerOk(c, s.producers[p], s.cursors, s.claimed);
    if n > 0 {
      assert Owns(pc, pc.lower);
      var i := SomeCursor(c, s);
      OwnedIsAhead(c, s, p, pc.lower, i);
      NoLapping(c, s.cursors, s.published, s.claimed, i);
    }
  }

  /** If a handle that was idle has got `n` slots, room could be made for them. */
  lemma RoomCouldBeMade(c: Config, s: State, s': State, still: Still, p: nat, n: nat)
    requires Inv(c, s) && Inv(c, s') && Later(s, s') && StoodStill(s, s', still)
    requires Has(s', p, n) && OwnsOnlyLater(s'.producers[p].pc, s.claimed)
    ensures CanMakeRoom(c, s, still, n)
  {
    WhatOneHasFits(c, s', p, n);
    assert ProducerOk(c, s'.producers[p], s'.cursors, s'.claimed);
    assert s.claimed + n <= s'.claimed;
    forall i | i in still.consumers && i < |s.cursors|
      ensures s.claimed + n <= s.cursors[i] + c.size
    {
      NoLapping(c, s'.cursors, s'.published, s'.claimed, i);
    }
    var g := SomeCursor(c, s');
    NoLapping(c, s'.cursors, s'.published, s'.claimed, g);
    WasPublishable(c, s, s', still, g, s.claimed + n - c.size);
  }

  lemma RoomIsEnough(c: Config, s: State, still: Still, p: nat, n: nat) returns (steps: seq<Step>)
    requires Inv(c, s) && p < |s.producers| && s.producers[p].pc.Idle? && p !in still.producers
    requires CanMakeRoom(c, s, still, n)
    ensures Legal(c, s, steps) && AllLeaveAlone(still, steps)
    ensures Has(After(c, s, steps), p, n) && After(c, s, steps).producers[p].pc.upper == s.claimed + n
  {
    var room := RoomIsMade(c, s, still, n);
    var s1 := After(c, s, room);
    var call := CallSucceeds(c, s1, p, n, still);
    Concatenated(c, s, room, call);
    steps := room + call;
  }

  /** A request on an idle handle can come to be granted, by the actors that do not stand still, if and
      only if the ring has that many slots, no consumer that stands still is too far behind, and no
      producer that stands still holds back what consumers need to make room. */
  lemma RequestsSucceedExactly(c: Config, s: State, still: Still, p: nat, n: nat)
    requires ValidConfig(c) && Reachable(c, s)
    requires p < |s.producers| && s.producers[p].pc.Idle? && p !in still.producers
    ensures CanGet(c, s, still, p, n) <==> CanMakeRoom(c, s, still, n)
  {
    ReachableHolds(c, s);
    if CanMakeRoom(c, s, still, n) {
      var steps := RoomIsEnough(c, s, still, p, n);
    }
    if CanGet(c, s, still, p, n) {
      var steps :| Legal(c, s, steps) && AllLeaveAlone(still, steps) && Has(After(c, s, steps), p, n);
      LegalIsLater(c, s, steps);
      StillStay(c, s, still, steps);
      OwnsOnlyNew(c, s, steps, p, s.claimed);
      RoomCouldBeMade(c, s, After(c, s, steps), still, p, n);
    }
  }

  /** So one consumer that stands still, such as a poller that was dropped, is enough: from every reachable
      state the others can come to one in which the handle is idle again and not even a request for one
      slot can ever be granted. */
  lemma OneStandstillBlocks(c: Config, s: State, p: nat, i: nat) returns (steps: seq<Step>)
    requires ValidConfig(c) && Reachable(c, s) && i < |s.cursors|
    requires p < |s.producers| && s.producers[p].pc.Idle?
    ensures Legal(c, s, steps) && AllLeaveAlone(Still({}, {i}), steps)
    ensures var s' := After(c, s, steps);
      Reachable(c, s') && p < |s'.producers| && s'.producers[p].pc.Idle? && !CanGet(c, s', Still({}, {i}), p, 1)
  {
    ReachableHolds(c, s);
    var still := Still({}, {i});
    NoLapping(c, s.cursors, s.published, s.claimed, i);
    assert Granted(c, i, s.cursors, s.published, s.cursors[i]);
    var claim := RoomIsEnough(c, s, still, p, s.cursors[i] + c.size - s.claimed);
    var s1 := After(c, s, claim);
    LegalIsLater(c, s, claim);
    var finish := EverythingFinishes(c, s1, still);
    QuietLeavesAlone(still, finish);
    FinishedHandles(c, After(c, s1, finish), still);
    Concatenated(c, s, claim, finish);
    steps := claim + finish;
    StaysReachable(c, s, steps);
    assert ProducerOk(c, s1.producers[p], s1.cursors, s1.claimed);
    StillStay(c, s, still, steps);
    RequestsSucceedExactly(c, After(c, s, steps), still, p, 1);
  }

  // ---- if nobody stands still ----

  /** In a finished state of actors that all go on, every handle is idle and every cursor is at the last
      claim. */
  lemma AllFinished(c: Config, s: State)
    requires Inv(c, s) && !Unfinished(c, s, Still({}, {}))
    ensures forall p :: 0 <= p < |s.producers| && Live(s.producers[p].pc) ==> s.producers[p].pc.Idle?
    ensures forall i :: 0 <= i < |s.cursors| ==> s.cursors[i] == s.claimed
  {
    FinishedHandles(c, s, Still({}, {}));
    forall i: nat | i < |s.cursors|
      ensures s.cursors[i] == s.claimed
    {
      FinishedConsumer(c, s, Still({}, {}), i, s.claimed);
      assert Granted(c, i, s.cursors, s.published, s.cursors[i]);
    }
  }

  /** The producer has `n` slots, and every consumer is right before them. */
  ghost predicate HasAllFree(s: State, p: nat, n: nat) {
    && Has(s, p, n)
    && forall i :: 0 <= i < |s.cursors| ==> s.cursors[i] == s.producers[p].pc.lower - 1
  }

  /** If nobody stands still, every live handle can get any number of slots that the ring has, even with
      all consumers right before them. */
  lemma EveryRequestCanSucceed(c: Config, s: State, p: nat, n: nat) returns (steps: seq<Step>)
    requires ValidConfig(c) && Reachable(c, s)
    requires p < |s.producers| && Live(s.producers[p].pc) && n <= c.size
    ensures Legal(c, s, steps)
    ensures Reachable(c, After(c, s, steps)) && HasAllFree(After(c, s, steps), p, n)
  {
    ReachableHolds(c, s);
    var before := EverythingFinishes(c, s, Still({}, {}));
    AllFinished(c, After(c, s, before));
    var call := CallSucceeds(c, After(c, s, before), p, n, Still({}, {}));
    Concatenated(c, s, before, call);
    steps := before + call;
    StaysReachable(c, s, steps);
  }

  /** If nobody stands still, a request can succeed if and only if the ring has that many slots. */
  lemma RequestsThatFitSucceed(c: Config, s: State, p: nat, n: nat)
    requires ValidConfig(c) && Reachable(c, s) && p < |s.producers| && Live(s.producers[p].pc)
    ensures CanGet(c, s, Still({}, {}), p, n) <==> n <= c.size
  {
    ReachableHolds(c, s);
    if n <= c.size {
      var steps := EveryRequestCanSucceed(c, s, p, n);
      assert AllLeaveAlone(Still({}, {}), steps);
    }
    if CanGet(c, s, Still({}, {}), p, n) {
      var steps :| Legal(c, s, steps) && AllLeaveAlone(Still({}, {}), steps) && Has(After(c, s, steps), p, n);
      LegalIsLater(c, s, steps);
      WhatOneHasFits(c, After(c, s, steps), p, n);
    }
  }

  // ---- a publication does not depend on anybody else ----

  /** What is left of a publication, and the cursors of all consumers, which it leaves alone. */
  ghost predicate PublishedAndStill(s: State, s': State, lower: Sequence, upper: Sequence) {
    && s'.cursors == s.cursors
    && forall q :: lower <= q <= upper ==> PublishedIn(s', q)
  }

  lemma {:induction false} FlipsSucceed(c: Config, s: State, p: nat, upper: Sequence, still: Still)
      returns (steps: seq<Step>)
    requires Inv(c, s) && c.mode.Multi? && p !in still.producers
    requires p < |s.producers| && s.producers[p].pc.Publishing? && s.producers[p].pc.upper == upper
    ensures Legal(c, s, steps) && AllLeaveAlone(still, steps)
    ensures PublishedAndStill(s, After(c, s, steps), s.producers[p].pc.next, upper)
    ensures forall q :: PublishedIn(s, q) ==> PublishedIn(After(c, s, steps), q)
    decreases upper + 1 - s.producers[p].pc.next
  {
    var next := s.producers[p].pc.next;
    assert ProducerOk(c, s.producers[p], s.cursors, s.claimed);
    if next > upper {
      steps := [];
    } else {
      var t := FlipBits(p);
      ProducerStepKeeps(c, s, t);
      var s' := ProducerNext(c, s, t);
      var rest := FlipsSucceed(c, s', p, upper, still);
      Before(c, s, t, rest);
      steps := [t] + rest;
    }
  }

  /** A producer that has slots can publish them while all consumers rest. */
  lemma PublicationSucceeds(c: Config, s: State, p: nat, still: Still) returns (steps: seq<Step>)
    requires Inv(c, s) && c.mode.Multi? && p < |s.producers| && s.producers[p].pc.Writing? && p !in still.producers
    ensures Legal(c, s, steps) && AllLeaveAlone(still, steps)
    ensures PublishedAndStill(s, After(c, s, steps), s.producers[p].pc.lower, s.producers[p].pc.upper)
  {
    var t := Flush(p);
    ProducerStepKeeps(c, s, t);
    var rest := FlipsSucceed(c, ProducerNext(c, s, t), p, s.producers[p].pc.upper, still);
    Before(c, s, t, rest);
    steps := [t] + rest;
  }

  /** Everything up to a lap after every consumer is published. */
  ghost predicate LapPublished(c: Config, s: State) {
    forall i, q :: 0 <= i < |s.cursors| && s.cursors[i] < q <= s.cursors[i] + c.size ==> PublishedIn(s, q)
  }

  /** If nobody stands still, the producers can come to be a full lap ahead of every consumer at once, with
      everything published. */
  lemma ProducersCanBeALapAhead(c: Config, s: State, p: nat) returns (steps: seq<Step>)
    requires ValidConfig(c) && c.mode.Multi? && Reachable(c, s) && p < |s.producers| && Live(s.producers[p].pc)
    ensures Legal(c, s, steps) && Reachable(c, After(c, s, steps))
    ensures LapPublished(c, After(c, s, steps))
  {
    var claim := EveryRequestCanSucceed(c, s, p, c.size);
    var s1 := After(c, s, claim);
    ReachableHolds(c, s1);
    var publication := PublicationSucceeds(c, s1, p, Still({}, {}));
    Concatenated(c, s, claim, publication);
    steps := claim + publication;
    StaysReachable(c, s, steps);
    var pc := s1.producers[p].pc;
    var s' := After(c, s, steps);
    assert PublishedAndStill(s1, s', pc.lower, pc.upper);
  }

  // ---- exactly which consumers the producers can lap ----

  /** The consumer stays where it is, and the producers publish the sequence one lap after its cursor. */
  ghost predicate CanBeLapped(c: Config, s: State, still: Still, i: nat)
    requires i < |s.cursors|
  {
    exists steps :: Legal(c, s, steps) && AllLeaveAlone(still, steps) && IsLapped(c, s, After(c, s, steps), i)
  }

  predicate IsLapped(c: Config, s: State, s': State, i: nat)
    requires i < |s.cursors|
  {
    i < |s'.cursors| && s'.cursors[i] == s.cursors[i] && PublishedIn(s', s.cursors[i] + c.size)
  }

  /** No consumer that stands still is behind this one, and the sequence one lap after it is not held
      back. */
  ghost predicate NobodyIsFurtherBehind(s: State, still: Still, i: nat, lap: Sequence)
    requires i < |s.cursors|
  {
    && (forall e :: e in still.consumers && e < |s.cursors| ==> s.cursors[i] <= s.cursors[e])
    && (0 <= lap < |s.published| && lap < |s.owner| ==> s.published[lap] || s.owner[lap] !in still.producers)
  }

  lemma LappedExactly(c: Config, s: State, still: Still, p: nat, i: nat)
    requires ValidConfig(c) && c.mode.Multi? && Reachable(c, s) && i < |s.cursors|
    requires p < |s.producers| && s.producers[p].pc.Idle? && p !in still.producers
    ensures CanBeLapped(c, s, still, i) <==> NobodyIsFurtherBehind(s, still, i, s.cursors[i] + c.size)
  {
    ReachableHolds(c, s);
    if NobodyIsFurtherBehind(s, still, i, s.cursors[i] + c.size) {
      var steps := CanLap(c, s, still, p, i);
    }
    if CanBeLapped(c, s, still, i) {
      var steps :| Legal(c, s, steps) && AllLeaveAlone(still, steps) && IsLapped(c, s, After(c, s, steps), i);
      LegalIsLater(c, s, steps);
      StillStay(c, s, still, steps);
      CouldLap(c, s, After(c, s, steps), still, i);
    }
  }

  lemma CouldLap(c: Config, s: State, s': State, still: Still, i: nat)
    requires Inv(c, s) && Inv(c, s') && Later(s, s') && StoodStill(s, s', still)
    requires i < |s.cursors| && IsLapped(c, s, s', i)
    ensures NobodyIsFurtherBehind(s, still, i, s.cursors[i] + c.size)
  {
    forall e | e in still.consumers && e < |s.cursors|
      ensures s.cursors[i] <= s.cursors[e]
    {
      NoLapping(c, s'.cursors, s'.published, s'.claimed, e);
    }
    var lap := s.cursors[i] + c.size;
    if 0 <= lap < |s.published| {
      HeldBack(s, s', still, lap);
    }
  }

  lemma CanLap(c: Config, s: State, still: Still, p: nat, i: nat) returns (steps: seq<Step>)
    requires Inv(c, s) && c.mode.Multi? && i < |s.cursors|
    requires p < |s.producers| && s.producers[p].pc.Idle? && p !in still.producers
    requires NobodyIsFurtherBehind(s, still, i, s.cursors[i] + c.size)
    ensures Legal(c, s, steps) && AllLeaveAlone(still, steps) && IsLapped(c, s, After(c, s, steps), i)
  {
    var waiting := Still(still.producers, still.consumers + {i});
    var n := RoomForLap(c, s, still, i);
    if n == 0 {
      steps := LastCanBePublished(c, s, waiting);
    } else {
      steps := ClaimIsPublished(c, s, waiting, p, n);
    }
    StillStay(c, s, waiting, steps);
    LeftAloneToo(waiting, still, steps);
  }

  lemma LastCanBePublished(c: Config, s: State, still: Still) returns (steps: seq<Step>)
    requires Inv(c, s) && CanMakeRoom(c, s, still, 0) && s.claimed >= 0
    requires s.published[s.claimed] || s.owner[s.claimed] !in still.producers
    ensures Legal(c, s, steps) && AllLeaveAlone(still, steps) && PublishedIn(After(c, s, steps), s.claimed)
  {
    steps := RoomIsMade(c, s, still, 0);
    var p := s.owner[s.claimed];
    assert s.published[s.claimed] <==> !Owns(s.producers[p].pc, s.claimed);
    var s' := After(c, s, steps);
    assert s'.published[s.claimed] <==> !Owns(s'.producers[p].pc, s.claimed);
  }

  lemma RoomForLap(c: Config, s: State, still: Still, i: nat) returns (n: nat)
    requires Inv(c, s) && i < |s.cursors| && NobodyIsFurtherBehind(s, still, i, s.cursors[i] + c.size)
    ensures s.claimed + n == s.cursors[i] + c.size
    ensures CanMakeRoom(c, s, Still(still.producers, still.consumers + {i}), n)
  {
    NoLapping(c, s.cursors, s.published, s.claimed, i);
    assert Granted(c, i, s.cursors, s.published, s.cursors[i]);
    n := s.cursors[i] + c.size - s.claimed;
  }

  lemma ClaimIsPublished(c: Config, s: State, still: Still, p: nat, n: nat) returns (steps: seq<Step>)
    requires Inv(c, s) && c.mode.Multi? && n > 0
    requires p < |s.producers| && s.producers[p].pc.Idle? && p !in still.producers
    requires CanMakeRoom(c, s, still, n)
    ensures Legal(c, s, steps) && AllLeaveAlone(still, steps) && PublishedIn(After(c, s, steps), s.claimed + n)
  {
    var claim := RoomIsEnough(c, s, still, p, n);
    LegalIsLater(c, s, claim);
    var s1 := After(c, s, claim);
    var publication := PublicationSucceeds(c, s1, p, still);
    Concatenated(c, s, claim, publication);
    steps := claim + publication;
    assert PublishedAndStill(s1, After(c, s, steps), s1.producers[p].pc.lower, s.claimed + n);
  }

}
