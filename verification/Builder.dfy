/** The builder: it starts the consumers group by group, and wires each group to the one before. */
module Builders {
  import opened Wrappers
  import opened Topology

  /** The calls on a builder before `build`. */
  datatype BuilderCall = AddHandler | AddPoller | AndThen

  /** A consumer as the caller thinks of it: the number of `and_then` calls before it was added. */
  datatype Member = Member(level: nat, managed: bool)

  function Level(calls: seq<BuilderCall>): nat {
    if calls == [] then 0
    else Level(calls[..|calls| - 1]) + if calls[|calls| - 1].AndThen? then 1 else 0
  }

  /** The consumers that some calls add, in order. */
  function Members(calls: seq<BuilderCall>): seq<Member> {
    if calls == [] then []
    else
      var before := calls[..|calls| - 1];
      match calls[|calls| - 1]
      case AndThen => Members(before)
      case AddHandler => Members(before) + [Member(Level(before), true)]
      case AddPoller => Members(before) + [Member(Level(before), false)]
  }

  /** What the types of the builder admit: `and_then` only follows the addition of a consumer. */
  predicate Admitted(calls: seq<BuilderCall>) {
    calls == [] ||
    (var before := calls[..|calls| - 1];
     Admitted(before) && (calls[|calls| - 1].AndThen? ==> Buildable(before)))
  }

  predicate Buildable(calls: seq<BuilderCall>) {
    calls != [] && !calls[|calls| - 1].AndThen?
  }

  /** The wiring that the stages call for: a consumer of the first stage waits for the producers, one
      of a later stage for exactly the consumers of the stage before it, and the producers wait for
      exactly the last stage. */
  ghost predicate Wired(w: Wiring, members: seq<Member>, last: nat) {
    && |w.dependencies| == |members|
    && (forall j :: 0 <= j < |members| ==> (w.dependencies[j].OnProducer? <==> members[j].level == 0))
    && (forall i: nat, j: nat :: Follows(w, i, j) <==>
          i < |members| && j < |members| && members[i].level + 1 == members[j].level)
    && (forall g: nat :: g in w.gate <==> g < |members| && members[g].level == last)
  }

  /** Levels only grow, and every level before `level` has a consumer; so has `level` itself, if
      `complete`. */
  ghost predicate Dense(members: seq<Member>, level: nat, complete: bool) {
    && (forall i, j :: 0 <= i <= j < |members| ==> members[i].level <= members[j].level)
    && (forall i :: 0 <= i < |members| ==> members[i].level <= level)
    && (forall k: nat :: k < level ==> Occupied(members, k))
    && (complete ==> Occupied(members, level))
  }

  ghost predicate Occupied(members: seq<Member>, level: nat) {
    exists i :: 0 <= i < |members| && members[i].level == level
  }

  lemma MoreOccupied(members: seq<Member>, m: Member, level: nat)
    requires Occupied(members, level) || m.level == level
    ensures Occupied(members + [m], level)
  {
    var after := members + [m];
    if m.level == level {
      assert after[|members|] == m;
    } else {
      var i :| 0 <= i < |members| && members[i].level == level;
      assert after[i] == members[i];
    }
  }

  /** No call makes a gap in the stages. */
  lemma {:induction false} CallsAreDense(calls: seq<BuilderCall>)
    requires Admitted(calls)
    ensures Dense(Members(calls), Level(calls), Buildable(calls))
  {
    if calls == [] {
    } else {
      var last := |calls| - 1;
      var before, level := Members(calls[..last]), Level(calls[..last]);
      CallsAreDense(calls[..last]);
      if !calls[last].AndThen? {
        forall k: nat | k <= level ensures Occupied(Members(calls), k) {
          MoreOccupied(before, Member(level, calls[last].AddHandler?), k);
        }
      }
    }
  }

  /** The stages of an admitted sequence of calls make a sound graph. */
  lemma WiredIsWellWired(w: Wiring, members: seq<Member>, last: nat)
    requires Dense(members, last, true) && Wired(w, members, last)
    ensures WellWired(w)
  {
    var some :| 0 <= some < |members| && members[some].level == last;
    assert some in w.gate;
    forall j | 0 <= j < |w.dependencies| && w.dependencies[j].OnGroup?
      ensures w.dependencies[j].group != []
      ensures forall i :: i in w.dependencies[j].group ==> i < j
    {
      assert Occupied(members, members[j].level - 1);
      var k :| 0 <= k < |members| && members[k].level == members[j].level - 1;
      assert Follows(w, k, j);
      forall i | i in w.dependencies[j].group ensures i < j {
        assert Follows(w, i, j);
      }
    }
    forall i: nat | i < |w.dependencies| && i !in w.gate
      ensures exists j: nat :: i < j && Follows(w, i, j)
    {
      assert Occupied(members, members[i].level + 1);
      var j :| 0 <= j < |members| && members[j].level == members[i].level + 1;
      assert Follows(w, i, j);
    }
  }

  /** In a staged graph, a consumer is never ahead of any consumer of any earlier stage. */
  lemma {:induction false} EarlierLevelsAreAhead(
      w: Wiring, cursors: seq<int>, members: seq<Member>, last: nat, i: nat, j: nat)
    requires Dense(members, last, true) && Wired(w, members, last) && Staged(w, cursors)
    requires i < |members| && j < |members| && members[i].level < members[j].level
    ensures exists h: nat :: Follows(w, h, j) && h < |members| && cursors[j] <= cursors[h] <= cursors[i]
    decreases members[j].level
  {
    assert Occupied(members, members[j].level - 1);
    var h :| 0 <= h < |members| && members[h].level == members[j].level - 1;
    if members[i].level < members[h].level {
      EarlierLevelsAreAhead(w, cursors, members, last, i, h);
      assert Follows(w, h, j);
    } else {
      assert Follows(w, i, j);
    }
  }

  // ---- groups, as the builder collects them ----

  function Group(members: seq<Member>, level: nat): seq<nat> {
    if members == [] then []
    else
      var last := |members| - 1;
      Group(members[..last], level) + if members[last].level == level then [last] else []
  }

  lemma {:induction false} InGroup(members: seq<Member>, level: nat)
    ensures forall i: nat :: i in Group(members, level) <==> i < |members| && members[i].level == level
  {
    if members == [] {
    } else {
      InGroup(members[..|members| - 1], level);
    }
  }

  function DependencyOf(earlier: seq<Member>, level: nat): Dependency {
    if level == 0 then OnProducer else OnGroup(Group(earlier, level - 1))
  }

  function Handles(members: seq<Member>): seq<nat> {
    if members == [] then []
    else
      var last := |members| - 1;
      Handles(members[..last]) + if members[last].managed then [last] else []
  }

  /** The handles that are joined at the end are those of the handlers. */
  lemma {:induction false} InHandles(members: seq<Member>)
    ensures forall i: nat :: i in Handles(members) <==> i < |members| && members[i].managed
  {
    if members == [] {
    } else {
      InHandles(members[..|members| - 1]);
    }
  }

  ghost predicate CreatedFor(created: seq<Dependency>, members: seq<Member>) {
    && |created| == |members|
    && forall j :: 0 <= j < |created| ==> created[j] == DependencyOf(members, members[j].level)
  }

  /** A consumer of the current stage changes no earlier group. */
  lemma CreatedGrows(created: seq<Dependency>, members: seq<Member>, m: Member)
    requires CreatedFor(created, members)
    requires forall j :: 0 <= j < |members| ==> members[j].level <= m.level
    ensures CreatedFor(created + [DependencyOf(members, m.level)], members + [m])
    ensures DependencyOf(members + [m], m.level) == DependencyOf(members, m.level)
    ensures Group(members + [m], m.level) == Group(members, m.level) + [|members|]
    ensures Handles(members + [m]) == Handles(members) + if m.managed then [|members|] else []
  {
    var after := members + [m];
    assert after[..|members|] == members;
    forall level: nat | level <= m.level
      ensures DependencyOf(after, level) == DependencyOf(members, level)
    {
    }
  }

  /** What the builder has collected is the wiring that the stages call for. */
  lemma CollectedIsWired(created: seq<Dependency>, members: seq<Member>, last: nat)
    requires CreatedFor(created, members)
    ensures Wired(Wiring(created, Group(members, last)), members, last)
  {
    var w := Wiring(created, Group(members, last));
    InGroup(members, last);
    forall i: nat, j: nat
      ensures Follows(w, i, j) <==>
              i < |members| && j < |members| && members[i].level + 1 == members[j].level
    {
      if j < |members| && members[j].level > 0 {
        InGroup(members, members[j].level - 1);
      }
    }
  }

  lemma BuildIsSound(created: seq<Dependency>, calls: seq<BuilderCall>)
    requires Admitted(calls) && Buildable(calls) && CreatedFor(created, Members(calls))
    ensures var w := Wiring(created, Group(Members(calls), Level(calls)));
      Wired(w, Members(calls), Level(calls)) && WellWired(w) && w.gate != []
  {
    CallsAreDense(calls);
    CollectedIsWired(created, Members(calls), Level(calls));
    WiredIsWellWired(Wiring(created, Group(Members(calls), Level(calls))), Members(calls), Level(calls));
  }

  lemma NextGroupIsEmpty(calls: seq<BuilderCall>)
    requires Admitted(calls)
    ensures Group(Members(calls), Level(calls) + 1) == []
  {
    CallsAreDense(calls);
    NoneAbove(Members(calls), Level(calls) + 1);
  }

  lemma {:induction false} NoneAbove(members: seq<Member>, level: nat)
    requires forall j :: 0 <= j < |members| ==> members[j].level < level
    ensures Group(members, level) == []
  {
    if members == [] {
    } else {
      NoneAbove(members[..|members| - 1], level);
    }
  }

  // ---- the builder itself ----

  /** No consumer, one, or several since the last `and_then`: the type parameter of the builder. */
  datatype Stage = NC | SC | MC

  function StageOf(group: seq<nat>): Stage {
    if |group| == 0 then NC else if |group| == 1 then SC else MC
  }

  class Builder {
    var stage: Stage
    var currentConsumerCursors: Option<seq<nat>>
    var dependentBarrier: Dependency
    var consumerHandles: seq<nat>
    /** The consumers created so far, with the barrier that each one was given. */
    var created: seq<Dependency>
    ghost var calls: seq<BuilderCall>

    ghost predicate Valid()
      reads this
    {
      && Admitted(calls)
      && currentConsumerCursors == Some(Group(Members(calls), Level(calls)))
      && stage == StageOf(Group(Members(calls), Level(calls)))
      && (stage.NC? <==> !Buildable(calls))
      && dependentBarrier == DependencyOf(Members(calls), Level(calls))
      && consumerHandles == Handles(Members(calls))
      && CreatedFor(created, Members(calls))
    }

    constructor ()
      ensures Valid() && calls == []
    {
      stage := NC;
      currentConsumerCursors := Some([]);
      dependentBarrier := OnProducer;
      consumerHandles := [];
      created := [];
      calls := [];
    }

    /** `add_cursor`, and the step of the type parameter. */
    method AddCursor(cursor: nat)
      requires currentConsumerCursors.Some?
      modifies `currentConsumerCursors, `stage
      ensures currentConsumerCursors == Some(old(currentConsumerCursors).value + [cursor])
      ensures stage == if old(stage).NC? then SC else MC
    {
      currentConsumerCursors := Some(currentConsumerCursors.value + [cursor]);
      stage := if stage.NC? then SC else MC;
    }

    /** Starts a handler on its own thread. */
    method HandleEventsWith()
      requires Valid()
      modifies this
      ensures Valid() && calls == old(calls) + [AddHandler]
    {
      Add(calls, AddHandler);
      var cursor := |created|;
      created := created + [dependentBarrier];
      consumerHandles := consumerHandles + [cursor];
      AddCursor(cursor);
      calls := calls + [AddHandler];
    }

    /** Hands out a poller; there is no thread to join. */
    method EventPoller()
      requires Valid()
      modifies this
      ensures Valid() && calls == old(calls) + [AddPoller]
    {
      Add(calls, AddPoller);
      var cursor := |created|;
      AddCursor(cursor);
      created := created + [dependentBarrier];
      calls := calls + [AddPoller];
    }

    /** The effect of a call that adds a consumer. */
    lemma Add(calls: seq<BuilderCall>, call: BuilderCall)
      requires Admitted(calls) && !call.AndThen? && CreatedFor(created, Members(calls))
      ensures var m, after := Member(Level(calls), call.AddHandler?), calls + [call];
        && Admitted(after) && Buildable(after) && Level(after) == Level(calls)
        && CreatedFor(created + [DependencyOf(Members(calls), Level(calls))], Members(after))
        && DependencyOf(Members(after), Level(calls)) == DependencyOf(Members(calls), Level(calls))
        && Group(Members(after), Level(calls)) == Group(Members(calls), Level(calls)) + [|created|]
        && Handles(Members(after)) ==
           Handles(Members(calls)) + if call.AddHandler? then [|created|] else []
    {
      var after := calls + [call];
      assert after[..|calls|] == calls;
      CallsAreDense(calls);
      var m := Member(Level(calls), call.AddHandler?);
      assert Members(after) == Members(calls) + [m];
      CreatedGrows(created, Members(calls), m);
    }

    /** Closes the group. With one consumer the cursor is removed from the list, with several the list
        is replaced. */
    method AndThen()
      requires Valid() && Buildable(calls)
      modifies this
      ensures Valid() && calls == old(calls) + [BuilderCall.AndThen]
    {
      Close(calls);
      var cursors := currentConsumerCursors.value;
      if stage.SC? {
        assert cursors == [cursors[0]] && cursors[1..] == [];
        dependentBarrier := OnGroup([cursors[0]]);
        currentConsumerCursors := Some(cursors[1..]);
      } else {
        dependentBarrier := OnGroup(cursors);
        currentConsumerCursors := Some([]);
      }
      stage := NC;
      calls := calls + [BuilderCall.AndThen];
    }

    /** The effect of a call that closes a group. */
    lemma Close(calls: seq<BuilderCall>)
      requires Admitted(calls) && Buildable(calls)
      ensures var after := calls + [BuilderCall.AndThen];
        && Admitted(after) && !Buildable(after)
        && Level(after) == Level(calls) + 1 && Members(after) == Members(calls)
        && Group(Members(after), Level(after)) == []
    {
      assert (calls + [BuilderCall.AndThen])[..|calls|] == calls;
      NextGroupIsEmpty(calls);
    }

    /** Ends the construction. */
    method Build() returns (wiring: Wiring, handles: seq<nat>)
      requires Valid() && Buildable(calls)
      modifies this
      ensures currentConsumerCursors == None && calls == old(calls)
      ensures Wired(wiring, Members(calls), Level(calls)) && WellWired(wiring)
      ensures handles == Handles(Members(calls))
    {
      BuildIsSound(created, calls);
      var cursors := currentConsumerCursors.value;
      currentConsumerCursors := None;
      wiring := Wiring(created, if stage.SC? then [cursors[0]] else cursors);
      handles := consumerHandles;
      assert wiring.gate == cursors;
    }
  }
}
