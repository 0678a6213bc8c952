/** The graph of consumers: what every consumer waits for, and which consumers the producers wait for. */
module Topology {

  /** A consumer waits for the producers, or for every consumer of an earlier group. Consumers are
      numbered in the order in which they are added. */
  datatype Dependency = OnProducer | OnGroup(group: seq<nat>)

  /** `gate` is the group whose cursors the producers read. */
  datatype Wiring = Wiring(dependencies: seq<Dependency>, gate: seq<nat>)

  predicate Follows(w: Wiring, i: nat, j: nat) {
    && j < |w.dependencies|
    && w.dependencies[j].OnGroup?
    && i in w.dependencies[j].group
  }

  /** Groups are not empty and refer to earlier consumers, and every consumer is in the gate or is
      followed by some later consumer. */
  ghost predicate WellWired(w: Wiring) {
    && w.gate != []
    && (forall g :: g in w.gate ==> g < |w.dependencies|)
    && (forall j :: 0 <= j < |w.dependencies| && w.dependencies[j].OnGroup? ==>
          w.dependencies[j].group != [] && forall i :: i in w.dependencies[j].group ==> i < j)
    && (forall i: nat :: i < |w.dependencies| ==> i in w.gate || exists j: nat :: i < j && Follows(w, i, j))
  }

  /** Every consumer is at or behind every consumer that it follows. */
  ghost predicate Staged(w: Wiring, cursors: seq<int>) {
    && |cursors| == |w.dependencies|
    && forall i: nat, j: nat :: i < |cursors| && Follows(w, i, j) ==> cursors[j] <= cursors[i]
  }

  /** Some cursor of the gate is at or behind the cursor of any given consumer, in any stage. */
  lemma {:induction false} GateIsBehind(w: Wiring, cursors: seq<int>, i: nat) returns (g: nat)
    requires WellWired(w) && Staged(w, cursors) && i < |cursors|
    ensures g in w.gate && g < |cursors| && cursors[g] <= cursors[i]
    decreases |cursors| - i
  {
    if i in w.gate {
      g := i;
    } else {
      var j: nat :| i < j && Follows(w, i, j);
      g := GateIsBehind(w, cursors, j);
    }
  }

  /** Consumer `i` is in a stage that `j` waits for, directly or through other stages. */
  ghost predicate Precedes(w: Wiring, i: nat, j: nat)
    decreases j
  {
    && j < |w.dependencies|
    && w.dependencies[j].OnGroup?
    && (Follows(w, i, j) || exists k: nat :: k < j && Follows(w, k, j) && Precedes(w, i, k))
  }

  lemma {:induction false} PrecedingIsAhead(w: Wiring, cursors: seq<int>, i: nat, j: nat)
    requires Staged(w, cursors) && i < |cursors| && Precedes(w, i, j)
    ensures cursors[j] <= cursors[i]
    decreases j
  {
    if Follows(w, i, j) {
    } else {
      var k: nat :| k < j && Follows(w, k, j) && Precedes(w, i, k);
      PrecedingIsAhead(w, cursors, i, k);
    }
  }

  /** No consumer that stands still keeps `i` from coming to `target`: neither `i` itself nor any
      consumer that precedes it. */
  ghost predicate Unhindered(w: Wiring, cursors: seq<int>, still: set<nat>, i: nat, target: int) {
    forall e :: e in still && e < |cursors| && (e == i || Precedes(w, e, i)) ==> target <= cursors[e]
  }
}
