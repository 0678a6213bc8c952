/** Sequence counters shared between actors, and the barriers that read the counters of consumers. */
module Cursors {
  import opened Wrappers
  import opened Indexing

  /** The result of a compare-and-swap: the value found, in either case. */
  datatype Exchange = Exchanged(previous: Sequence) | Lost(found: Sequence)

  class Cursor {
    var counter: Sequence

    constructor (start: Sequence)
      ensures counter == start
    {
      counter := start;
    }

    /** One attempt to move the counter from `current` to `next`. */
    method CompareExchange(current: Sequence, next: Sequence) returns (r: Exchange)
      modifies this
      ensures old(counter) == current ==> r == Exchanged(current) && counter == next
      ensures old(counter) != current ==> r == Lost(old(counter)) && counter == old(counter)
    {
      if counter == current {
        r := Exchanged(counter);
        counter := next;
      } else {
        r := Lost(counter);
      }
    }

    method Store(sequence: Sequence)
      modifies this
      ensures counter == sequence
    {
      counter := sequence;
    }
  }

  /** The smallest of a group of counters; `Top` is the start of the fold, `i64::MAX` in the code. */
  datatype Low = Top | Fin(value: Sequence)

  function Lower(low: Low, value: Sequence): Low {
    if low.Top? || value < low.value then Fin(value) else low
  }

  /** `low` is the least of `values`. */
  ghost predicate IsLeast(low: Low, values: seq<Sequence>) {
    if values == [] then low == Top
    else low.Fin? && low.value in values && forall v :: v in values ==> low.value <= v
  }

  /** The least of some values. */
  function Least(values: seq<Sequence>): (low: Low)
    ensures IsLeast(low, values)
  {
    if values == [] then Top
    else
      var last := |values| - 1;
      assert values == values[..last] + [values[last]];
      Lower(Least(values[..last]), values[last])
  }

  /** If every value of a group has grown, so has the least. */
  lemma LeastGrows(before: seq<Sequence>, after: seq<Sequence>)
    requires |before| == |after| > 0 && forall i :: 0 <= i < |before| ==> before[i] <= after[i]
    ensures Least(before).value <= Least(after).value
  {
    var i :| 0 <= i < |after| && after[i] == Least(after).value;
    assert before[i] in before;
  }

  lemma LeastIsBelow(values: seq<Sequence>, i: nat)
    requires i < |values|
    ensures Least(values).value <= values[i]
  {
    assert values[i] in values;
  }

  lemma BelowLeast(values: seq<Sequence>, value: Sequence)
    requires values != [] && forall i :: 0 <= i < |values| ==> value <= values[i]
    ensures value <= Least(values).value
  {
    var i :| 0 <= i < |values| && values[i] == Least(values).value;
  }

  /** Consumers have gone forward, none of them over the limit. */
  predicate OnlyForward(before: seq<Sequence>, after: seq<Sequence>, limit: Sequence) {
    && |before| == |after|
    && forall i :: 0 <= i < |before| ==> before[i] <= after[i] && (after[i] <= limit || after[i] == before[i])
  }

  /** The barrier over the consumers of one group; a group of one is `UniConsumerBarrier`.

      The consumers go on while their cursors are read. In turn `k`, consumer `i` goes forward by
      `moves[k][i]` if that stays within a limit, which is up to them and not to the barrier. */
  class ConsumerBarrier {
    var cursors: seq<Sequence>
    const moves: seq<seq<nat>>
    var turn: nat

    constructor (consumers: nat, moves: seq<seq<nat>>)
      ensures cursors == seq(consumers, _ => NONE) && this.moves == moves
    {
      cursors := seq(consumers, _ => NONE);
      this.moves := moves;
      turn := 0;
    }

    /** The consumers take a turn. */
    method TakeTurn(limit: Sequence)
      modifies this
      ensures OnlyForward(old(cursors), cursors, limit)
    {
      var steps := if turn < |moves| then moves[turn] else [];
      turn := turn + 1;
      for i := 0 to |cursors|
        invariant OnlyForward(old(cursors), cursors, limit)
      {
        if i < |steps| && cursors[i] + steps[i] <= limit {
          cursors := cursors[i := cursors[i] + steps[i]];
        }
      }
    }

    /** The fold over the cursors, each one read at its own moment. The result lies between the slowest
        consumer at the start and the slowest consumer at the end. */
    method GetAfter(limit: Sequence) returns (low: Low)
      modifies this
      ensures OnlyForward(old(cursors), cursors, limit)
      ensures low.Top? <==> cursors == []
      ensures low.Fin? ==> old(Least(cursors).value) <= low.value <= Least(cursors).value
    {
      ghost var before := cursors;
      low := Top;
      for i := 0 to |cursors|
        invariant OnlyForward(before, cursors, limit)
        invariant low.Top? <==> i == 0
        invariant low.Fin? ==> Least(before).value <= low.value
        invariant forall k :: 0 <= k < i ==> low.value <= cursors[k]
      {
        LeastIsBelow(before, i);
        low := Lower(low, cursors[i]);
        TakeTurn(limit);
      }
      if cursors != [] {
        BelowLeast(cursors, low.value);
      }
    }
  }

  /** The handle of the thread of a consumer. */
  class ConsumerHandle {
    var joinHandle: Option<nat>

    constructor (thread: nat)
      ensures joinHandle == Some(thread)
    {
      joinHandle := Some(thread);
    }

    /** Waits for the thread and gives up the handle. The thread can only end once the stop sequence is
        set, so that comes first. */
    method Join(stop: Cursor)
      requires stop.counter != NONE
      modifies this
      ensures joinHandle == None
    {
      joinHandle := None;
    }
  }
}
