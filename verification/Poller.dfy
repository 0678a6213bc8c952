/** The pull side: a poller grants ranges of sequences through guards, and a guard yields their events. */
module Pollers {
  import opened Wrappers
  import opened Bits
  import opened Indexing
  import opened Cursors
  import opened Rings
  import opened Availability
  import opened MultiBarrier

  // `i64::MAX` and `u64::MAX`.
  const MAX_SEQUENCE: Sequence := 0x7fff_ffff_ffff_ffff
  const MAX_LIMIT: nat := TWO_TO_THE_64 - 1

  datatype Refusal = NoEvents | Shutdown

  datatype Polled<T> = Ok(guard: EventGuard<T>) | Err(refusal: Refusal)

  /** What one guard was given: `from..to`, out of the `limit` that was asked for and of what the
      dependency had at that moment. */
  datatype Grant = Grant(from: Sequence, to: Sequence, limit: nat, dependency: Sequence)

  function Min(a: Sequence, b: Sequence): Sequence {
    if a <= b then a else b
  }

  /** The last sequence granted so far. */
  function Reach(grants: seq<Grant>): Sequence {
    if grants == [] then NONE else grants[|grants| - 1].to
  }

  /** Each grant starts where the one before ended, and takes as much as there is, up to its limit. */
  ghost predicate Tiles(grants: seq<Grant>) {
    grants == [] ||
    (var last := grants[|grants| - 1];
     && Tiles(grants[..|grants| - 1])
     && last.from == Reach(grants[..|grants| - 1]) + 1 <= last.dependency
     && last.to == Min(last.dependency, last.from - 1 + last.limit))
  }

  ghost predicate Holds(grants: seq<Grant>, k: int, s: Sequence) {
    0 <= k < |grants| && grants[k].from <= s <= grants[k].to
  }

  lemma {:induction false} ReachGrows(grants: seq<Grant>, k: nat)
    requires Tiles(grants) && k < |grants|
    ensures NONE <= grants[k].from - 1 <= grants[k].to <= Reach(grants)
    ensures grants[k].to <= grants[k].dependency && grants[k].to - grants[k].from + 1 <= grants[k].limit
    ensures grants[k].to == grants[k].dependency || grants[k].to - grants[k].from + 1 == grants[k].limit
    decreases |grants|
  {
    var last := |grants| - 1;
    if k < last {
      ReachGrows(grants[..last], k);
    }
    if last > 0 {
      ReachGrows(grants[..last], last - 1);
    }
  }

  /** The grants of any history of polls cover `0..Reach`, every sequence exactly once. */
  lemma {:induction false} GrantsPartition(grants: seq<Grant>, s: Sequence)
    requires Tiles(grants)
    ensures 0 <= s <= Reach(grants) <==> exists k :: Holds(grants, k, s)
    ensures forall k, l :: Holds(grants, k, s) && Holds(grants, l, s) ==> k == l
  {
    if grants == [] {
    } else {
      var last := |grants| - 1;
      var before := grants[..last];
      GrantsPartition(before, s);
      ReachGrows(grants, last);
      assert forall k :: k != last ==> (Holds(grants, k, s) <==> Holds(before, k, s));
      assert Holds(grants, last, s) <==> Reach(before) < s <= Reach(grants);
      if s <= Reach(before) && s >= 0 {
        var k :| Holds(before, k, s);
        assert Holds(grants, k, s);
      }
    }
  }

  /** A grant of what the dependency has, up to a limit, continues the tiling. */
  lemma OneMoreGrant(grants: seq<Grant>, to: Sequence, limit: nat, dependency: Sequence)
    requires Tiles(grants) && Reach(grants) < dependency && to == Min(dependency, Reach(grants) + limit)
    ensures Tiles(grants + [Grant(Reach(grants) + 1, to, limit, dependency)])
  {
    assert (grants + [Grant(Reach(grants) + 1, to, limit, dependency)])[..|grants|] == grants;
  }

  /** What a poller waits for: the cursor of a single producer or a group of consumers, or availability
      bits. */
  datatype Barrier = OnCursors(group: ConsumerBarrier) | OnBits(bits: MultiProducerBarrier)

  class EventPoller<T> {
    const ringBuffer: RingBuffer<T>
    const dependentBarrier: Barrier
    const shutdownAtSequence: Cursor
    const cursor: Cursor
    /** Everything granted so far, and whether the last guard is still in use. */
    ghost var grants: seq<Grant>
    ghost var lent: bool

    ghost predicate Wellformed() {
      ringBuffer.Valid() && cursor != shutdownAtSequence
    }

    /** Between two polls, the cursor is at the end of what has been granted. */
    ghost predicate Valid()
      reads this, cursor
    {
      Wellformed() && !lent && Tiles(grants) && cursor.counter == Reach(grants)
    }

    constructor (
        ringBuffer: RingBuffer<T>, dependentBarrier: Barrier, shutdownAtSequence: Cursor, cursor: Cursor)
      requires ringBuffer.Valid() && cursor != shutdownAtSequence && cursor.counter == NONE
      ensures Valid() && grants == []
      ensures this.ringBuffer == ringBuffer && this.dependentBarrier == dependentBarrier
      ensures this.shutdownAtSequence == shutdownAtSequence && this.cursor == cursor
    {
      this.ringBuffer := ringBuffer;
      this.dependentBarrier := dependentBarrier;
      this.shutdownAtSequence := shutdownAtSequence;
      this.cursor := cursor;
      grants := [];
      lent := false;
    }

    /** A group is not empty, and sequences are below the largest number. */
    ghost predicate CanBeAsked()
      reads cursor
      reads if dependentBarrier.OnBits? then {dependentBarrier.bits, dependentBarrier.bits.available} else {dependentBarrier.group}
    {
      match dependentBarrier
      case OnCursors(group) => group.cursors != [] && Least(group.cursors).value <= MAX_SEQUENCE
      case OnBits(bits) => bits.Valid() && cursor.counter + bits.size < MAX_SEQUENCE
    }

    /** Those who go on while a group is asked. */
    function Others(): set<object> {
      if dependentBarrier.OnCursors? then {dependentBarrier.group} else {}
    }

    /** `found` is a true answer of the barrier: for a group it lies between the slowest consumer at the
        start and the slowest at the end, for bits it is the result of the scan from the next sequence. */
    twostate predicate Answers(found: Sequence)
      requires CanBeAsked()
      reads cursor
      reads if dependentBarrier.OnBits? then {dependentBarrier.bits, dependentBarrier.bits.available} else {dependentBarrier.group}
    {
      match dependentBarrier
      case OnCursors(group) => old(Least(group.cursors)).Fin? && old(Least(group.cursors)).value <= found <= Least(group.cursors).value
      case OnBits(bits) => IsScanResult(bits.available[..], bits.size, cursor.counter + 1, found)
    }

    method LoadDependency() returns (found: Sequence)
      requires CanBeAsked()
      modifies Others()
      ensures CanBeAsked() && Answers(found) && found <= MAX_SEQUENCE
    {
      match dependentBarrier
      case OnCursors(group) =>
        ghost var before := group.cursors;
        var low := group.GetAfter(MAX_SEQUENCE);
        found := low.value;
        ghost var i :| 0 <= i < |before| && before[i] == Least(before).value;
        LeastIsBelow(group.cursors, i);
      case OnBits(bits) =>
        found := bits.GetAfter(cursor.counter + 1);
    }

    /** The shutdown comes first: only when everything before the stop sequence has been granted, and
        then always. A limit of zero gives an empty guard if something is there, and no guard if not. */
    method PollTake(limit: nat) returns (r: Polled<T>, ghost found: Sequence)
      requires Valid() && limit <= MAX_LIMIT && CanBeAsked()
      modifies this, Others()
      ensures CanBeAsked() && (r != Err(Shutdown) ==> Answers(found) && found <= MAX_SEQUENCE)
      ensures r == Err(Shutdown) <==> Reach(old(grants)) + 1 == shutdownAtSequence.counter
      ensures r == Err(NoEvents) <==>
                Reach(old(grants)) + 1 != shutdownAtSequence.counter && found <= Reach(old(grants))
      ensures r.Err? ==> Valid() && grants == old(grants)
      ensures r.Ok? ==>
        && fresh(r.guard) && r.guard.parent == this && r.guard.Valid() && r.guard.yielded == []
        && grants == old(grants) + [Grant(Reach(old(grants)) + 1, r.guard.available, limit, found)]
        && (if Reach(old(grants)) + limit < found then r.guard.available == Reach(old(grants)) + limit
            else r.guard.available == found)
    {
      found := NONE;
      var cursorAt := cursor.counter;
      var sequence := cursorAt + 1;
      if sequence == shutdownAtSequence.counter {
        return Err(Shutdown), found;
      }
      var available := LoadDependency();
      found := available;
      if available < sequence {
        return Err(NoEvents), found;
      }
      // The addition saturates.
      var maxSequence := Min(cursorAt + limit, MAX_SEQUENCE);
      var guard := Lend(sequence, Min(available, maxSequence), limit, found);
      r := Ok(guard);
    }

    /** Hands out a guard over `sequence..available`. */
    method Lend(sequence: Sequence, available: Sequence, ghost limit: nat, ghost found: Sequence)
        returns (guard: EventGuard<T>)
      requires Valid() && sequence == Reach(grants) + 1 <= found && available == Min(found, Reach(grants) + limit)
      modifies this
      ensures fresh(guard) && guard.parent == this && guard.Valid() && guard.yielded == [] && guard.available == available
      ensures grants == old(grants) + [Grant(sequence, available, limit, found)]
    {
      OneMoreGrant(grants, available, limit, found);
      grants := grants + [Grant(sequence, available, limit, found)];
      lent := true;
      guard := new EventGuard<T>(this, sequence, available);
    }

    /** A poll without a limit grants everything that is found. */
    method Poll() returns (r: Polled<T>, ghost found: Sequence)
      requires Valid() && CanBeAsked()
      modifies this, Others()
      ensures CanBeAsked() && (r != Err(Shutdown) ==> Answers(found))
      ensures r == Err(Shutdown) <==> Reach(old(grants)) + 1 == shutdownAtSequence.counter
      ensures r == Err(NoEvents) <==>
                Reach(old(grants)) + 1 != shutdownAtSequence.counter && found <= Reach(old(grants))
      ensures r.Err? ==> Valid() && grants == old(grants)
      ensures r.Ok? ==>
        && fresh(r.guard) && r.guard.parent == this && r.guard.Valid() && r.guard.yielded == []
        && Reach(grants) == r.guard.available == found
    {
      if grants != [] {
        ReachGrows(grants, |grants| - 1);
      }
      r, found := PollTake(MAX_LIMIT);
    }
  }

  /** A guard lends out the last grant of its poller. */
  class EventGuard<T> {
    const parent: EventPoller<T>
    var sequence: Sequence
    const available: Sequence
    ghost const first: Sequence
    /** The sequences whose events have been yielded. */
    ghost var yielded: seq<Sequence>

    ghost predicate Valid()
      reads this, parent, parent.cursor
    {
      && parent.Wellformed() && parent.lent
      && Tiles(parent.grants) && parent.grants != []
      && Reach(parent.grants) == available
      && parent.grants[|parent.grants| - 1].from == first == parent.cursor.counter + 1
      && first <= sequence <= available + 1
      && yielded == seq(sequence - first, k requires 0 <= k => first + k)
    }

    constructor (parent: EventPoller<T>, sequence: Sequence, available: Sequence)
      requires parent.Wellformed() && parent.lent && Tiles(parent.grants) && parent.grants != []
      requires Reach(parent.grants) == available && sequence <= available + 1
      requires parent.grants[|parent.grants| - 1].from == sequence == parent.cursor.counter + 1
      ensures Valid() && this.parent == parent && this.sequence == sequence && this.available == available
      ensures yielded == []
    {
      this.parent := parent;
      this.sequence := sequence;
      this.available := available;
      first := sequence;
      yielded := [];
    }

    /** Yields the events of the grant in order, each one once, and then nothing. */
    method Next() returns (event: Option<T>)
      requires Valid()
      modifies this
      ensures Valid()
      ensures event.None? <==> |old(yielded)| == available - first + 1
      ensures event.None? ==> yielded == old(yielded)
      ensures event.Some? ==>
        && yielded == old(yielded) + [first + |old(yielded)|]
        && event.value == parent.ringBuffer.slots[
             Slot(parent.ringBuffer.slots.Length, first + |old(yielded)|)]
    {
      if sequence > available {
        return None;
      }
      var value := parent.ringBuffer.GetRef(sequence);
      yielded := yielded + [sequence];
      sequence := sequence + 1;
      event := Some(value);
    }

    /** How many events are still to be yielded. */
    method Len() returns (n: int)
      requires Valid()
      ensures n >= 0 && |yielded| + n == available - first + 1
    {
      n := available - sequence + 1;
    }

    /** Dropping the guard passes over the whole grant, read or not. */
    method Drop()
      requires Valid()
      modifies parent`lent, parent.cursor
      ensures parent.Valid() && parent.cursor.counter == available && parent.grants == old(parent.grants)
    {
      parent.cursor.Store(available);
      parent.lent := false;
    }
  }
}
