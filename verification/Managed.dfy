/** The push side: the loop of a handler's thread. What other actors do to shared memory meanwhile is
    given as a script of the thread's looks at it. */
module Managed {
  import opened Indexing
  import opened Cursors

  /** One look: the answer of the barrier, the stop sequence at that moment, and the slots, which stay
      as they are as long as the events up to `available` are being handled. */
  datatype Look<T> = Look(available: Sequence, shutdownAt: Sequence, slots: seq<T>)

  datatype Call<T> = Call(sequence: Sequence, event: T, endOfBatch: bool)

  type Handler<!S, !T> = (S, T, Sequence, bool) -> S

  /** The next sequence to handle after some looks. */
  function Reached<T>(looks: seq<Look<T>>): (r: Sequence)
    ensures r >= 0
  {
    if looks == [] then 0
    else
      var before := Reached(looks[..|looks| - 1]);
      var available := looks[|looks| - 1].available;
      if available >= before then available + 1 else before
  }

  /** The last look finds nothing new, and the stop sequence is where the thread is. */
  predicate Stops<T>(looks: seq<Look<T>>) {
    && looks != []
    && looks[|looks| - 1].available < Reached(looks[..|looks| - 1]) == looks[|looks| - 1].shutdownAt
  }

  /** No look of the script stops the thread. */
  predicate GoesOn<T>(looks: seq<Look<T>>) {
    looks != [] ==> !Stops(looks) && GoesOn(looks[..|looks| - 1])
  }

  /** Some look finds a batch that ends with `s`. */
  predicate EndsBatch<T>(looks: seq<Look<T>>, s: Sequence) {
    looks != [] &&
    (var before := looks[..|looks| - 1];
     EndsBatch(before, s) || Reached(before) <= s == looks[|looks| - 1].available)
  }

  /** The last batch ends right before the next sequence, so no batch of the past ends later. */
  lemma {:induction false} BatchesEndBefore<T>(looks: seq<Look<T>>)
    ensures forall s :: EndsBatch(looks, s) ==> 0 <= s < Reached(looks)
    ensures Reached(looks) > 0 ==> EndsBatch(looks, Reached(looks) - 1)
  {
    if looks == [] {
    } else {
      BatchesEndBefore(looks[..|looks| - 1]);
    }
  }

  /** The slots that a look makes available hold the events of the log. */
  ghost predicate Sound<T>(size: nat, log: seq<T>, looks: seq<Look<T>>)
    requires size > 0
  {
    looks == [] ||
    (var (before, look) := (looks[..|looks| - 1], looks[|looks| - 1]);
     && |look.slots| == size
     && look.available < |log|
     && (look.shutdownAt == NONE || look.shutdownAt == |log|)
     && forall s :: Reached(before) <= s <= look.available ==> look.slots[Slot(size, s)] == log[s])
  }

  /** A look is sound for a log if it is sound for a part of it that is published, and the stop sequence
      is the end of the log. */
  ghost predicate ShowsLog<T>(size: nat, log: seq<T>, reached: Sequence, look: Look<T>)
    requires size > 0 && reached >= 0
  {
    && |look.slots| == size
    && look.available < |log|
    && (look.shutdownAt == NONE || look.shutdownAt == |log|)
    && forall s :: reached <= s <= look.available ==> look.slots[Slot(size, s)] == log[s]
  }

  /** Every look shows the log. */
  ghost predicate AllSound<T>(size: nat, log: seq<T>, looks: seq<Look<T>>)
    requires size > 0
  {
    looks == [] || (AllSound(size, log, looks[..|looks| - 1]) && Sound(size, log, looks))
  }

  lemma OneMoreSound<T>(size: nat, log: seq<T>, looks: seq<Look<T>>, look: Look<T>)
    requires size > 0 && AllSound(size, log, looks) && ShowsLog(size, log, Reached(looks), look)
    ensures AllSound(size, log, looks + [look])
  {
    assert (looks + [look])[..|looks|] == looks;
  }

  /** This is what the loop asks of its script. */
  lemma {:induction false} EveryPrefixIsSound<T>(size: nat, log: seq<T>, looks: seq<Look<T>>, n: nat)
    requires size > 0 && AllSound(size, log, looks) && n <= |looks|
    ensures Sound(size, log, looks[..n])
  {
    if n == |looks| {
      assert looks[..n] == looks;
    } else {
      EveryPrefixIsSound(size, log, looks[..|looks| - 1], n);
      assert looks[..|looks| - 1][..n] == looks[..n];
    }
  }

  /** The state of a handler after some calls. */
  function Fold<S, T>(handler: Handler<S, T>, initial: S, calls: seq<Call<T>>): S {
    if calls == [] then initial
    else
      var last := calls[|calls| - 1];
      handler(Fold(handler, initial, calls[..|calls| - 1]), last.event, last.sequence, last.endOfBatch)
  }

  /** The handler does one call: what `observe` sees of its state gets longer by that call. */
  ghost predicate Records<S(!new), T(!new)>(handler: Handler<S, T>, observe: S -> seq<Call<T>>) {
    forall s, e, q, b :: observe(handler(s, e, q, b)) == observe(s) + [Call(q, e, b)]
  }

  /** A handler whose state shows its calls has got exactly the calls of the fold, in their order. */
  lemma {:induction false} FoldMakesItsCalls<S(!new), T(!new)>(
      handler: Handler<S, T>, initial: S, calls: seq<Call<T>>, observe: S -> seq<Call<T>>)
    requires Records(handler, observe)
    ensures observe(Fold(handler, initial, calls)) == observe(initial) + calls
  {
    if calls == [] {
    } else {
      var last := |calls| - 1;
      FoldMakesItsCalls(handler, initial, calls[..last], observe);
      assert calls == calls[..last] + [calls[last]];
    }
  }

  /** The handler has been called for `0..Reached`, in order, with the events of the log and the mark on
      the last one of each batch. */
  ghost predicate InOrder<T>(calls: seq<Call<T>>, log: seq<T>, looks: seq<Look<T>>) {
    && |calls| == Reached(looks) <= |log|
    && forall k :: 0 <= k < |calls| ==> calls[k] == Call(k, log[k], EndsBatch(looks, k))
  }

  /** `s` is the end of the last batch before `k`. */
  ghost predicate IsLastEnd<T>(looks: seq<Look<T>>, s: Sequence, k: Sequence) {
    && NONE <= s < k && (s == NONE || EndsBatch(looks, s))
    && forall j :: s < j < k ==> !EndsBatch(looks, j)
  }

  /** During each call the cursor was at the end of the batch before, so nothing of a batch is given
      up before all of it is handled. */
  ghost predicate CursorFollows<T>(cursors: seq<Sequence>, looks: seq<Look<T>>) {
    forall k :: 0 <= k < |cursors| ==> IsLastEnd(looks, cursors[k], k)
  }

  lemma CursorStillFollows<T>(
      cursors: seq<Sequence>, cursors': seq<Sequence>, looks: seq<Look<T>>, looks': seq<Look<T>>, available: Sequence)
    requires CursorFollows(cursors, looks) && |cursors| == Reached(looks) <= available < |cursors'| == available + 1
    requires cursors <= cursors' && forall k :: |cursors| <= k <= available ==> cursors'[k] == |cursors| - 1
    requires forall s :: EndsBatch(looks', s) <==> EndsBatch(looks, s) || s == available
    ensures CursorFollows(cursors', looks')
  {
    BatchesEndBefore(looks);
    forall k | 0 <= k < |cursors'| ensures IsLastEnd(looks', cursors'[k], k) {
      if k < |cursors| {
        assert IsLastEnd(looks, cursors[k], k);
      }
    }
  }

  lemma OneMoreBatch<T>(
      calls: seq<Call<T>>, calls': seq<Call<T>>, log: seq<T>, looks: seq<Look<T>>, looks': seq<Look<T>>,
      available: Sequence)
    requires InOrder(calls, log, looks) && |calls| <= available < |log|
    requires Reached(looks') == available + 1 == |calls'| && calls <= calls'
    requires forall k :: |calls| <= k <= available ==> calls'[k] == Call(k, log[k], k == available)
    requires forall s :: EndsBatch(looks', s) <==> EndsBatch(looks, s) || s == available
    ensures InOrder(calls', log, looks')
  {
    BatchesEndBefore(looks);
    forall k | 0 <= k < |calls'| ensures calls'[k] == Call(k, log[k], EndsBatch(looks', k)) {
      assert k < |calls| ==> calls'[k] == calls[k];
    }
  }

  lemma FollowsAtTheEnd<S(!new), T(!new)>(
      handler: Handler<S, T>, initial: S, calls: seq<Call<T>>,
      cursors: seq<Sequence>, looks: seq<Look<T>>, looks': seq<Look<T>>)
    requires CursorFollows(cursors, looks) && forall s :: EndsBatch(looks', s) <==> EndsBatch(looks, s)
    ensures CursorFollows(cursors, looks')
    ensures forall observe :: Records(handler, observe) ==>
              observe(Fold(handler, initial, calls)) == observe(initial) + calls
  {
    forall k | 0 <= k < |cursors| ensures IsLastEnd(looks', cursors[k], k) {
      assert IsLastEnd(looks, cursors[k], k);
    }
    forall observe | Records(handler, observe)
      ensures observe(Fold(handler, initial, calls)) == observe(initial) + calls
    {
      FoldMakesItsCalls(handler, initial, calls, observe);
    }
  }

  datatype Wait = Available(available: Sequence) | ShutDown | Waiting

  class Processor<T(!new)> {
    const size: nat
    const cursor: Cursor
    ghost const log: seq<T>
    /** The script, and how far it has come. */
    const looks: seq<Look<T>>
    var at: nat

    ghost predicate Valid()
      reads this
    {
      && size > 0 && at <= |looks|
      && forall i :: 0 <= i <= |looks| ==> Sound(size, log, looks[..i])
    }

    constructor (size: nat, cursor: Cursor, ghost log: seq<T>, looks: seq<Look<T>>)
      requires size > 0 && (forall i :: 0 <= i <= |looks| ==> Sound(size, log, looks[..i]))
      ensures Valid() && at == 0 && fresh(this)
      ensures this.size == size && this.cursor == cursor && this.log == log && this.looks == looks
    {
      this.size := size;
      this.cursor := cursor;
      this.log := log;
      this.looks := looks;
      at := 0;
    }

    /** Looks until there is something new, or until the end is reached. Looks that find nothing
        change nothing. */
    method WaitForEvents(sequence: Sequence) returns (r: Wait)
      requires Valid() && sequence == Reached(looks[..at]) && GoesOn(looks[..at])
      modifies `at
      ensures old(at) <= at <= |looks|
      ensures if r.ShutDown? then at > 0 && GoesOn(looks[..at - 1]) && Stops(looks[..at]) else GoesOn(looks[..at])
      ensures r.Available? ==>
        && old(at) < at && sequence <= r.available == looks[at - 1].available
        && Reached(looks[..at - 1]) == sequence && Reached(looks[..at]) == r.available + 1
        && forall s :: EndsBatch(looks[..at], s) <==> EndsBatch(looks[..old(at)], s) || s == r.available
      ensures !r.Available? ==>
        && Reached(looks[..at]) == sequence
        && forall s :: EndsBatch(looks[..at], s) <==> EndsBatch(looks[..old(at)], s)
      ensures r.Waiting? ==> at == |looks|
    {
      while at < |looks|
        invariant old(at) <= at <= |looks| && Reached(looks[..at]) == sequence
        invariant GoesOn(looks[..at])
        invariant forall s :: EndsBatch(looks[..at], s) <==> EndsBatch(looks[..old(at)], s)
      {
        var look := looks[at];
        assert looks[..at + 1][..at] == looks[..at];
        at := at + 1;
        if look.available >= sequence {
          return Available(look.available);
        }
        if look.shutdownAt == sequence {
          return ShutDown;
        }
      }
      r := Waiting;
    }

    /** Handles the events `sequence..available`, with the cursor right before them. `cursors` is where
        the cursor was during each call. */
    method HandleBatch<S>(
        handler: Handler<S, T>, state: S, calls: seq<Call<T>>, ghost cursors: seq<Sequence>,
        available: Sequence, slots: seq<T>)
        returns (state': S, calls': seq<Call<T>>, ghost cursors': seq<Sequence>)
      requires size > 0 && |slots| == size && |cursors| == |calls| <= available < |log|
      requires cursor.counter == |calls| - 1
      requires forall s :: |calls| <= s <= available ==> slots[Slot(size, s)] == log[s]
      ensures |calls'| == |cursors'| == available + 1 && calls <= calls' && cursors <= cursors'
      ensures forall k :: |calls| <= k <= available ==> cursors'[k] == |calls| - 1
      ensures forall k :: |calls| <= k <= available ==> calls'[k] == Call(k, log[k], k == available)
      ensures forall initial :: state == Fold(handler, initial, calls) ==> state' == Fold(handler, initial, calls')
    {
      state', calls', cursors' := state, calls, cursors;
      var sequence := |calls|;
      while available >= sequence
        invariant |calls| <= sequence == |calls'| == |cursors'| <= available + 1
        invariant calls <= calls' && cursors <= cursors'
        invariant forall k :: |calls| <= k < sequence ==> cursors'[k] == |calls| - 1
        invariant forall k :: |calls| <= k < sequence ==> calls'[k] == Call(k, log[k], k == available)
        invariant forall initial :: state == Fold(handler, initial, calls) ==> state' == Fold(handler, initial, calls')
      {
        var endOfBatch := available == sequence;
        var event := slots[Slot(size, sequence)];
        state' := handler(state', event, sequence, endOfBatch);
        ghost var before := calls';
        calls' := calls' + [Call(sequence, event, endOfBatch)];
        cursors' := cursors' + [cursor.counter];
        assert calls'[..|calls'| - 1] == before;
        sequence := sequence + 1;
      }
    }

    /** The body of the thread, up to its exit or to the end of the script. The cursor follows batch by
        batch, and the thread exits at the first look that stops it, with the whole log handled. */
    method Run<S(!new)>(handler: Handler<S, T>, initial: S)
        returns (state: S, calls: seq<Call<T>>, ended: bool, ghost cursors: seq<Sequence>)
      requires Valid() && at == 0 && cursor.counter == NONE
      modifies `at, cursor
      ensures at <= |looks| && InOrder(calls, log, looks[..at]) && cursor.counter == |calls| - 1
      ensures |cursors| == |calls| && CursorFollows(cursors, looks[..at])
      ensures state == Fold(handler, initial, calls)
      ensures forall observe :: Records(handler, observe) ==> observe(state) == observe(initial) + calls
      ensures if ended then at > 0 && GoesOn(looks[..at - 1]) && Stops(looks[..at]) && |calls| == |log|
              else at == |looks| && GoesOn(looks[..at])
    {
      state, calls, ended, cursors := initial, [], false, [];
      var sequence := 0;
      while true
        invariant at <= |looks| && InOrder(calls, log, looks[..at])
        invariant sequence == |calls| == cursor.counter + 1
        invariant |cursors| == |calls| && CursorFollows(cursors, looks[..at])
        invariant state == Fold(handler, initial, calls)
        invariant GoesOn(looks[..at])
        decreases |looks| - at
      {
        ghost var seen := at;
        var r := WaitForEvents(sequence);
        match r
        case Waiting =>
          FollowsAtTheEnd(handler, initial, calls, cursors, looks[..seen], looks[..at]);
          return;
        case ShutDown =>
          ended := true;
          FollowsAtTheEnd(handler, initial, calls, cursors, looks[..seen], looks[..at]);
          assert Sound(size, log, looks[..at]);
          return;
        case Available(available) =>
          assert Sound(size, log, looks[..at]);
          assert looks[..at][..at - 1] == looks[..at - 1];
          ghost var (before, passed) := (calls, cursors);
          state, calls, cursors := HandleBatch(handler, state, calls, cursors, available, looks[at - 1].slots);
          OneMoreBatch(before, calls, log, looks[..seen], looks[..at], available);
          CursorStillFollows(passed, cursors, looks[..seen], looks[..at], available);
          sequence := available + 1;
          cursor.Store(sequence - 1);
      }
    }
  }
}
