/** The disruptor as a system of actors that share memory and take turns, one atomic operation at a
    time.

    Between two atomic operations an actor only holds local values, which may be stale. A step below
    is at most one load, store, compare-and-swap or XOR of shared memory, with the local computation
    that follows it. `Mode` tells the single-producer from the multi-producer disruptor: the first
    publishes by storing a cursor, the second by flipping availability bits. */
module Protocol {
  import opened Bits
  import opened Indexing
  import opened Availability
  import opened Cursors
  import opened Topology
  import Rings

  /** The contents of a slot. */
  type Event = int

  datatype Mode = Uni | Multi

  /** `managed[i]` tells whether consumer `i` is a handler on a thread of the disruptor or a poller. */
  datatype Config = Config(mode: Mode, size: nat, wiring: Wiring, managed: seq<bool>)
  {
    function Consumers(): nat { |wiring.dependencies| }
  }

  ghost predicate ValidConfig(c: Config) {
    ValidSize(c) && WellWired(c.wiring)
  }

  ghost predicate ValidSize(c: Config) {
    && IsPowerOfTwo(c.size) && c.size > 0
    && (c.mode.Multi? ==> c.size >= 64)
    && |c.managed| == c.Consumers()
  }

  // ---- producers ----

  /** What the last call on a handle returned. */
  datatype Outcome = NoCall | Published(upper: Sequence) | MissingFreeSlots(missing: int)

  datatype ProducerPc =
    | Idle(last: Outcome)
      // In `next_sequences`: `current` has been read.
    | Check(n: nat, current: Sequence)
      // The first `i` cursors of the gate have been read; `low` is the least of them.
    | Gate(n: nat, current: Sequence, i: nat, low: Low)
    | Claim(n: nat, current: Sequence)
      // The closure of the caller has the slots of `lower..upper`.
    | Writing(lower: Sequence, upper: Sequence)
      // `next..upper` are still to be published.
    | Publishing(next: Sequence, upper: Sequence)
      // The last handle is being dropped.
    | Closing
    | ClosingAt(end: Sequence)
    | Joining
    | Gone

  /** `clear` is `sequence_clear_of_consumers`. */
  datatype Producer = Producer(pc: ProducerPc, clear: Sequence)

  // ---- consumers ----

  /** One call of an event handler, or one event yielded by a guard. */
  datatype Call = Call(sequence: Sequence, event: Event, endOfBatch: bool)

  datatype Limit = Unlimited | AtMost(n: nat)

  datatype PollResult = NotPolled | NoEvents | Shutdown | Released

  /** The locals of the scan of the availability bits. */
  datatype Scan = Scan(availability: nat, bitIndex: nat, flag: bool, highest: Sequence)

  datatype ConsumerPc =
      // A poller between two calls.
    | Resting(last: PollResult)
      // About to ask its barrier.
    | Ready(limit: Limit)
    | Folding(limit: Limit, k: nat, low: Low)
    | Scanning(limit: Limit, scan: Scan)
    | Found(limit: Limit, available: Sequence)
      // Nothing was available: about to look at the shutdown sequence.
    | Doubting
      // A batch, or the guard of a poller: `next..available` are still to be read.
    | Reading(next: Sequence, available: Sequence)
    | Exited

  datatype Consumer = Consumer(pc: ConsumerPc, seen: seq<Call>)

  // ---- states ----

  datatype State = State(
    // Shared memory. `claimed` is the cursor of the multi-producer barrier; with a single producer it
    // is the highest sequence that the producer has handed to a closure, a local value.
    claimed: Sequence,
    // The cursor of the single-producer barrier.
    cursor: Sequence,
    words: seq<Word>,
    slots: seq<Event>,
    cursors: seq<Sequence>,
    shutdownAt: Sequence,
    handles: int,
    // Actors.
    producers: seq<Producer>,
    consumers: seq<Consumer>,
    // History: for every claimed sequence the contents of its slot, who claimed it, and whether it
    // has been published.
    log: seq<Event>,
    owner: seq<nat>,
    published: seq<bool>)

  predicate Init(c: Config, s: State) {
    && s.claimed == NONE && s.cursor == NONE && s.shutdownAt == NONE && s.handles == 1
    && s.words == seq(c.size / 64, _ => ALL_ONES)
    && |s.slots| == c.size
    && s.cursors == seq(c.Consumers(), _ => NONE)
    && s.producers == [Producer(Idle(NoCall), c.size - 1)]
    && |c.managed| == c.Consumers()
    && s.consumers == seq(c.Consumers(), i requires 0 <= i < |c.managed| =>
         Consumer(if c.managed[i] then Ready(Unlimited) else Resting(NotPolled), []))
    && s.log == [] && s.owner == [] && s.published == []
  }

  predicate Live(pc: ProducerPc) {
    !(pc.Closing? || pc.ClosingAt? || pc.Joining? || pc.Gone?)
  }

  // ---- steps ----

  datatype Step =
    | Begin(p: nat, n: nat)
    | CheckClear(p: nat)
    | LoadGate(p: nat)
    | Decide(p: nat)
    | Exchange(p: nat)
    | Write(p: nat, at: Sequence, event: Event)
    | Flush(p: nat)
    | FlipBits(p: nat)
    | StoreCursor(p: nat)
    | Return(p: nat)
    | Clone(p: nat)
    | Drop(p: nat)
    | LoadEnd(p: nat)
    | StoreEnd(p: nat)
    | Join(p: nat)
    | Poll(i: nat, limit: Limit)
    | Look(i: nat)
    | LoadGroup(i: nat)
    | Test(i: nat)
    | Settle(i: nat)
    | CheckEnd(i: nat)
    | Handle(i: nat)
    | Advance(i: nat)

  predicate IsProducerStep(t: Step) {
    !(t.Poll? || t.Look? || t.LoadGroup? || t.Test? || t.Settle? || t.CheckEnd? || t.Handle? || t.Advance?)
  }

  function WithPc(s: State, p: nat, pc: ProducerPc): State
    requires p < |s.producers|
  {
    s.(producers := s.producers[p := s.producers[p].(pc := pc)])
  }

  function WithConsumerPc(s: State, i: nat, pc: ConsumerPc): State
    requires i < |s.consumers|
  {
    s.(consumers := s.consumers[i := s.consumers[i].(pc := pc)])
  }

  /** The last sequence of the chunk that the next XOR publishes: up to the end of the word. */
  function ChunkEnd(size: nat, next: Sequence, upper: Sequence): (e: Sequence)
    requires size > 0 && next <= upper
    ensures next <= e <= upper && BitOf(size, next) + (e - next) < 64
    ensures e == upper || BitOf(size, next) + (e - next) == 63
  {
    var last := next + (63 - BitOf(size, next));
    if last < upper then last else upper
  }

  function Mark(published: seq<bool>, from: nat, to: int): (r: seq<bool>)
    requires to < |published|
    ensures |r| == |published|
    ensures forall s :: 0 <= s < |r| ==> r[s] == (published[s] || from <= s <= to)
  {
    seq(|published|, s requires 0 <= s < |published| => published[s] || from <= s <= to)
  }

  /** The slots that a claim hands over still hold what was there before. */
  function Inherited(size: nat, slots: seq<Event>, from: Sequence, n: nat): (r: seq<Event>)
    requires size > 0 && |slots| == size
    ensures |r| == n
    ensures forall k :: 0 <= k < n ==> r[k] == slots[Slot(size, from + k)]
  {
    seq(n, k requires 0 <= k < n => slots[Slot(size, from + k)])
  }

  /** The compare-and-swap has succeeded: the sequences after `current` are claimed. */
  function Claimed(size: nat, s: State, p: nat, current: Sequence, n: nat): State
    requires p < |s.producers| && size > 0 && |s.slots| == size
  {
    s.(claimed := current + n,
       producers := s.producers[p := s.producers[p].(pc := Writing(current + 1, current + n))],
       log := s.log + Inherited(size, s.slots, current + 1, n),
       owner := s.owner + seq(n, _ => p),
       published := s.published + seq(n, _ => false))
  }

  /** An XOR has published `next..e`. */
  function Flipped(size: nat, s: State, p: nat, next: nat, e: Sequence, upper: Sequence): State
    requires p < |s.producers| && Fits(s.words, size) && next <= e < |s.published|
    requires BitOf(size, next) + (e - next) < 64
  {
    s.(producers := s.producers[p := s.producers[p].(pc := Publishing(e + 1, upper))],
       words := FlipChunk(s.words, size, next, e - next + 1),
       published := Mark(s.published, next, e))
  }

  predicate ProducerEnabled(c: Config, s: State, t: Step)
    requires IsProducerStep(t)
  {
    && t.p < |s.producers|
    && c.size > 0
    && var pc := s.producers[t.p].pc;
    match t
    case Begin(_, n) => pc.Idle?
    case CheckClear(_) => pc.Check?
    case LoadGate(_) => pc.Gate? && pc.i < |c.wiring.gate| && c.wiring.gate[pc.i] < |s.cursors|
    case Decide(_) => pc.Gate? && pc.i == |c.wiring.gate| && pc.low.Fin?
    case Exchange(_) => pc.Claim? && |s.slots| == c.size
    case Write(_, at, _) => pc.Writing? && pc.lower <= at <= pc.upper && 0 <= at < |s.log| && |s.slots| == c.size
    case Flush(_) => pc.Writing?
    case FlipBits(_) =>
      && c.mode.Multi? && pc.Publishing? && 0 <= pc.next <= pc.upper
      && Fits(s.words, c.size) && pc.upper < |s.published|
    case StoreCursor(_) => c.mode.Uni? && pc.Publishing? && 0 <= pc.next && pc.upper < |s.published|
    case Return(_) => c.mode.Multi? && pc.Publishing? && pc.next > pc.upper
    case Clone(_) => c.mode.Multi? && pc.Idle?
    case Drop(_) => pc.Idle?
    case LoadEnd(_) => pc.Closing?
    case StoreEnd(_) => pc.ClosingAt?
    case Join(_) =>
      && pc.Joining? && |c.managed| == |s.consumers|
      && forall i :: 0 <= i < |s.consumers| && c.managed[i] ==> s.consumers[i].pc.Exited?
  }

  /** A step of a producer changes nothing of consumers, and of other producers only their number. */
  function ProducerNext(c: Config, s: State, t: Step): (s': State)
    requires IsProducerStep(t) && ProducerEnabled(c, s, t)
    ensures s'.consumers == s.consumers && s'.cursors == s.cursors
    ensures |s.producers| <= |s'.producers|
    ensures forall q :: 0 <= q < |s.producers| && q != t.p ==> s'.producers[q] == s.producers[q]
  {
    var me := s.producers[t.p];
    var pc := me.pc;
    match t
    case Begin(p, n) => WithPc(s, p, Check(n, s.claimed))
    case CheckClear(p) =>
      WithPc(s, p, if me.clear < pc.current + pc.n then Gate(pc.n, pc.current, 0, Top) else Claim(pc.n, pc.current))
    case LoadGate(p) =>
      WithPc(s, p, Gate(pc.n, pc.current, pc.i + 1, Lower(pc.low, s.cursors[c.wiring.gate[pc.i]])))
    case Decide(p) =>
      var free := Rings.FreeSlots(c.size, pc.current, pc.low.value);
      if free < pc.n then WithPc(s, p, Idle(MissingFreeSlots(pc.n - free)))
      else s.(producers := s.producers[p := Producer(Claim(pc.n, pc.current), pc.current + free)])
    case Exchange(p) =>
      if c.mode.Multi? && s.claimed != pc.current then WithPc(s, p, Check(pc.n, s.claimed))
      else Claimed(c.size, s, p, pc.current, pc.n)
    case Write(p, at, event) => s.(slots := s.slots[Slot(c.size, at) := event], log := s.log[at := event])
    case Flush(p) => WithPc(s, p, Publishing(pc.lower, pc.upper))
    case FlipBits(p) =>
      var e := ChunkEnd(c.size, pc.next, pc.upper);
      Flipped(c.size, s, p, pc.next, e, pc.upper)
    case StoreCursor(p) =>
      WithPc(s, p, Idle(Published(pc.upper)))
        .(cursor := pc.upper, published := Mark(s.published, pc.next, pc.upper))
    case Return(p) => WithPc(s, p, Idle(Published(pc.upper)))
    case Clone(p) => s.(producers := s.producers + [Producer(Idle(NoCall), 0)], handles := s.handles + 1)
    case Drop(p) => WithPc(s, p, if s.handles == 1 then Closing else Gone).(handles := s.handles - 1)
    case LoadEnd(p) => WithPc(s, p, ClosingAt(s.claimed + 1))
    case StoreEnd(p) => WithPc(s, p, Joining).(shutdownAt := pc.end)
    case Join(p) => WithPc(s, p, Gone)
  }

  // ---- steps of consumers ----

  /** The first load of `get_after(sequence)` on the availability bits. */
  function StartScan(words: seq<Word>, size: nat, sequence: Sequence): Scan
    requires Fits(words, size)
  {
    var bitIndex := BitOf(size, sequence);
    Scan(ShiftRight(words[WordOf(size, sequence)], bitIndex), bitIndex, Flag(size, sequence), sequence)
  }

  /** One more published bit: move on to the next bit, or load the next word. */
  function NextBit(words: seq<Word>, size: nat, scan: Scan): Scan
    requires Fits(words, size)
  {
    var highest := scan.highest + 1;
    if scan.bitIndex < 63 then Scan(ShiftRight(scan.availability, 1), scan.bitIndex + 1, scan.flag, highest)
    else
      var w := WordOf(size, highest);
      Scan(words[w], 0, if w == 0 then !scan.flag else scan.flag, highest)
  }

  function Capped(limit: Limit, cursor: Sequence, available: Sequence): Sequence {
    if limit.AtMost? && cursor + limit.n < available then cursor + limit.n else available
  }

  predicate ConsumerEnabled(c: Config, s: State, t: Step)
    requires !IsProducerStep(t)
  {
    && t.i < |s.consumers|
    && |s.consumers| == |s.cursors| == |c.managed| == c.Consumers()
    && c.size > 0
    && var pc := s.consumers[t.i].pc;
    var dependency := c.wiring.dependencies[t.i];
    match t
    case Poll(i, _) => !c.managed[i] && pc.Resting?
    case Look(i) => pc.Ready? && (dependency.OnProducer? && c.mode.Multi? ==> Fits(s.words, c.size))
    case LoadGroup(i) =>
      && pc.Folding? && dependency.OnGroup? && pc.k <= |dependency.group|
      && (pc.k < |dependency.group| ==> dependency.group[pc.k] < |s.cursors|)
      && (pc.k == |dependency.group| ==> pc.low.Fin?)
    case Test(i) => pc.Scanning? && Fits(s.words, c.size)
    case Settle(i) => pc.Found?
    case CheckEnd(i) => pc.Doubting?
    case Handle(i) => pc.Reading? && pc.next <= pc.available && |s.slots| == c.size
    case Advance(i) => pc.Reading? && (c.managed[i] ==> pc.next > pc.available)
  }

  /** A step of a consumer changes nothing but its own state and cursor. */
  function ConsumerNext(c: Config, s: State, t: Step): (s': State)
    requires !IsProducerStep(t) && ConsumerEnabled(c, s, t)
    ensures s' == s.(consumers := s'.consumers, cursors := s'.cursors)
    ensures |s'.consumers| == |s.consumers| && s'.consumers == s.consumers[t.i := s'.consumers[t.i]]
    ensures |s'.cursors| == |s.cursors| && s'.cursors == s.cursors[t.i := s'.cursors[t.i]]
  {
    var me := s.consumers[t.i];
    var pc := me.pc;
    // The consumer is the only writer of its cursor; a handler keeps `cursor + 1` in a local variable.
    var cursor := s.cursors[t.i];
    var dependency := c.wiring.dependencies[t.i];
    match t
    case Poll(i, limit) =>
      WithConsumerPc(s, i, if cursor + 1 == s.shutdownAt then Resting(Shutdown) else Ready(limit))
    case Look(i) =>
      WithConsumerPc(s, i,
        if dependency.OnGroup? then Folding(pc.limit, 0, Top)
        else if c.mode.Uni? then Found(pc.limit, s.cursor)
        else Scanning(pc.limit, StartScan(s.words, c.size, cursor + 1)))
    case LoadGroup(i) =>
      WithConsumerPc(s, i,
        if pc.k < |dependency.group|
        then Folding(pc.limit, pc.k + 1, Lower(pc.low, s.cursors[dependency.group[pc.k]]))
        else Found(pc.limit, pc.low.value))
    case Test(i) =>
      WithConsumerPc(s, i,
        if Bit(pc.scan.availability, 0) != pc.scan.flag then Found(pc.limit, pc.scan.highest - 1)
        else Scanning(pc.limit, NextBit(s.words, c.size, pc.scan)))
    case Settle(i) =>
      WithConsumerPc(s, i,
        if pc.available >= cursor + 1 then Reading(cursor + 1, Capped(pc.limit, cursor, pc.available))
        else if c.managed[i] then Doubting
        else Resting(NoEvents))
    case CheckEnd(i) => WithConsumerPc(s, i, if s.shutdownAt == cursor + 1 then Exited else Ready(Unlimited))
    case Handle(i) =>
      var call := Call(pc.next, s.slots[Slot(c.size, pc.next)], pc.next == pc.available);
      s.(consumers := s.consumers[i := Consumer(Reading(pc.next + 1, pc.available), me.seen + [call])])
    case Advance(i) =>
      WithConsumerPc(s, i, if c.managed[i] then Ready(Unlimited) else Resting(Released))
        .(cursors := s.cursors[i := pc.available])
  }

  // ---- runs ----

  predicate Enabled(c: Config, s: State, t: Step) {
    if IsProducerStep(t) then ProducerEnabled(c, s, t) else ConsumerEnabled(c, s, t)
  }

  function Next(c: Config, s: State, t: Step): State
    requires Enabled(c, s, t)
  {
    if IsProducerStep(t) then ProducerNext(c, s, t) else ConsumerNext(c, s, t)
  }

  predicate IsStep(c: Config, states: seq<State>, steps: seq<Step>, k: nat)
    requires k < |steps| && |states| == |steps| + 1
  {
    Enabled(c, states[k], steps[k]) && states[k + 1] == Next(c, states[k], steps[k])
  }

  /** A run: the states before, between and after the given steps. */
  predicate IsRun(c: Config, states: seq<State>, steps: seq<Step>) {
    && |states| == |steps| + 1
    && forall k :: 0 <= k < |steps| ==> IsStep(c, states, steps, k)
  }

  ghost predicate Reachable(c: Config, s: State) {
    exists states: seq<State>, steps: seq<Step> ::
      IsRun(c, states, steps) && Init(c, states[0]) && states[|steps|] == s
  }
}
