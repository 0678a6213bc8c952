/** The scan of the availability bits misses nothing, although producers flip bits meanwhile. */
module ScanRuns {
  import opened Bits
  import opened Indexing
  import opened Protocol
  import opened Invariant
  import opened Safety
  import opened Runs

  /** All bits of sequences up to `q` in the copied word read as published. */
  ghost predicate SeesUpTo(scan: Scan, q: Sequence) {
    forall j: nat {:trigger Bit(scan.availability, j)} ::
      j < 64 - scan.bitIndex && scan.highest + j <= q ==> Bit(scan.availability, j) == scan.flag
  }

  /** A word that is loaded now shows what is published. */
  lemma LoadedBitIsSet(c: Config, s: State, i: nat, h: Sequence, j: nat)
    requires Inv(c, s) && c.mode.Multi? && i < |s.cursors|
    requires s.cursors[i] < h && h + j <= s.cursors[i] + c.size && BitOf(c.size, h) + j < 64
    requires PublishedUpTo(s.published, h + j)
    ensures Bit(s.words[WordOf(c.size, h)], BitOf(c.size, h) + j) == Flag(c.size, h)
  {
    WithinWord(c.size, h, j);
    BitTellsPublication(c, s, i, h + j);
  }

  lemma StartSees(c: Config, s: State, i: nat, q: Sequence)
    requires Inv(c, s) && c.mode.Multi? && i < |s.cursors|
    requires PublishedUpTo(s.published, q) && q <= s.cursors[i] + c.size
    ensures SeesUpTo(StartScan(s.words, c.size, s.cursors[i] + 1), q)
  {
    var h := s.cursors[i] + 1;
    var scan := StartScan(s.words, c.size, h);
    forall j: nat | j < 64 - scan.bitIndex && h + j <= q
      ensures Bit(scan.availability, j) == scan.flag
    {
      BitOfShifted(s.words[WordOf(c.size, h)], scan.bitIndex, j);
      LoadedBitIsSet(c, s, i, h, j);
    }
  }

  lemma NextSees(c: Config, s: State, i: nat, scan: Scan, q: Sequence)
    requires Inv(c, s) && c.mode.Multi? && i < |s.cursors| && ScanOk(c.size, scan, s.cursors[i], s.published)
    requires PublishedUpTo(s.published, q) && q <= s.cursors[i] + c.size && SeesUpTo(scan, q)
    ensures SeesUpTo(NextBit(s.words, c.size, scan), q)
  {
    var next := NextBit(s.words, c.size, scan);
    forall j: nat | j < 64 - next.bitIndex && next.highest + j <= q
      ensures Bit(next.availability, j) == next.flag
    {
      if scan.bitIndex < 63 {
        BitOfShifted(scan.availability, 1, j);
        assert Bit(next.availability, j) == Bit(scan.availability, j + 1);
      } else {
        NextWord(c.size, scan.highest);
        LoadedBitIsSet(c, s, i, next.highest, j);
      }
    }
  }

  /** What a scan that has seen everything up to `q` may become in one step of anybody. */
  ghost predicate StillSees(pc: ConsumerPc, q: Sequence) {
    match pc
    case Scanning(_, scan) => SeesUpTo(scan, q)
    case Found(_, available) => q <= available
    case _ => false
  }

  lemma TestSees(c: Config, s: State, i: nat, q: Sequence)
    requires Inv(c, s) && ConsumerEnabled(c, s, Test(i))
    requires PublishedUpTo(s.published, q) && q <= s.cursors[i] + c.size && SeesUpTo(s.consumers[i].pc.scan, q)
    ensures var s' := ConsumerNext(c, s, Test(i));
      s'.cursors == s.cursors && StillSees(s'.consumers[i].pc, q)
  {
    var pc := s.consumers[i].pc;
    assert ConsumerOk(c, i, pc, s.cursors, s.published);
    if Bit(pc.scan.availability, 0) == pc.scan.flag {
      NextSees(c, s, i, pc.scan, q);
    } else {
      assert pc.scan.highest + 0 > q;
    }
  }

  /** The consumer started a scan with step `a` and is not further than its end. */
  ghost predicate IsScanOf(c: Config, states: seq<State>, steps: seq<Step>, a: nat, b: nat, i: nat) {
    && IsRun(c, states, steps) && a < b <= |steps| && steps[a] == Look(i) && c.mode.Multi?
    && i < c.Consumers() && c.wiring.dependencies[i].OnProducer?
    && forall j :: a < j < b ==> i < |states[j].consumers| && states[j].consumers[i].pc.Scanning?
  }

  lemma {:induction false} ScanSees(
      c: Config, states: seq<State>, steps: seq<Step>, a: nat, b: nat, i: nat, q: Sequence)
    requires IsScanOf(c, states, steps, a, b, i) && Inv(c, states[0])
    requires i < |states[a].cursors| && PublishedUpTo(states[a].published, q) && q <= states[a].cursors[i] + c.size
    ensures i < |states[b].consumers| && StillSees(states[b].consumers[i].pc, q)
    ensures i < |states[b].cursors| && states[b].cursors[i] == states[a].cursors[i]
    decreases b
  {
    RunHolds(c, states, steps, b - 1);
    assert IsStep(c, states, steps, b - 1);
    if b == a + 1 {
      StartSees(c, states[a], i, q);
    } else {
      ScanSees(c, states, steps, a, b - 1, i, q);
      RunIsLater(c, states, steps, a, b - 1);
      if steps[b - 1] == Test(i) {
        TestSees(c, states[b - 1], i, q);
      }
    }
  }

  /** A scan returns at least everything that was published when it started, up to a lap after the
      cursor, and whatever it returns is published when it ends. */
  lemma ScanIsComplete(c: Config, states: seq<State>, steps: seq<Step>, a: nat, b: nat, i: nat, q: Sequence)
    requires ValidConfig(c) && IsScanOf(c, states, steps, a, b, i) && Init(c, states[0])
    requires i < |states[a].cursors| && PublishedUpTo(states[a].published, q) && q <= states[a].cursors[i] + c.size
    requires i < |states[b].consumers| && states[b].consumers[i].pc.Found?
    ensures q <= states[b].consumers[i].pc.available
    ensures PublishedUpTo(states[b].published, states[b].consumers[i].pc.available)
  {
    InitHolds(c, states[0]);
    ScanSees(c, states, steps, a, b, i, q);
    RunHolds(c, states, steps, b);
    assert ConsumerOk(c, i, states[b].consumers[i].pc, states[b].cursors, states[b].published);
  }
}
