/** The scan of the availability bits: where it has to start, and what it returns over fixed words. */
module Scans {
  import opened Bits
  import opened Indexing
  import opened Availability
  import opened BitScans
  import opened Protocol
  import opened Invariant
  import opened Safety
  import opened Topology
  import opened Progress
  import opened Completion
  import opened Requests

  /** A scan that starts at the cursor of a consumer, instead of right after it, gives the same answer
      exactly if the sequence one lap after the cursor is not published; otherwise it takes back even
      the cursor. */
  lemma ScanFromCursor(c: Config, s: State, i: nat, early: Sequence, right: Sequence)
    requires ValidConfig(c) && c.mode.Multi? && Reachable(c, s) && i < |s.cursors| && Fits(s.words, c.size)
    requires IsScanResult(s.words, c.size, s.cursors[i], early)
    requires IsScanResult(s.words, c.size, s.cursors[i] + 1, right)
    ensures early == right <==> !PublishedIn(s, s.cursors[i] + c.size)
    ensures PublishedIn(s, s.cursors[i] + c.size) ==> early == s.cursors[i] - 1
  {
    ReachableHolds(c, s);
    CursorAgrees(c, s, i);
    OneEarlier(s.words, c.size, s.cursors[i], early, right);
  }

  /** The bit of the cursor still reads as published exactly if the sequence one lap after it is not. */
  lemma CursorAgrees(c: Config, s: State, i: nat)
    requires Inv(c, s) && c.mode.Multi? && i < |s.cursors|
    ensures Agrees(s.words, c.size, s.cursors[i]) <==> !PublishedIn(s, s.cursors[i] + c.size)
  {
    BitTellsPublication(c, s, i, s.cursors[i] + c.size);
    LapDisagrees(s.words, c.size, s.cursors[i]);
  }

  /** A scan from any cursor takes back even the cursor, and a scan from right after it finds a lap. */
  ghost predicate EarlyScansFail(size: nat, words: seq<Word>, cursors: seq<Sequence>)
    requires Fits(words, size)
  {
    forall i :: 0 <= i < |cursors| ==>
      IsScanResult(words, size, cursors[i], cursors[i] - 1) && IsScanResult(words, size, cursors[i] + 1, cursors[i] + size)
  }

  /** If nobody stands still: from every reachable state with a live handle, a run leads to a state in which every scan from the
      cursor of a consumer takes back that cursor, and every scan from right after it finds a full lap. */
  lemma EarlyScansFailInRuns(c: Config, s: State, p: nat) returns (steps: seq<Step>)
    requires ValidConfig(c) && c.mode.Multi? && Reachable(c, s) && p < |s.producers| && Live(s.producers[p].pc)
    ensures Legal(c, s, steps)
    ensures var s' := After(c, s, steps);
      Reachable(c, s') && Fits(s'.words, c.size) && EarlyScansFail(c.size, s'.words, s'.cursors)
  {
    steps := ProducersCanBeALapAhead(c, s, p);
    ReachableHolds(c, After(c, s, steps));
    AllScansALapAhead(c, After(c, s, steps));
  }

  lemma AllScansALapAhead(c: Config, s: State)
    requires Inv(c, s) && c.mode.Multi? && LapPublished(c, s)
    ensures EarlyScansFail(c.size, s.words, s.cursors)
  {
    forall i: nat | i < |s.cursors|
      ensures IsScanResult(s.words, c.size, s.cursors[i], s.cursors[i] - 1)
      ensures IsScanResult(s.words, c.size, s.cursors[i] + 1, s.cursors[i] + c.size)
    {
      ScansALapAhead(c, s, i);
    }
  }

  lemma ScansALapAhead(c: Config, s: State, i: nat)
    requires Inv(c, s) && c.mode.Multi? && i < |s.cursors|
    requires forall q :: s.cursors[i] < q <= s.cursors[i] + c.size ==> PublishedIn(s, q)
    ensures IsScanResult(s.words, c.size, s.cursors[i], s.cursors[i] - 1)
    ensures IsScanResult(s.words, c.size, s.cursors[i] + 1, s.cursors[i] + c.size)
  {
    var cursor := s.cursors[i];
    forall q | cursor < q <= cursor + c.size
      ensures Agrees(s.words, c.size, q)
    {
      BitTellsPublication(c, s, i, q);
      assert PublishedIn(s, q);
    }
    LapDisagrees(s.words, c.size, cursor);
    LapDisagrees(s.words, c.size, cursor + 1);
    assert cursor + 1 + c.size == cursor + c.size + 1;
  }

  /** In some continuation by the actors that do not stand still, the consumer stays where it is and a
      scan from its cursor takes back even the cursor. */
  ghost predicate EarlyScanCanFail(c: Config, s: State, still: Still, i: nat)
    requires i < |s.cursors|
  {
    exists steps :: Legal(c, s, steps) && AllLeaveAlone(still, steps) && EarlyScanFails(c, s, After(c, s, steps), i)
  }

  ghost predicate EarlyScanFails(c: Config, s: State, s': State, i: nat)
    requires i < |s.cursors|
  {
    && i < |s'.cursors| && s'.cursors[i] == s.cursors[i]
    && Fits(s'.words, c.size) && IsScanResult(s'.words, c.size, s'.cursors[i], s'.cursors[i] - 1)
  }

  lemma EarlyScanFailsWhenLapped(c: Config, s: State, s': State, i: nat)
    requires Inv(c, s') && c.mode.Multi? && i < |s.cursors|
    ensures EarlyScanFails(c, s, s', i) <==> IsLapped(c, s, s', i)
  {
    if i < |s'.cursors| {
      CursorAgrees(c, s', i);
    }
  }

  /** Scanning from the cursor instead of right after it can come to fail if and only if no consumer that
      stands still is further behind, and the sequence one lap after the cursor is not held back. */
  lemma EarlyScanFailsExactly(c: Config, s: State, still: Still, p: nat, i: nat)
    requires ValidConfig(c) && c.mode.Multi? && Reachable(c, s) && i < |s.cursors|
    requires p < |s.producers| && s.producers[p].pc.Idle? && p !in still.producers
    ensures EarlyScanCanFail(c, s, still, i) <==> NobodyIsFurtherBehind(s, still, i, s.cursors[i] + c.size)
  {
    ReachableHolds(c, s);
    LappedExactly(c, s, still, p, i);
    if CanBeLapped(c, s, still, i) {
      var steps :| Legal(c, s, steps) && AllLeaveAlone(still, steps) && IsLapped(c, s, After(c, s, steps), i);
      LegalIsLater(c, s, steps);
      EarlyScanFailsWhenLapped(c, s, After(c, s, steps), i);
    }
    if EarlyScanCanFail(c, s, still, i) {
      var steps :| Legal(c, s, steps) && AllLeaveAlone(still, steps) && EarlyScanFails(c, s, After(c, s, steps), i);
      LegalIsLater(c, s, steps);
      EarlyScanFailsWhenLapped(c, s, After(c, s, steps), i);
    }
  }

  /** In particular there is such a disruptor: one handle, one handler, 64 slots. */
  lemma EarlyScansDoFail() returns (c: Config, s: State)
    ensures ValidConfig(c) && c.mode.Multi? && Reachable(c, s) && |s.cursors| == 1 && Fits(s.words, c.size)
    ensures PublishedIn(s, s.cursors[0] + c.size)
    ensures IsScanResult(s.words, c.size, s.cursors[0], s.cursors[0] - 1)
  {
    var start: State;
    c, start := Smallest();
    var steps := ProducersCanBeALapAhead(c, start, 0);
    s := After(c, start, steps);
    ReachableHolds(c, s);
    AllScansALapAhead(c, s);
  }

  lemma Smallest() returns (c: Config, start: State)
    ensures ValidConfig(c) && c.mode.Multi? && c.Consumers() == 1 && Init(c, start) && Reachable(c, start)
  {
    c := Config(Multi, 64, Wiring([OnProducer], [0]), [true]);
    assert Pow2(6) == 64;
    start := State(
      NONE, NONE, seq(1, _ => ALL_ONES), seq(64, _ => 0), [NONE], NONE, 1, [Producer(Idle(NoCall), 63)],
      [Consumer(Ready(Unlimited), [])], [], [], []);
    assert Init(c, start);
    assert IsRun(c, [start], []) && [start][0] == start;
  }

  // ---- the scan of the protocol, when nobody flips a bit meanwhile ----

  /** The local values of a scan from `prev` belong to the words. */
  ghost predicate Matches(words: seq<Word>, size: nat, prev: Sequence, scan: Scan)
    requires Fits(words, size)
  {
    && prev <= scan.highest
    && (forall s :: prev <= s < scan.highest ==> Agrees(words, size, s))
    && scan.bitIndex == BitOf(size, scan.highest)
    && scan.flag == Flag(size, scan.highest)
    && forall j: nat :: j < 64 - scan.bitIndex ==>
         Bit(scan.availability, j) == Bit(words[WordOf(size, scan.highest)], scan.bitIndex + j)
  }

  lemma StartMatches(words: seq<Word>, size: nat, prev: Sequence)
    requires Fits(words, size)
    ensures Matches(words, size, prev, StartScan(words, size, prev))
  {
    var scan := StartScan(words, size, prev);
    forall j: nat | j < 64 - scan.bitIndex
      ensures Bit(scan.availability, j) == Bit(words[WordOf(size, prev)], scan.bitIndex + j)
    {
      BitOfShifted(words[WordOf(size, prev)], scan.bitIndex, j);
    }
  }

  /** The shifted word, the bit index and the flag are right in every iteration, over the ends of words
      and of the ring. */
  lemma NextMatches(words: seq<Word>, size: nat, prev: Sequence, scan: Scan)
    requires Fits(words, size) && Matches(words, size, prev, scan) && Bit(scan.availability, 0) == scan.flag
    ensures Matches(words, size, prev, NextBit(words, size, scan))
  {
    assert Bit(scan.availability, 0) == Bit(words[WordOf(size, scan.highest)], scan.bitIndex + 0);
    var next := NextBit(words, size, scan);
    if scan.bitIndex < 63 {
      WithinWord(size, scan.highest, 1);
      forall j: nat | j < 64 - next.bitIndex
        ensures Bit(next.availability, j) == Bit(words[WordOf(size, next.highest)], next.bitIndex + j)
      {
        BitOfShifted(scan.availability, 1, j);
        assert Bit(scan.availability, j + 1) == Bit(words[WordOf(size, scan.highest)], scan.bitIndex + (j + 1));
      }
    } else {
      NextWord(size, scan.highest);
    }
  }

  /** The locals after `k` more bits. */
  function Scanned(words: seq<Word>, size: nat, scan: Scan, k: nat): Scan
    requires Fits(words, size)
    decreases k
  {
    if k == 0 then scan else Scanned(words, size, NextBit(words, size, scan), k - 1)
  }

  /** Without interference, the steps of the protocol return what the loop over fixed words returns: they
      pass exactly the bits up to the first that disagrees, at most one lap of them. */
  lemma {:induction false} QuietScan(words: seq<Word>, size: nat, prev: Sequence, scan: Scan) returns (k: nat)
    requires Fits(words, size) && Matches(words, size, prev, scan) && scan.highest <= prev + size
    ensures var end := Scanned(words, size, scan, k);
      && end.highest == scan.highest + k <= prev + size
      && Bit(end.availability, 0) != end.flag
      && IsScanResult(words, size, prev, end.highest - 1)
    decreases prev + size - scan.highest
  {
    assert Bit(scan.availability, 0) == Bit(words[WordOf(size, scan.highest)], scan.bitIndex + 0);
    if Bit(scan.availability, 0) != scan.flag {
      k := 0;
    } else {
      LapDisagrees(words, size, prev);
      assert Agrees(words, size, scan.highest);
      assert scan.highest > prev ==> Agrees(words, size, prev);
      NextMatches(words, size, prev, scan);
      var more := QuietScan(words, size, prev, NextBit(words, size, scan));
      k := more + 1;
    }
  }

  /** A whole scan of the protocol without interference: it starts with the first load. */
  lemma QuietScanFromStart(words: seq<Word>, size: nat, prev: Sequence) returns (k: nat)
    requires Fits(words, size)
    ensures k <= size
    ensures var end := Scanned(words, size, StartScan(words, size, prev), k);
      Bit(end.availability, 0) != end.flag && IsScanResult(words, size, prev, end.highest - 1)
  {
    StartMatches(words, size, prev);
    k := QuietScan(words, size, prev, StartScan(words, size, prev));
  }
}
