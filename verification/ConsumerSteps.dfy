/** Every step of a consumer keeps the invariant. */
module ConsumerSteps {
  import opened Bits
  import opened Indexing
  import opened Availability
  import opened Cursors
  import opened Protocol
  import opened Invariant
  import opened ProducerSteps

  /** A step that only changes the locals of a consumer. */
  lemma LocalStep(c: Config, s: State, i: nat, pc: ConsumerPc)
    requires Inv(c, s) && i < |s.consumers|
    requires ConsumerOk(c, i, pc, s.cursors, s.published)
    requires NextOf(pc, s.cursors[i]) == NextOf(s.consumers[i].pc, s.cursors[i])
    requires pc.Exited? ==> s.shutdownAt == s.cursors[i] + 1
    ensures Inv(c, WithConsumerPc(s, i, pc))
  {
    var after := WithConsumerPc(s, i, pc).consumers;
    assert ConsumersOk(c, after, s.cursors, s.published);
    assert AllSeenOk(c, after, s.cursors, s.log);
  }

  lemma LocalStepKeeps(c: Config, s: State, t: Step)
    requires Inv(c, s) && (t.Poll? || t.Settle? || t.CheckEnd?) && ConsumerEnabled(c, s, t)
    ensures Inv(c, ConsumerNext(c, s, t))
  {
    assert ConsumerOk(c, t.i, s.consumers[t.i].pc, s.cursors, s.published);
    assert Granted(c, t.i, s.cursors, s.published, s.cursors[t.i]);
    LocalStep(c, s, t.i, ConsumerNext(c, s, t).consumers[t.i].pc);
  }

  // ---- scanning ----

  /** The bits of the word of `h`, loaded now, tell what is published from `h` to the end of the word,
      and show that the first slot has not been passed. */
  lemma LoadedBits(c: Config, s: State, i: nat, h: Sequence, j: nat)
    requires Inv(c, s) && c.mode.Multi? && i < |s.cursors|
    requires s.cursors[i] < h && BitOf(c.size, h) + j < 64
    requires PublishedUpTo(s.published, h - 1)
    ensures var bit := Bit(s.words[WordOf(c.size, h)], BitOf(c.size, h) + j);
      && (h + j <= s.cursors[i] + c.size && bit == Flag(c.size, h) ==> h + j < |s.published| && s.published[h + j])
      && (h + j == s.cursors[i] + 1 + c.size ==> bit != Flag(c.size, h))
  {
    WithinWord(c.size, h, j);
    assert Granted(c, i, s.cursors, s.published, s.cursors[i]);
    var first := s.cursors[i] + 1;
    if h + j <= s.cursors[i] + c.size {
      BitTellsPublication(c, s, i, h + j);
    } else if h + j == first + c.size && first < h {
      BitTellsPublication(c, s, i, first);
      LapDisagrees(s.words, c.size, first);
    }
  }

  lemma StartScanIsOk(c: Config, s: State, i: nat)
    requires Inv(c, s) && c.mode.Multi? && i < |s.cursors|
    ensures ScanOk(c.size, StartScan(s.words, c.size, s.cursors[i] + 1), s.cursors[i], s.published)
  {
    var h := s.cursors[i] + 1;
    var scan := StartScan(s.words, c.size, h);
    assert Granted(c, i, s.cursors, s.published, s.cursors[i]);
    forall j: nat {:trigger Bit(scan.availability, j)} | j < 64 - scan.bitIndex
      ensures h + j <= s.cursors[i] + c.size && Bit(scan.availability, j) == scan.flag ==>
                0 <= h + j < |s.published| && s.published[h + j]
      ensures h + j == s.cursors[i] + 1 + c.size ==> Bit(scan.availability, j) != scan.flag
    {
      BitOfShifted(s.words[WordOf(c.size, h)], scan.bitIndex, j);
      LoadedBits(c, s, i, h, j);
    }
  }

  lemma LookIsOk(c: Config, s: State, i: nat, limit: Limit)
    requires Inv(c, s) && i < |s.consumers| && s.consumers[i].pc == Ready(limit)
    ensures ConsumerOk(c, i, Folding(limit, 0, Top), s.cursors, s.published) || c.wiring.dependencies[i].OnProducer?
    ensures c.mode.Multi? && c.wiring.dependencies[i].OnProducer? ==>
      ConsumerOk(c, i, Scanning(limit, StartScan(s.words, c.size, s.cursors[i] + 1)), s.cursors, s.published)
    ensures c.mode.Uni? && c.wiring.dependencies[i].OnProducer? ==>
      ConsumerOk(c, i, Found(limit, s.cursor), s.cursors, s.published)
  {
    assert ConsumerOk(c, i, s.consumers[i].pc, s.cursors, s.published);
    if c.mode.Multi? {
      StartScanIsOk(c, s, i);
    }
  }

  lemma LookKeeps(c: Config, s: State, t: Step)
    requires Inv(c, s) && t.Look? && ConsumerEnabled(c, s, t)
    ensures Inv(c, ConsumerNext(c, s, t))
  {
    LookIsOk(c, s, t.i, s.consumers[t.i].pc.limit);
    LocalStep(c, s, t.i, ConsumerNext(c, s, t).consumers[t.i].pc);
  }

  /** The bit just tested belongs to a published sequence, inside the lap after the cursor. */
  lemma TestedBit(size: nat, scan: Scan, cursor: Sequence, published: seq<bool>)
    requires size > 0 && ScanOk(size, scan, cursor, published) && Bit(scan.availability, 0) == scan.flag
    ensures scan.highest <= cursor + size && PublishedUpTo(published, scan.highest)
  {
    assert scan.highest + 0 == scan.highest;
  }

  lemma NextBitInWord(words: seq<Word>, size: nat, scan: Scan, cursor: Sequence, published: seq<bool>)
    requires Fits(words, size) && ScanOk(size, scan, cursor, published)
    requires Bit(scan.availability, 0) == scan.flag && scan.bitIndex < 63
    ensures ScanOk(size, NextBit(words, size, scan), cursor, published)
  {
    TestedBit(size, scan, cursor, published);
    WithinWord(size, scan.highest, 1);
    var next := NextBit(words, size, scan);
    forall j: nat {:trigger Bit(next.availability, j)} | j < 64 - next.bitIndex
      ensures next.highest + j <= cursor + size && Bit(next.availability, j) == next.flag ==>
                0 <= next.highest + j < |published| && published[next.highest + j]
      ensures next.highest + j == cursor + 1 + size ==> Bit(next.availability, j) != next.flag
    {
      BitOfShifted(scan.availability, 1, j);
      assert next.highest + j == scan.highest + (j + 1);
      assert Bit(next.availability, j) == Bit(scan.availability, j + 1);
    }
  }

  lemma NextBitInNextWord(c: Config, s: State, i: nat, scan: Scan)
    requires Inv(c, s) && c.mode.Multi? && i < |s.cursors| && ScanOk(c.size, scan, s.cursors[i], s.published)
    requires Bit(scan.availability, 0) == scan.flag && scan.bitIndex == 63
    ensures ScanOk(c.size, NextBit(s.words, c.size, scan), s.cursors[i], s.published)
  {
    TestedBit(c.size, scan, s.cursors[i], s.published);
    NextWord(c.size, scan.highest);
    var next := NextBit(s.words, c.size, scan);
    forall j: nat {:trigger Bit(next.availability, j)} | j < 64 - next.bitIndex
      ensures next.highest + j <= s.cursors[i] + c.size && Bit(next.availability, j) == next.flag ==>
                0 <= next.highest + j < |s.published| && s.published[next.highest + j]
      ensures next.highest + j == s.cursors[i] + 1 + c.size ==> Bit(next.availability, j) != next.flag
    {
      LoadedBits(c, s, i, next.highest, j);
    }
  }

  lemma TestKeeps(c: Config, s: State, t: Step)
    requires Inv(c, s) && t.Test? && ConsumerEnabled(c, s, t)
    ensures Inv(c, ConsumerNext(c, s, t))
  {
    var i := t.i;
    var pc := s.consumers[i].pc;
    assert ConsumerOk(c, i, pc, s.cursors, s.published);
    if Bit(pc.scan.availability, 0) == pc.scan.flag {
      if pc.scan.bitIndex < 63 {
        NextBitInWord(s.words, c.size, pc.scan, s.cursors[i], s.published);
      } else {
        NextBitInNextWord(c, s, i, pc.scan);
      }
    }
    LocalStep(c, s, i, ConsumerNext(c, s, t).consumers[i].pc);
  }

  // ---- folding ----

  lemma LoadGroupKeeps(c: Config, s: State, t: Step)
    requires Inv(c, s) && t.LoadGroup? && ConsumerEnabled(c, s, t)
    ensures Inv(c, ConsumerNext(c, s, t))
  {
    var i := t.i;
    var pc := s.consumers[i].pc;
    assert ConsumerOk(c, i, pc, s.cursors, s.published);
    var group := c.wiring.dependencies[i].group;
    if pc.k < |group| {
      assert Granted(c, group[pc.k], s.cursors, s.published, s.cursors[group[pc.k]]);
    } else {
      FoldIsGranted(c, s, i, pc.low);
    }
    LocalStep(c, s, i, ConsumerNext(c, s, t).consumers[i].pc);
  }

  /** The least of the cursors of the group before, read at different moments, is granted: everything
      up to it is published and has been passed by the whole group. */
  lemma FoldIsGranted(c: Config, s: State, i: nat, low: Low)
    requires Inv(c, s) && i < c.Consumers() && c.wiring.dependencies[i].OnGroup?
    requires var group := c.wiring.dependencies[i].group; FoldOk(group, |group|, low, s.cursors) && low.Fin?
    ensures Granted(c, i, s.cursors, s.published, low.value)
  {
    var group := c.wiring.dependencies[i].group;
    forall j: nat | j < |s.cursors| && j in group
      ensures low.value <= s.cursors[j]
    {
      FoldDone(group, low, s.cursors, j);
    }
    var j := group[0];
    assert j in group;
    assert Granted(c, j, s.cursors, s.published, s.cursors[j]);
  }

  // ---- batches ----

  /** An event that a consumer reads is the event of the log. */
  lemma ReadsTheLog(c: Config, s: State, i: nat)
    requires Inv(c, s) && i < |s.consumers| && s.consumers[i].pc.Reading?
    requires s.consumers[i].pc.next <= s.consumers[i].pc.available
    ensures var next := s.consumers[i].pc.next;
      0 <= next < |s.log| && s.slots[Slot(c.size, next)] == s.log[next]
  {
    assert ConsumerOk(c, i, s.consumers[i].pc, s.cursors, s.published);
    assert Granted(c, i, s.cursors, s.published, s.cursors[i]);
    NoLapping(c, s.cursors, s.published, s.claimed, i);
  }

  lemma SeenAfterHandle(seen: seq<Call>, managed: bool, log: seq<Event>, call: Call)
    requires SeenOk(seen, call.sequence, managed, log)
    requires 0 <= call.sequence < |log| && call.event == log[call.sequence]
    ensures SeenOk(seen + [call], call.sequence + 1, managed, log)
  {
  }

  lemma ConsumersAfterHandle(c: Config, s: State, i: nat, call: Call, pc: ConsumerPc)
    requires Inv(c, s) && i < |s.consumers| && s.consumers[i].pc.Reading?
    requires ConsumerOk(c, i, pc, s.cursors, s.published)
    requires pc.Reading? && pc.next == call.sequence + 1 && call.sequence == s.consumers[i].pc.next
    requires 0 <= call.sequence < |s.log| && call.event == s.log[call.sequence]
    ensures var after := s.consumers[i := Consumer(pc, s.consumers[i].seen + [call])];
      && ConsumersOk(c, after, s.cursors, s.published)
      && AllSeenOk(c, after, s.cursors, s.log)
  {
    var after := s.consumers[i := Consumer(pc, s.consumers[i].seen + [call])];
    forall j: nat | j < |after|
      ensures SeenOk(after[j].seen, NextOf(after[j].pc, s.cursors[j]), c.managed[j], s.log)
    {
      assert SeenOk(s.consumers[j].seen, NextOf(s.consumers[j].pc, s.cursors[j]), c.managed[j], s.log);
      if j == i {
        SeenAfterHandle(s.consumers[i].seen, c.managed[i], s.log, call);
      }
    }
  }

  lemma HandleKeeps(c: Config, s: State, t: Step)
    requires Inv(c, s) && t.Handle? && ConsumerEnabled(c, s, t)
    ensures Inv(c, ConsumerNext(c, s, t))
  {
    var i := t.i;
    var pc := s.consumers[i].pc;
    assert ConsumerOk(c, i, pc, s.cursors, s.published);
    ReadsTheLog(c, s, i);
    var call := Call(pc.next, s.log[pc.next], pc.next == pc.available);
    ConsumersAfterHandle(c, s, i, call, Reading(pc.next + 1, pc.available));
  }

  predicate Advanced(cursors: seq<Sequence>, cursors': seq<Sequence>) {
    |cursors| == |cursors'| && forall j :: 0 <= j < |cursors| ==> cursors[j] <= cursors'[j]
  }

  lemma GrantedAfterAdvance(c: Config, i: nat, cursors: seq<Sequence>, cursors': seq<Sequence>, published: seq<bool>, a: Sequence)
    requires i < c.Consumers() && Advanced(cursors, cursors') && Granted(c, i, cursors, published, a)
    ensures Granted(c, i, cursors', published, a)
  {
  }

  lemma FoldAfterAdvance(group: seq<nat>, k: nat, low: Low, cursors: seq<Sequence>, cursors': seq<Sequence>)
    requires FoldOk(group, k, low, cursors) && Advanced(cursors, cursors')
    ensures FoldOk(group, k, low, cursors')
  {
  }

  /** What a consumer knows stays true when another cursor advances. */
  lemma ConsumerAfterAdvance(
      c: Config, i: nat, pc: ConsumerPc, cursors: seq<Sequence>, cursors': seq<Sequence>, published: seq<bool>)
    requires i < c.Consumers() && i < |cursors| && i < |c.managed| && c.size > 0
    requires Advanced(cursors, cursors') && cursors'[i] == cursors[i]
    requires ConsumerOk(c, i, pc, cursors, published)
    ensures ConsumerOk(c, i, pc, cursors', published)
  {
    match pc
    case Folding(limit, k, low) => FoldAfterAdvance(c.wiring.dependencies[i].group, k, low, cursors, cursors');
    case Found(limit, available) => GrantedAfterAdvance(c, i, cursors, cursors', published, available);
    case Reading(next, available) => GrantedAfterAdvance(c, i, cursors, cursors', published, available);
    case _ =>
  }

  lemma ProducersAfterAdvance(
      c: Config, producers: seq<Producer>, cursors: seq<Sequence>, cursors': seq<Sequence>, claimed: Sequence)
    requires Advanced(cursors, cursors') && ProducersOk(c, producers, cursors, claimed)
    ensures ProducersOk(c, producers, cursors', claimed)
  {
    forall p: nat | p < |producers|
      ensures ProducerOk(c, producers[p], cursors', claimed)
    {
      assert ProducerOk(c, producers[p], cursors, claimed);
      var pc := producers[p].pc;
      if pc.Gate? {
        FoldAfterAdvance(c.wiring.gate, pc.i, pc.low, cursors, cursors');
      }
    }
  }

  lemma AdvanceKeeps(c: Config, s: State, t: Step)
    requires Inv(c, s) && t.Advance? && ConsumerEnabled(c, s, t)
    ensures Inv(c, ConsumerNext(c, s, t))
  {
    var i := t.i;
    var s' := ConsumerNext(c, s, t);
    var a := s.consumers[i].pc.available;
    assert ConsumerOk(c, i, s.consumers[i].pc, s.cursors, s.published);
    assert Advanced(s.cursors, s'.cursors);
    forall j: nat | j < |s.cursors|
      ensures Granted(c, j, s'.cursors, s.published, s'.cursors[j])
      ensures ConsumerOk(c, j, s'.consumers[j].pc, s'.cursors, s.published)
      ensures SeenOk(s'.consumers[j].seen, NextOf(s'.consumers[j].pc, s'.cursors[j]), c.managed[j], s.log)
    {
      assert SeenOk(s.consumers[j].seen, NextOf(s.consumers[j].pc, s.cursors[j]), c.managed[j], s.log);
      GrantedAfterAdvance(c, j, s.cursors, s'.cursors, s.published, if j == i then a else s.cursors[j]);
      if j != i {
        ConsumerAfterAdvance(c, j, s.consumers[j].pc, s.cursors, s'.cursors, s.published);
      }
    }
    ProducersAfterAdvance(c, s.producers, s.cursors, s'.cursors, s.claimed);
  }

  lemma ConsumerStepKeeps(c: Config, s: State, t: Step)
    requires Inv(c, s) && !IsProducerStep(t) && ConsumerEnabled(c, s, t)
    ensures Inv(c, ConsumerNext(c, s, t))
  {
    match t
    case Poll(_, _) => LocalStepKeeps(c, s, t);
    case Look(_) => LookKeeps(c, s, t);
    case LoadGroup(_) => LoadGroupKeeps(c, s, t);
    case Test(_) => TestKeeps(c, s, t);
    case Settle(_) => LocalStepKeeps(c, s, t);
    case CheckEnd(_) => LocalStepKeeps(c, s, t);
    case Handle(_) => HandleKeeps(c, s, t);
    case Advance(_) => AdvanceKeeps(c, s, t);
  }
}
