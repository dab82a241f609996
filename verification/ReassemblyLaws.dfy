/** What a delivered frame says about the packets behind it, and what a sent frame's packets deliver. */
module ReassemblyLaws {
  import opened Basics
  import opened Pprpc
  import opened Reassembler
  import Crypto
  import Keys

  // ----- runs of fragments -----

  function FragmentsOf(run: seq<AVPacket>): (fragments: seq<bytes>)
    requires AllRelevant(run)
    ensures |fragments| == |run|
  {
    seq(|run|, i requires 0 <= i < |run| => FragmentOf(run[i]))
  }

  /** The index of the first packet at or after `from` that names an encrypted length. */
  function FirstEncrypted(run: seq<AVPacket>, from: nat): (n: nat)
    requires from <= |run|
    ensures from <= n <= |run|
    ensures forall j | from <= j < n :: run[j].encryptedLength == 0
    ensures n < |run| ==> run[n].encryptedLength != 0
    decreases |run| - from
  {
    if from == |run| || run[from].encryptedLength != 0 then from else FirstEncrypted(run, from + 1)
  }

  function MetadataOf(run: seq<AVPacket>): Option<AVPacket> {
    var n := FirstEncrypted(run, 0);
    if n < |run| then Some(run[n]) else None
  }

  lemma MetadataSnoc(run: seq<AVPacket>, p: AVPacket)
    ensures MetadataOf(run + [p])
         == if MetadataOf(run).Some? then MetadataOf(run)
            else if p.encryptedLength != 0 then Some(p) else None
  {
    var n, m := FirstEncrypted(run, 0), FirstEncrypted(run + [p], 0);
    assert forall j | 0 <= j < |run| :: (run + [p])[j] == run[j];
    assert (run + [p])[|run|] == p;
    if n < |run| {
      assert m <= n;
    }
  }

  lemma FragmentsSnoc(run: seq<AVPacket>, p: AVPacket)
    requires AllRelevant(run + [p])
    ensures AllRelevant(run)
    ensures Relevant(p)
    ensures FragmentsOf(run + [p]) == FragmentsOf(run) + [FragmentOf(p)]
    ensures TotalLength(FragmentsOf(run + [p])) == TotalLength(FragmentsOf(run)) + |FragmentOf(p)|
  {
    assert forall i | 0 <= i < |run| :: (run + [p])[i] == run[i];
    assert (run + [p])[|run|] == p;
    assert FragmentsOf(run + [p]) == FragmentsOf(run) + [FragmentOf(p)];
    TotalLengthSnoc(FragmentsOf(run), FragmentOf(p));
  }

  /** An unfinished run: well-marked fragments 1, 2, ..., k within the size cap. */
  predicate OpenRun(context: Context, run: seq<AVPacket>) {
    && 1 <= |run| <= 254
    && (forall i | 0 <= i < |run| :: WellMarked(run[i]) && FragmentIndex(run[i]) == i + 1)
    && TotalLength(FragmentsOf(run)) <= context.maxFrameBytes
  }

  /** A finished run: an open run and one well-marked final fragment, within the size cap. */
  predicate CompleteRun(context: Context, run: seq<AVPacket>) {
    && |run| >= 2
    && OpenRun(context, run[..|run| - 1])
    && WellMarked(run[|run| - 1]) && FragmentIndex(run[|run| - 1]) == FINAL_INDEX
    && AllRelevant(run)
    && TotalLength(FragmentsOf(run)) <= context.maxFrameBytes
  }

  /** The image a finished run carries, judged from the run alone. */
  function RunFrame(context: Context, run: seq<AVPacket>): Option<bytes>
    requires AllRelevant(run)
  {
    match MetadataOf(run)
    case None => None
    case Some(metadata) => FinishFrame(context, metadata, Concat(FragmentsOf(run)))
  }

  function LastOf<T>(history: seq<T>, n: nat): (tail: seq<T>)
    requires n <= |history|
    ensures |tail| == n
  {
    history[|history| - n..]
  }

  function RunSlot(run: seq<AVPacket>): Slot
    requires AllRelevant(run)
  {
    Collecting(FragmentsOf(run), |run| + 1, MetadataOf(run))
  }

  // ----- the slot remembers exactly the open run at the end of the history -----

  /** Adding the next fragment to an open run. */
  lemma OpenRunSnoc(context: Context, run: seq<AVPacket>, p: AVPacket)
    requires run == [] || OpenRun(context, run)
    requires Relevant(p)
    ensures AllRelevant(run + [p])
    ensures OpenRun(context, run + [p]) <==>
              && |run| < 254 && WellMarked(p) && FragmentIndex(p) == |run| + 1
              && TotalLength(FragmentsOf(run + [p])) <= context.maxFrameBytes
  {
    assert (run + [p])[|run|] == p;
    assert forall i | 0 <= i < |run| :: (run + [p])[i] == run[i];
  }

  /** Dropping the last fragment of an open run. */
  lemma OpenRunFront(context: Context, run: seq<AVPacket>)
    requires OpenRun(context, run) && |run| > 1
    ensures OpenRun(context, run[..|run| - 1])
  {
    var front, p := run[..|run| - 1], run[|run| - 1];
    assert run == front + [p];
    FragmentsSnoc(front, p);
    assert forall i | 0 <= i < |front| :: front[i] == run[i];
  }

  lemma StepOnRun(context: Context, run: seq<AVPacket>, p: AVPacket)
    requires OpenRun(context, run) && Relevant(p) && FragmentIndex(p) != 1
    ensures AllRelevant(run + [p])
    ensures var (slot, frame) := SlotStep(context, RunSlot(run), p);
            && (OpenRun(context, run + [p]) ==> slot == RunSlot(run + [p]))
            && (!OpenRun(context, run + [p]) ==> slot == Idle)
            && frame == if CompleteRun(context, run + [p]) then RunFrame(context, run + [p]) else None
  {
    hide FinishFrame, Concat;
    OpenRunSnoc(context, run, p);
    FragmentsSnoc(run, p);
    MetadataSnoc(run, p);
    assert (run + [p])[..|run|] == run;
    assert FragmentIndex(run[|run| - 1]) == |run|;
  }

  lemma StepOnFirst(context: Context, slot: Slot, p: AVPacket)
    requires Relevant(p) && FragmentIndex(p) == 1
    ensures SlotStep(context, slot, p) == (if OpenRun(context, [p]) then RunSlot([p]) else Idle, None)
  {
    hide FinishFrame, Concat;
    FragmentsSnoc([], p);
    assert [] + [p] == [p];
    assert FragmentsOf([p]) == [FragmentOf(p)] == [] + [FragmentOf(p)];
    MetadataSnoc([], p);
    assert MetadataOf([]).None?;
  }

  lemma StepOnIdle(context: Context, p: AVPacket)
    requires Relevant(p) && FragmentIndex(p) != 1
    ensures SlotStep(context, Idle, p) == (Idle, None)
  {
  }

  lemma LastOfSnoc<T>(before: seq<T>, last: T, n: nat)
    requires n <= |before|
    ensures LastOf(before + [last], n + 1) == LastOf(before, n) + [last]
  {
  }

  lemma LastOne<T>(before: seq<T>, last: T)
    ensures LastOf(before + [last], 1) == [last]
  {
  }

  lemma {:induction false} SlotTracksRun(context: Context, history: seq<AVPacket>)
    requires AllRelevant(history)
    ensures var slot := SlotAfter(context, history);
            slot.Collecting? ==>
              && 1 <= slot.expected - 1 <= |history|
              && OpenRun(context, LastOf(history, slot.expected - 1))
              && slot == RunSlot(LastOf(history, slot.expected - 1))
    decreases |history|
  {
    hide SlotStep, FragmentsOf, MetadataOf, OpenRun, CompleteRun, RunFrame, LastOf;
    if history != [] {
      var before, p := history[..|history| - 1], history[|history| - 1];
      assert history == before + [p];
      SlotTracksRun(context, before);
      var slot := SlotAfter(context, before);
      if FragmentIndex(p) == 1 {
        StepOnFirst(context, slot, p);
        LastOne(before, p);
      } else if slot.Collecting? {
        StepOnRun(context, LastOf(before, slot.expected - 1), p);
        LastOfSnoc(before, p, slot.expected - 1);
      } else {
        StepOnIdle(context, p);
      }
    }
  }

  /** Conversely, an open run at the end of the history is in the slot, whatever came before it. */
  lemma {:induction false} RunIsTracked(context: Context, history: seq<AVPacket>, n: nat)
    requires AllRelevant(history)
    requires n <= |history| && OpenRun(context, LastOf(history, n))
    ensures SlotAfter(context, history) == RunSlot(LastOf(history, n))
    decreases n
  {
    hide SlotStep, RunSlot, CompleteRun, RunFrame, FragmentsOf;
    var before, p := history[..|history| - 1], history[|history| - 1];
    var run := LastOf(history, n);
    assert run[n - 1] == p && FragmentIndex(p) == n;
    if n == 1 {
      assert run == [p];
      StepOnFirst(context, SlotAfter(context, before), p);
    } else {
      OpenRunFront(context, run);
      assert run[..n - 1] == LastOf(before, n - 1);
      RunIsTracked(context, before, n - 1);
      StepOnRun(context, run[..n - 1], p);
      assert run == run[..n - 1] + [p];
    }
  }

  // ----- delivered frames -----

  /** The last `n` packets and this one are a complete run that carries the image. */
  ghost predicate Completes(context: Context, own: seq<AVPacket>, n: nat, p: AVPacket, frame: bytes) {
    && 1 <= n <= |own|
    && CompleteRun(context, LastOf(own, n) + [p])
    && RunFrame(context, LastOf(own, n) + [p]) == Some(frame)
  }

  /** A frame that a step delivers comes from a complete run at the end of the sequence's packets. */
  lemma DeliveredRun(context: Context, own: seq<AVPacket>, p: AVPacket, frame: bytes) returns (n: nat)
    requires AllRelevant(own) && Relevant(p)
    requires SlotStep(context, SlotAfter(context, own), p).1 == Some(frame)
    ensures Completes(context, own, n, p, frame)
  {
    hide SlotStep, SlotAfter, RunSlot, OpenRun, CompleteRun, RunFrame, LastOf;
    var slot := SlotAfter(context, own);
    SlotTracksRun(context, own);
    if FragmentIndex(p) == 1 {
      StepOnFirst(context, slot, p);
    } else if slot.Collecting? {
      n := slot.expected - 1;
      StepOnRun(context, LastOf(own, n), p);
    } else {
      StepOnIdle(context, p);
    }
  }

  /** Conversely a complete run at the end of the sequence's packets delivers what it carries. */
  lemma CompleteRunDelivers(context: Context, own: seq<AVPacket>, n: nat, p: AVPacket, frame: bytes)
    requires AllRelevant(own) && Relevant(p) && Completes(context, own, n, p, frame)
    ensures SlotStep(context, SlotAfter(context, own), p).1 == Some(frame)
  {
    hide SlotStep, SlotAfter, RunSlot, OpenRun, RunFrame, LastOf;
    var run := LastOf(own, n) + [p];
    assert run[..|run| - 1] == LastOf(own, n) && run[|run| - 1] == p;
    RunIsTracked(context, own, n);
    StepOnRun(context, LastOf(own, n), p);
  }

  /** A frame is delivered exactly when the sequence's own packets end, with this one, in a clean run
      1, 2, ..., k, 0xFF within the cap that carries an image: nothing older and nothing interleaved matters. */
  lemma DeliveredIff(context: Context, history: seq<AVPacket>, p: AVPacket, frame: bytes)
    requires Relevant(p)
    ensures OutputFor(context, history, p) == Some(frame)
            <==> exists n: nat :: Completes(context, OfSequence(history, p.sequence), n, p, frame)
  {
    hide OfSequence, SlotStep, SlotAfter, Completes;
    var own := OfSequence(history, p.sequence);
    if OutputFor(context, history, p) == Some(frame) {
      var n := DeliveredRun(context, own, p, frame);
      assert Completes(context, OfSequence(history, p.sequence), n, p, frame);
    } else if n: nat :| Completes(context, own, n, p, frame) {
      CompleteRunDelivers(context, own, n, p, frame);
    }
  }

  lemma FinishedAs(context: Context, metadata: AVPacket, assembled: bytes, frame: bytes)
    ensures FinishFrame(context, metadata, assembled) == Some(frame) <==>
              var n := metadata.encryptedLength;
              && 0 < n <= |assembled| && n % Crypto.BLOCK_SIZE == 0
              && 4 <= |frame| && frame <= OpenHead(context, metadata, assembled)
              && SOI <= frame && EoiAt(frame, |frame| - 2)
              && forall i | 2 <= i < |frame| - 2 :: !EoiAt(frame, i)
  {
    hide OpenHead;
    var n := metadata.encryptedLength;
    if 0 < n <= |assembled| && n % Crypto.BLOCK_SIZE == 0 {
      var whole := OpenHead(context, metadata, assembled);
      if frame <= whole {
        assert forall i | 0 <= i && i + 2 <= |frame| :: EoiAt(frame, i) <==> EoiAt(whole, i);
      }
      var eoi := FindEoi(whole, 2);
      if eoi.Some? {
        assert whole[..eoi.value + 2] <= whole;
        if frame == whole[..eoi.value + 2] {
          assert EoiAt(frame, |frame| - 2);
        }
      }
    }
  }

  /** The image of an assembled frame, stated without the code's steps: it is the prefix of the opened frame that
      starts with the bytes FF D8 and ends with the first FF D9 at index 2 or later. */
  lemma FinishedIff(context: Context, metadata: AVPacket, assembled: bytes, frame: bytes)
    ensures FinishFrame(context, metadata, assembled) == Some(frame) <==>
              var n := metadata.encryptedLength;
              && 0 < n <= |assembled| && n % 16 == 0
              && 4 <= |frame| && frame <= OpenHead(context, metadata, assembled)
              && frame[0] == 0xFF && frame[1] == 0xD8
              && frame[|frame| - 2] == 0xFF && frame[|frame| - 1] == 0xD9
              && forall i | 2 <= i < |frame| - 2 :: !(frame[i] == 0xFF && frame[i + 1] == 0xD9)
  {
    hide OpenHead, FinishFrame;
    FinishedAs(context, metadata, assembled, frame);
    if |frame| >= 4 {
      assert SOI <= frame <==> frame[0] == 0xFF && frame[1] == 0xD8;
      assert EOI[0] == 0xFF && EOI[1] == 0xD9;
      forall i | 0 <= i < |frame| - 1
        ensures EoiAt(frame, i) <==> frame[i] == 0xFF && frame[i + 1] == 0xD9
      {
      }
    }
  }

  /** The opened frame, block by block: behind the encrypted length the bytes are as they came; before it they are the
      AES-CBC decryption under the digest of the session prefix and a text that names the packet's sequence, timestamp
      and channel, with the second half of that key as vector. */
  lemma OpenedBlocks(context: Context, metadata: AVPacket, assembled: bytes) returns (text: bytes)
    requires metadata.encryptedLength <= |assembled| && metadata.encryptedLength % 16 == 0
    ensures Keys.ReadAvText(text) == Some((metadata.sequence, metadata.timestamp, metadata.channel))
    ensures var key := context.suite.md5Hex(context.sessionPrefix + text);
            var n, frame := metadata.encryptedLength, OpenHead(context, metadata, assembled);
            && frame[n..] == assembled[n..]
            && forall j: nat | 16 * (j + 1) <= n ::
                 Crypto.Block(frame, j)
                 == Crypto.Xor(context.suite.decryptBlock(key, Crypto.Block(assembled, j)),
                               Crypto.Chained(key[16..], assembled, j))
  {
    hide Crypto.CbcDecrypt, Keys.ReadAvText, Keys.DeriveAvKey, Crypto.Block, Crypto.Chained, Crypto.Xor;
    text := Keys.AvKeyIs(context.suite, context.sessionPrefix, metadata.sequence, metadata.timestamp, metadata.channel);
    var key := context.suite.md5Hex(context.sessionPrefix + text);
    var n, frame := metadata.encryptedLength, OpenHead(context, metadata, assembled);
    var head := Crypto.CbcDecrypt(context.suite, key, key[16..], assembled[..n]);
    assert frame == head + assembled[n..] && frame[..n] == head;
    forall j: nat | 16 * (j + 1) <= n
      ensures Crypto.Block(frame, j)
           == Crypto.Xor(context.suite.decryptBlock(key, Crypto.Block(assembled, j)),
                         Crypto.Chained(key[16..], assembled, j))
    {
      Crypto.DecryptedBlock(context.suite, key, key[16..], assembled[..n], j);
      Crypto.BlocksOfFront(frame, n, key[16..], j);
      Crypto.BlocksOfFront(assembled, n, key[16..], j);
    }
  }

  /** A complete run in terms of the bytes of its payloads: the fixed bytes 1 and 0 around the index, the indices
      1, 2, ... and 0xFF at the end, and no more bytes behind them than the cap. */
  lemma CompleteRunIff(context: Context, run: seq<AVPacket>)
    ensures CompleteRun(context, run) <==>
              && 2 <= |run| <= 255
              && (forall i | 0 <= i < |run| ::
                    && run[i].mediaFormat == 4 && |run[i].payload| >= 3
                    && run[i].payload[0] == 1 && run[i].payload[2] == 0
                    && run[i].payload[1] == if i == |run| - 1 then 0xFF else i + 1)
              && |Concat(seq(|run|, i requires 0 <= i < |run| && |run[i].payload| >= 3 => run[i].payload[3..]))|
                 <= context.maxFrameBytes
  {
    if |run| >= 2 && AllRelevant(run) {
      var front, last := run[..|run| - 1], run[|run| - 1];
      assert run == front + [last];
      FragmentsSnoc(front, last);
      assert forall i | 0 <= i < |front| :: front[i] == run[i];
      assert FragmentsOf(run)
          == seq(|run|, i requires 0 <= i < |run| && |run[i].payload| >= 3 => run[i].payload[3..]);
    }
  }

  /** A delivered frame has between 2 and 255 fragments and between 4 and `maxFrameBytes` bytes. */
  lemma DeliveredBounds(context: Context, history: seq<AVPacket>, p: AVPacket, frame: bytes)
    returns (run: seq<AVPacket>)
    requires OutputFor(context, history, p) == Some(frame)
    ensures 2 <= |run| <= 255 && CompleteRun(context, run) && run[|run| - 1] == p
    ensures RunFrame(context, run) == Some(frame)
    ensures 4 <= |frame| <= context.maxFrameBytes
  {
    DeliveredIff(context, history, p, frame);
    var own := OfSequence(history, p.sequence);
    var n: nat :| Completes(context, own, n, p, frame);
    run := LastOf(own, n) + [p];
    assert run[..|run| - 1] == LastOf(own, n);
    FinishedIff(context, MetadataOf(run).value, Concat(FragmentsOf(run)), frame);
  }
}
