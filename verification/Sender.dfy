/** The camera's side of the documented video format, and its inversion by the reassembler. */
module Sender {
  import opened Basics
  import opened Pprpc
  import opened Reassembler
  import opened ReassemblyLaws
  import Crypto
  import Keys

  /** A JPEG image whose first end-of-image marker at index 2 or later is its end. */
  predicate IsJpeg(image: bytes) {
    && |image| >= 4 && SOI <= image && EoiAt(image, |image| - 2)
    && forall i | 2 <= i < |image| - 2 :: !EoiAt(image, i)
  }

  /** The bytes the camera fragments: the head encrypted without padding, the rest plain. */
  function SealHead(context: Context, sequence: nat, timestamp: nat, channel: nat, n: nat, plain: bytes)
    : (sealed: bytes)
    requires n <= |plain| && n % Crypto.BLOCK_SIZE == 0
    ensures |sealed| == |plain|
  {
    var key := Keys.DeriveAvKey(context.suite, context.sessionPrefix, sequence, timestamp, channel);
    Crypto.CbcEncrypt(context.suite, key, key[16..], plain[..n]) + plain[n..]
  }

  /** `run` is a way to send `image` and `trailer` under `sequence`: 2 to 255 well-marked fragments with indices
      1, 2, ... and 0xFF last, encryption named by the first fragment only. */
  predicate SentAs(context: Context, sequence: nat, run: seq<AVPacket>, image: bytes, trailer: bytes) {
    && 2 <= |run| <= 255
    && IsJpeg(image) && |image| + |trailer| <= context.maxFrameBytes
    && (forall i | 0 <= i < |run| ::
          && WellMarked(run[i]) && run[i].sequence == sequence
          && FragmentIndex(run[i]) == (if i == |run| - 1 then FINAL_INDEX else i + 1)
          && (i > 0 ==> run[i].encryptedLength == 0))
    && var n := run[0].encryptedLength;
       && 0 < n <= |image| + |trailer| && n % Crypto.BLOCK_SIZE == 0
       && Concat(FragmentsOf(run))
          == SealHead(context, sequence, run[0].timestamp, run[0].channel, n, image + trailer)
  }

  // ----- one frame -----

  lemma OpenHeadOfSealed(context: Context, m: AVPacket, plain: bytes)
    requires m.encryptedLength <= |plain| && m.encryptedLength % Crypto.BLOCK_SIZE == 0
    ensures OpenHead(context, m, SealHead(context, m.sequence, m.timestamp, m.channel, m.encryptedLength, plain))
         == plain
  {
    var n := m.encryptedLength;
    var key := Keys.DeriveAvKey(context.suite, context.sessionPrefix, m.sequence, m.timestamp, m.channel);
    var sealed := SealHead(context, m.sequence, m.timestamp, m.channel, n, plain);
    var head := Crypto.CbcEncrypt(context.suite, key, key[16..], plain[..n]);
    assert sealed[..n] == head && sealed[n..] == plain[n..];
    Crypto.DecryptUnpaddedIffEncrypted(context.suite, plain[..n], head, key, key[16..]);
    assert Crypto.DecryptUnpadded(context.suite, head, key, key[16..]) == Success(plain[..n]);
  }

  /** A sent frame's packets form a complete run that carries exactly the image. */
  lemma SentRunCarriesImage(context: Context, sequence: nat, run: seq<AVPacket>, image: bytes, trailer: bytes)
    requires SentAs(context, sequence, run, image, trailer)
    ensures AllRelevant(run) && CompleteRun(context, run) && RunFrame(context, run) == Some(image)
  {
    hide SealHead, OpenHead, Concat, Crypto.CbcEncrypt;
    var front, last := run[..|run| - 1], run[|run| - 1];
    assert run == front + [last];
    FragmentsSnoc(front, last);
    assert AllRelevant(run);
    assert OpenRun(context, front) by {
      assert forall i | 0 <= i < |front| :: front[i] == run[i];
      assert TotalLength(FragmentsOf(run)) == |image| + |trailer|;
    }
    var m := run[0];
    assert MetadataOf(run) == Some(m) by {
      assert FirstEncrypted(run, 0) == 0;
    }
    var plain := image + trailer;
    OpenHeadOfSealed(context, m, plain);
    assert image <= plain;
    FinishedAs(context, m, Concat(FragmentsOf(run)), image);
  }

  // ----- interleaved traffic -----

  lemma {:induction false} OfSequenceAppend(one: seq<AVPacket>, other: seq<AVPacket>, sequence: nat)
    ensures OfSequence(one + other, sequence) == OfSequence(one, sequence) + OfSequence(other, sequence)
    decreases |other|
  {
    if other == [] {
      assert one + other == one;
    } else {
      var before, last := other[..|other| - 1], other[|other| - 1];
      assert (one + other)[..|one + other| - 1] == one + before;
      OfSequenceAppend(one, before, sequence);
    }
  }

  /** Filtering twice is filtering once, so a sequence's outputs are those of its own packets alone. */
  lemma {:induction false} OfSequenceIdempotent(history: seq<AVPacket>, sequence: nat)
    ensures OfSequence(OfSequence(history, sequence), sequence) == OfSequence(history, sequence)
    decreases |history|
  {
    if history != [] {
      var before, last := history[..|history| - 1], history[|history| - 1];
      OfSequenceIdempotent(before, sequence);
      var own := OfSequence(before, sequence);
      if Relevant(last) && last.sequence == sequence {
        assert (own + [last])[..|own|] == own;
      }
    }
  }

  /** Non-interference: any two histories that agree on the packets of a sequence give that sequence the same
      outputs and the same stored state. */
  lemma NonInterference(context: Context, one: seq<AVPacket>, other: seq<AVPacket>, p: AVPacket)
    requires OfSequence(one, p.sequence) == OfSequence(other, p.sequence)
    ensures OutputFor(context, one, p) == OutputFor(context, other, p)
    ensures OutputFor(context, one, p) == OutputFor(context, OfSequence(one, p.sequence), p)
    ensures SlotAfter(context, OfSequence(one + [p], p.sequence))
         == SlotAfter(context, OfSequence(other + [p], p.sequence))
         == SlotAfter(context, OfSequence(OfSequence(one, p.sequence) + [p], p.sequence))
  {
    OfSequenceIdempotent(one, p.sequence);
    OfSequenceAppend(one, [p], p.sequence);
    OfSequenceAppend(other, [p], p.sequence);
    OfSequenceAppend(OfSequence(one, p.sequence), [p], p.sequence);
  }

  /** A frame in transit: the packets it is sent as, and what they carry. */
  datatype Sent = Sent(run: seq<AVPacket>, image: bytes, trailer: bytes)

  /** All packets of every listed frame occur in `traffic`, each frame's in order, mixed in any way. */
  ghost predicate Carries(context: Context, traffic: seq<AVPacket>, sent: map<nat, Sent>) {
    forall s | s in sent ::
      && SentAs(context, s, sent[s].run, sent[s].image, sent[s].trailer)
      && OfSequence(traffic, s) == sent[s].run
  }

  predicate IsFinal(p: AVPacket) {
    Relevant(p) && FragmentIndex(p) == FINAL_INDEX
  }

  lemma NotFinalIsSilent(context: Context, history: seq<AVPacket>, p: AVPacket)
    requires Relevant(p) && FragmentIndex(p) != FINAL_INDEX
    ensures OutputFor(context, history, p) == None
  {
  }

  /** Every image is returned byte for byte when its final fragment is pushed, and its other fragments return
      nothing, whatever came before and whatever is interleaved. */
  lemma InterleavedDelivery(
      context: Context, before: seq<AVPacket>, traffic: seq<AVPacket>, sent: map<nat, Sent>, i: nat)
    requires Carries(context, traffic, sent)
    requires i < |traffic| && Relevant(traffic[i]) && traffic[i].sequence in sent
    ensures OutputFor(context, before + traffic[..i], traffic[i])
         == if IsFinal(traffic[i]) then Some(sent[traffic[i].sequence].image) else None
  {
    hide OutputFor, CompleteRun, RunFrame, FragmentsOf, SealHead, Concat, SlotAfter;
    var p := traffic[i];
    var s := p.sequence;
    var Sent(run, image, trailer) := sent[s];
    var early, late := OfSequence(traffic[..i], s), OfSequence(traffic[i + 1..], s);
    assert traffic == traffic[..i] + ([p] + traffic[i + 1..]);
    OfSequenceAppend(traffic[..i], [p] + traffic[i + 1..], s);
    OfSequenceAppend([p], traffic[i + 1..], s);
    assert OfSequence([p], s) == [p] by {
      assert [p][..0] == [];
    }
    assert run == early + ([p] + late);
    assert run[|early|] == p;
    if IsFinal(p) {
      assert |early| == |run| - 1;
      assert run[..|run| - 1] == early && run == early + [p];
      SentRunCarriesImage(context, s, run, image, trailer);
      OfSequenceAppend(before, traffic[..i], s);
      var own := OfSequence(before + traffic[..i], s);
      assert LastOf(own, |early|) == early;
      assert Completes(context, own, |early|, p, image);
      DeliveredIff(context, before + traffic[..i], p, image);
    } else {
      NotFinalIsSilent(context, before + traffic[..i], p);
    }
  }

  /** The images of a traffic, in the order of their final fragments. */
  ghost function ImagesInOrder(traffic: seq<AVPacket>, sent: map<nat, Sent>): seq<bytes> {
    if traffic == [] then []
    else
      var before, last := traffic[..|traffic| - 1], traffic[|traffic| - 1];
      if IsFinal(last) && last.sequence in sent then ImagesInOrder(before, sent) + [sent[last.sequence].image]
      else ImagesInOrder(before, sent)
  }

  /** Over a whole traffic of distinct sequences the reassembler returns the images sent and nothing else. */
  lemma TrafficDelivers(context: Context, traffic: seq<AVPacket>, sent: map<nat, Sent>)
    requires Carries(context, traffic, sent)
    requires forall p | p in traffic && Relevant(p) :: p.sequence in sent
    ensures FramesOf(context, traffic) == ImagesInOrder(traffic, sent)
  {
    PrefixDelivers(context, traffic, sent, |traffic|);
    assert traffic[..|traffic|] == traffic;
  }

  lemma {:induction false} PrefixDelivers(context: Context, traffic: seq<AVPacket>, sent: map<nat, Sent>, n: nat)
    requires Carries(context, traffic, sent)
    requires forall p | p in traffic && Relevant(p) :: p.sequence in sent
    requires n <= |traffic|
    ensures FramesOf(context, traffic[..n]) == ImagesInOrder(traffic[..n], sent)
    decreases n
  {
    hide OutputFor, Carries;
    if n > 0 {
      PrefixDelivers(context, traffic, sent, n - 1);
      assert traffic[..n][..n - 1] == traffic[..n - 1];
      var p := traffic[n - 1];
      assert p in traffic;
      if Relevant(p) {
        InterleavedDelivery(context, [], traffic, sent, n - 1);
        assert [] + traffic[..n - 1] == traffic[..n - 1];
      } else {
        IrrelevantIsSilent(context, traffic[..n - 1], p);
      }
    }
  }

  lemma IrrelevantIsSilent(context: Context, history: seq<AVPacket>, p: AVPacket)
    requires !Relevant(p)
    ensures OutputFor(context, history, p) == None
  {
  }

  // ----- a sender exists for every image and every cut -----

  /** The packet of one fragment, with the header a TCP parser reports for it. */
  function FragmentPacket(
      sequence: nat, timestamp: nat, channel: nat, encryptedLength: nat, index: byte, fragment: bytes): AVPacket
  {
    var bare := AVPacket(FixedHeader(6, 10, 0, false, 0), index == 1, MJPEG_FORMAT, 0, channel, sequence, timestamp,
                         encryptedLength, [1, index, 0] + fragment);
    bare.(header := TcpHeader(6, 10, EncodeAvBody(bare)))
  }

  lemma FragmentPacketShape(
      sequence: nat, timestamp: nat, channel: nat, encryptedLength: nat, index: byte, fragment: bytes)
    ensures var p := FragmentPacket(sequence, timestamp, channel, encryptedLength, index, fragment);
            && WellMarked(p) && FragmentIndex(p) == index && FragmentOf(p) == fragment
            && p.sequence == sequence && p.timestamp == timestamp && p.channel == channel
            && p.encryptedLength == encryptedLength
  {
    hide TcpHeader, EncodeAvBody;
    assert ([1, index, 0] + fragment)[3..] == fragment;
  }

  function SendFrame(sequence: nat, timestamp: nat, channel: nat, n: nat, fragments: seq<bytes>): (run: seq<AVPacket>)
    requires 2 <= |fragments| <= 255
    ensures |run| == |fragments|
  {
    seq(|fragments|, i requires 0 <= i < |fragments| =>
      FragmentPacket(sequence, timestamp, channel, if i == 0 then n else 0,
                     if i == |fragments| - 1 then FINAL_INDEX else i + 1, fragments[i]))
  }

  /** Any image with any trailer, any block-aligned encrypted head and any cut into 2 to 255 pieces can be sent. */
  lemma SendFrameIsSent(
      context: Context, sequence: nat, timestamp: nat, channel: nat, n: nat, fragments: seq<bytes>,
      image: bytes, trailer: bytes)
    requires 2 <= |fragments| <= 255
    requires IsJpeg(image) && |image| + |trailer| <= context.maxFrameBytes
    requires 0 < n <= |image| + |trailer| && n % Crypto.BLOCK_SIZE == 0
    requires Concat(fragments) == SealHead(context, sequence, timestamp, channel, n, image + trailer)
    ensures SentAs(context, sequence, SendFrame(sequence, timestamp, channel, n, fragments), image, trailer)
  {
    hide SealHead, Concat, FragmentPacket, FragmentIndex, FragmentOf;
    var run := SendFrame(sequence, timestamp, channel, n, fragments);
    forall i | 0 <= i < |run|
      ensures WellMarked(run[i]) && FragmentOf(run[i]) == fragments[i]
      ensures run[i].sequence == sequence && run[i].encryptedLength == if i == 0 then n else 0
      ensures run[i].timestamp == timestamp && run[i].channel == channel
      ensures FragmentIndex(run[i]) == if i == |run| - 1 then FINAL_INDEX else i + 1
    {
      FragmentPacketShape(sequence, timestamp, channel, if i == 0 then n else 0,
                          if i == |run| - 1 then FINAL_INDEX else i + 1, fragments[i]);
    }
    assert FragmentsOf(run) == fragments;
  }
}
