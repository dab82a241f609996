/** One frame on the wire, and what the divisions into chunks do to it. */
module Witnesses {
  import opened Basics
  import opened Varint
  import opened Pprpc
  import opened Framing
  import opened Reassembler
  import opened ReassemblyLaws
  import opened Sender
  import opened Messages
  import opened Handshake
  import opened Session
  import opened Chunkings
  import opened Delivery
  import Crypto
  import Keys

  // ----- a frame of two fragments -----

  const IMAGE: bytes := [255, 216, 255, 217]
  const TRAILER: bytes := [0, 0, 0, 0, 0, 0, 0, 0, 0, 0, 0, 0]

  function Sealed(suite: Crypto.Suite, prefix: bytes): (sealed: bytes)
    ensures |sealed| == 16
  {
    SealHead(StreamContext(suite, prefix), 0, 0, 0, 16, IMAGE + TRAILER)
  }

  function Pieces(suite: Crypto.Suite, prefix: bytes): seq<bytes> {
    [Sealed(suite, prefix)[..8], Sealed(suite, prefix)[8..]]
  }

  function Run(suite: Crypto.Suite, prefix: bytes): seq<AVPacket> {
    SendFrame(0, 0, 0, 16, Pieces(suite, prefix))
  }

  /** The two fragments as words, each in its own chunk. */
  function VideoOf(suite: Crypto.Suite, prefix: bytes): seq<seq<bytes>> {
    [[FragmentWord(0, 0, 0, 16, 1, Pieces(suite, prefix)[0])],
     [FragmentWord(0, 0, 0, 0, FINAL_INDEX, Pieces(suite, prefix)[1])]]
  }

  lemma ShortFragment(encryptedLength: nat, index: byte, fragment: bytes)
    requires encryptedLength <= 16 && |fragment| == 8
    ensures var p := FragmentPacket(0, 0, 0, encryptedLength, index, fragment);
            var word := FragmentWord(0, 0, 0, encryptedLength, index, fragment);
            WellFormed(word) && PacketOf(word) == Av(p)
  {
    hide ParsePacket, EncodeFrame, EncodeVarint;
    Pow128Values();
    assert Pow128(1) == 128 * Pow128(0) == 128;
    EncodedLength(0, 1);
    EncodedLength(encryptedLength, 1);
    FragmentOnWire(0, 0, 0, encryptedLength, index, fragment);
  }

  lemma VideoIsRun(suite: Crypto.Suite, prefix: bytes)
    ensures Video(VideoOf(suite, prefix))
    ensures AvOf(Concat(BatchesOf(VideoOf(suite, prefix)))) == Run(suite, prefix)
  {
    hide Sealed, FragmentWord, FragmentPacket, WellFormed, PacketOf, AvOf;
    var video, pieces, run := VideoOf(suite, prefix), Pieces(suite, prefix), Run(suite, prefix);
    ShortFragment(16, 1, pieces[0]);
    ShortFragment(0, FINAL_INDEX, pieces[1]);
    var batches := BatchesOf(video);
    assert batches[0] == [Av(run[0])] && batches[1] == [Av(run[1])];
    assert batches == [[Av(run[0])]] + [[Av(run[1])]];
    ConcatAppend([[Av(run[0])]], [[Av(run[1])]]);
    OneChunk([Av(run[0])]);
    OneChunk([Av(run[1])]);
    OneAv(run[0]);
    OneAv(run[1]);
    AvOfAppend([Av(run[0])], [Av(run[1])]);
    assert run == [run[0]] + [run[1]];
  }

  lemma OneChunk<T>(chunk: seq<T>)
    ensures Concat([chunk]) == chunk
  {
    ConcatCons(chunk, []);
    assert [chunk] + [] == [chunk] && chunk + [] == chunk;
  }

  lemma OneAv(p: AVPacket)
    ensures AvOf([Av(p)]) == [p]
  {
    AvOfSnoc([], Av(p));
    NoAv();
    assert [] + [Av(p)] == [Av(p)];
  }

  lemma RunIsSent(suite: Crypto.Suite, prefix: bytes)
    ensures SentAs(StreamContext(suite, prefix), 0, Run(suite, prefix), IMAGE, TRAILER)
  {
    hide SealHead, FragmentPacket;
    var pieces := Pieces(suite, prefix);
    ConcatCons(pieces[0], [pieces[1]]);
    OneChunk(pieces[1]);
    assert [pieces[0]] + [pieces[1]] == pieces && pieces[0] + pieces[1] == Sealed(suite, prefix);
    assert EoiAt(IMAGE, 2);
    SendFrameIsSent(StreamContext(suite, prefix), 0, 0, 0, 16, pieces, IMAGE, TRAILER);
  }

  /** Under its own prefix the run gives the image. */
  lemma RunDelivers(suite: Crypto.Suite, prefix: bytes)
    ensures FramesOf(StreamContext(suite, prefix), Run(suite, prefix)) == [IMAGE]
  {
    hide SealHead, FragmentPacket, FramesOf, ImagesInOrder, OutputFor, SentAs;
    var context, run := StreamContext(suite, prefix), Run(suite, prefix);
    RunIsSent(suite, prefix);
    RunShape(suite, prefix);
    var sent := map[0 := Sent(run, IMAGE, TRAILER)];
    TrafficDelivers(context, run, sent);
    TwoInOrder(run, sent);
  }

  lemma RunShape(suite: Crypto.Suite, prefix: bytes)
    ensures var run := Run(suite, prefix);
            && |run| == 2 && OfSequence(run, 0) == run && OfSequence(run[..1], 0) == run[..1]
            && (forall p | p in run :: WellMarked(p) && p.sequence == 0 && p.timestamp == 0 && p.channel == 0)
            && FragmentIndex(run[0]) == 1 && FragmentIndex(run[1]) == FINAL_INDEX
            && FragmentOf(run[0]) == Pieces(suite, prefix)[0] && FragmentOf(run[1]) == Pieces(suite, prefix)[1]
            && run[0].encryptedLength == 16 && run[1].encryptedLength == 0
  {
    hide SealHead, FragmentPacket, FragmentIndex, FragmentOf, Sealed;
    var pieces, run := Pieces(suite, prefix), Run(suite, prefix);
    FragmentPacketShape(0, 0, 0, 16, 1, pieces[0]);
    FragmentPacketShape(0, 0, 0, 0, FINAL_INDEX, pieces[1]);
    assert run == [run[0], run[1]];
    assert run[..1] == [run[0]] && run[..1][..0] == [];
  }

  lemma TwoInOrder(run: seq<AVPacket>, sent: map<nat, Sent>)
    requires |run| == 2 && Relevant(run[0]) && FragmentIndex(run[0]) == 1
    requires Relevant(run[1]) && FragmentIndex(run[1]) == FINAL_INDEX && run[1].sequence in sent
    ensures ImagesInOrder(run, sent) == [sent[run[1].sequence].image]
  {
    assert run[..1][..0] == [];
    assert ImagesInOrder(run[..1], sent) == ImagesInOrder(run[..1][..0], sent) == [];
  }

  // ----- the frame in a connection -----

  /** Groups of RPC packets in front add no media. */
  lemma {:induction false} SilentFront(front: seq<seq<Packet>>, rest: seq<seq<Packet>>)
    requires forall h, p | 0 <= h < |front| && p in front[h] :: !p.Av?
    ensures AvOf(Concat(front + rest)) == AvOf(Concat(rest))
    decreases |front|
  {
    hide AvOf;
    if front == [] {
      assert front + rest == rest;
    } else {
      assert front + rest == [front[0]] + (front[1..] + rest);
      ConcatCons(front[0], front[1..] + rest);
      AvOfAppend(front[0], Concat(front[1..] + rest));
      NoMedia(front[0]);
      assert forall h | 0 <= h < |front[1..]| :: front[1..][h] == front[h + 1];
      SilentFront(front[1..], rest);
      assert [] + AvOf(Concat(rest)) == AvOf(Concat(rest));
    }
  }

  lemma {:induction false} NoMedia(packets: seq<Packet>)
    requires forall p | p in packets :: !p.Av?
    ensures AvOf(packets) == []
    decreases |packets|
  {
    if packets != [] {
      NoMedia(packets[..|packets| - 1]);
    }
  }

  /** Whatever RPC packets come first, the media of the stream are those of its video. */
  lemma RestMedia(
      suite: Crypto.Suite, bootstrap: bytes, front: seq<seq<Packet>>, stamp: nat, video: seq<seq<bytes>>)
    requires stamp < Pow128(10) && Video(video) && AllWhole(Rest(suite, bootstrap, stamp, video))
    requires forall h, p | 0 <= h < |front| && p in front[h] :: !p.Av?
    ensures AvOf(Concat(front + BatchesOf(Rest(suite, bootstrap, stamp, video)))) == AvOf(Concat(BatchesOf(video)))
  {
    hide AvOf, Rest, Video;
    var first := FirstOf(suite, bootstrap, stamp);
    RestInTwo(suite, bootstrap, stamp, video);
    SilentFront(BatchesOf(first), BatchesOf(video));
    SilentFront(front, BatchesOf(first) + BatchesOf(video));
  }

  function FirstOf(suite: Crypto.Suite, bootstrap: bytes, stamp: nat): seq<seq<bytes>> {
    [[TimeSyncWord(suite, bootstrap, stamp)], [TimeSyncWord(suite, bootstrap, stamp)],
     [Response(suite, bootstrap, 3, VIDEO_START_COMMAND, [])]]
  }

  lemma RestInTwo(suite: Crypto.Suite, bootstrap: bytes, stamp: nat, video: seq<seq<bytes>>)
    requires stamp < Pow128(10) && Video(video) && AllWhole(Rest(suite, bootstrap, stamp, video))
    ensures AllWhole(FirstOf(suite, bootstrap, stamp)) && AllWhole(video)
    ensures BatchesOf(Rest(suite, bootstrap, stamp, video))
         == BatchesOf(FirstOf(suite, bootstrap, stamp)) + BatchesOf(video)
    ensures var batches := BatchesOf(FirstOf(suite, bootstrap, stamp));
            forall h, p | 0 <= h < |batches| && p in batches[h] :: !p.Av?
  {
    hide TimeSyncWord, Response, WellFormed, PacketOf, FaultOf;
    TimeSyncSays(suite, bootstrap, stamp);
    PlainAnswerSays(suite, bootstrap, 3, VIDEO_START_COMMAND);
    assert Rest(suite, bootstrap, stamp, video) == FirstOf(suite, bootstrap, stamp) + video;
    InFront(FirstOf(suite, bootstrap, stamp), video);
  }

  /** The same bytes with a single grant and one frame: with the first two answers in chunks of their own the run
      delivers the frame, with both in one chunk it delivers nothing. */
  lemma CoalescedAnswerLosesTheFrame(suite: Crypto.Suite, bootstrap: bytes, prefix: bytes, stamp: nat)
    requires IsPrefix(prefix) && stamp < Pow128(10)
    ensures Video(VideoOf(suite, prefix))
    ensures var rest := Rest(suite, bootstrap, stamp, VideoOf(suite, prefix));
            var apart := Chunked(Apart(suite, bootstrap, prefix) + rest);
            var together := Chunked(Together(suite, bootstrap, prefix) + rest);
            && BytesOf(apart) == BytesOf(together)
            && GrantsAgree(suite, bootstrap, StreamPackets(BytesOf(apart)))
            && Delivered(suite, bootstrap, apart, false, None) == [IMAGE]
            && forall cut: Option<nat> :: Delivered(suite, bootstrap, together, false, cut) == []
  {
    hide VideoOf, Video, Rest, Run, AvOf, FramesOf, StreamPackets, GrantsAgree, Delivered, StartOutcome, AllWhole;
    hide Readable, Together, AuthWord, Response, WellFormed, PacketOf, ArrivalsOf;
    var video := VideoOf(suite, prefix);
    var front, rest := Apart(suite, bootstrap, prefix), Rest(suite, bootstrap, stamp, video);
    VideoIsRun(suite, prefix);
    CoalescedAnswerLosesTheStream(suite, bootstrap, prefix, stamp, video);
    RestSays(suite, bootstrap, stamp, video);
    ApartConnects(suite, bootstrap, prefix, stamp, video);
    ApartFront(suite, bootstrap, prefix);
    InFront(front, rest);
    ChunkedArrive(front + rest);
    ApartIsReadable(suite, bootstrap, prefix, stamp, video);
    ReadableIsHeard(suite, bootstrap, Chunked(front + rest));
    RestMedia(suite, bootstrap, BatchesOf(front), stamp, video);
    RunDelivers(suite, prefix);
  }

  lemma ApartFront(suite: Crypto.Suite, bootstrap: bytes, prefix: bytes)
    requires IsPrefix(prefix)
    ensures AllWhole(Apart(suite, bootstrap, prefix))
    ensures var batches := BatchesOf(Apart(suite, bootstrap, prefix));
            forall h, p | 0 <= h < |batches| && p in batches[h] :: !p.Av?
  {
    hide AuthWord, Response, WellFormed, PacketOf, GrantedPrefix;
    AuthSays(suite, bootstrap, prefix);
    PlainAnswerSays(suite, bootstrap, 2, SYNC_COMMAND);
  }

  // ----- two prefixes that open the frame differently -----

  /** Block functions that do nothing, and a digest that tells the messages that start with `one` from all others. */
  function Telling(one: bytes): Crypto.Suite {
    Crypto.Primitives((key, block) => block, (key, block) => block,
                      message => seq(32, _ => if one <= message then 48 else 49))
  }

  /** Under another prefix the first byte of the opened frame is not that of an image. */
  lemma OtherDeliversNothing(one: bytes, other: bytes)
    requires IsPrefix(one) && IsPrefix(other) && one != other
    ensures FramesOf(StreamContext(Telling(one), other), Run(Telling(one), one)) == []
  {
    hide FragmentPacket, Run, RunFrame, CompleteRun;
    var suite := Telling(one);
    var context, run := StreamContext(suite, other), Run(suite, one);
    RunShape(suite, one);
    assert run == [run[0]] + [run[1]] && run[..1] == [run[0]] && run[..1][..0] == [];
    NotFinalIsSilent(context, [], run[0]);
    OtherOpensWrong(one, other);
    assert LastOf([run[0]], 1) == [run[0]];
    hide LastOf, OutputFor, OfSequence;
    if OutputFor(context, [run[0]], run[1]).Some? {
      DeliveredIff(context, [run[0]], run[1], OutputFor(context, [run[0]], run[1]).value);
    }
    assert FramesOf(context, run[..1]) == FramesOf(context, []) == [];
  }

  lemma OtherOpensWrong(one: bytes, other: bytes)
    requires IsPrefix(one) && IsPrefix(other) && one != other
    ensures var run := Run(Telling(one), one);
            AllRelevant(run) && RunFrame(StreamContext(Telling(one), other), run) == None
  {
    hide FragmentPacket, Run, Sealed, OpenHead, Telling, FragmentOf, FragmentIndex, FinishFrame;
    var suite := Telling(one);
    var run, context := Run(suite, one), StreamContext(suite, other);
    RunShape(suite, one);
    assert FirstEncrypted(run, 0) == 0;
    var sealed := Concat(FragmentsOf(run));
    assert FragmentsOf(run) == [FragmentOf(run[0])] + [FragmentOf(run[1])];
    ConcatCons(FragmentOf(run[0]), [FragmentOf(run[1])]);
    OneChunk(FragmentOf(run[1]));
    assert sealed == Sealed(suite, one);
    FirstByte(one, other);
    NoImage(context, run[0], sealed);
  }

  /** A frame whose head does not open as an image is not delivered. */
  lemma NoImage(context: Context, metadata: AVPacket, assembled: bytes)
    requires metadata.encryptedLength == |assembled| == 16 && OpenHead(context, metadata, assembled)[0] != 255
    ensures FinishFrame(context, metadata, assembled) == None
  {
    hide OpenHead;
  }

  lemma XorValues()
    ensures Crypto.XorByte(255, 48) == 207 && Crypto.XorByte(207, 49) == 254
  {
    assert Crypto.XorBits(3, 0, 2) == 3 && Crypto.XorBits(15, 3, 4) == 12;
    assert Crypto.XorBits(63, 12, 6) == 51;
    assert Crypto.XorBits(12, 3, 4) == 15;
    assert Crypto.XorBits(51, 12, 6) == 63;
  }

  /** The digest gives the two prefixes different keys. */
  lemma KeysDiffer(one: bytes, other: bytes)
    requires IsPrefix(one) && IsPrefix(other) && one != other
    ensures Keys.DeriveAvKey(Telling(one), one, 0, 0, 0) == seq(32, _ => 48)
    ensures Keys.DeriveAvKey(Telling(one), other, 0, 0, 0) == seq(32, _ => 49)
  {
    var suffix := Keys.AvKeySuffix(0, 0, 0);
    assert one <= one + suffix;
    assert !(one <= other + suffix) by {
      assert (other + suffix)[..32] == other;
    }
  }

  /** 255 sealed under one key opens as 254 under the other. */
  lemma FirstByte(one: bytes, other: bytes)
    requires IsPrefix(one) && IsPrefix(other) && one != other
    ensures var sealed := Sealed(Telling(one), one);
            forall m: AVPacket | m.encryptedLength == 16 && m.sequence == m.timestamp == m.channel == 0 ::
              OpenHead(StreamContext(Telling(one), other), m, sealed)[0] == 254
  {
    hide Keys.DeriveAvKey, Crypto.XorByte;
    var suite, sealed := Telling(one), Sealed(Telling(one), one);
    var key, wrong := Keys.DeriveAvKey(suite, one, 0, 0, 0), Keys.DeriveAvKey(suite, other, 0, 0, 0);
    KeysDiffer(one, other);
    XorValues();
    var plain := IMAGE + TRAILER;
    assert plain[..16] == plain && plain[0] == 255;
    SealedBlock(suite, key, plain);
    OpenedBlock(suite, wrong, sealed);
    assert sealed[..16] == sealed;
  }

  lemma SealedBlock(suite: Crypto.Suite, key: bytes, plain: bytes)
    requires |key| == 32 && |plain| == 16 && forall k: bytes, b: bytes :: suite.encryptBlock(k, b) == b
    ensures Crypto.CbcEncrypt(suite, key, key[16..], plain)[0] == Crypto.XorByte(plain[0], key[16])
  {
    hide Crypto.XorByte;
    assert plain[..16] == plain;
  }

  lemma OpenedBlock(suite: Crypto.Suite, key: bytes, sealed: bytes)
    requires |key| == 32 && |sealed| == 16 && forall k: bytes, b: bytes :: suite.decryptBlock(k, b) == b
    ensures Crypto.DecryptUnpadded(suite, sealed, key, key[16..]).Success?
    ensures Crypto.DecryptUnpadded(suite, sealed, key, key[16..]).value[0] == Crypto.XorByte(sealed[0], key[16])
  {
    hide Crypto.XorByte;
    assert sealed[..16] == sealed;
  }

  /** One camera, one stream with two grants and one frame: in chunks of their own the grants lead to the frame, in one
      chunk to nothing. */
  lemma GrantsDivideTheFrame(bootstrap: bytes, one: bytes, other: bytes, stamp: nat)
    requires IsPrefix(one) && IsPrefix(other) && one != other && stamp < Pow128(10)
    ensures var suite := Telling(one);
            && Video(VideoOf(suite, one))
            && var rest := Rest(suite, bootstrap, stamp, VideoOf(suite, one));
               var apart := Chunked(GrantsApart(suite, bootstrap, one, other) + rest);
               var together := Chunked(GrantsTogether(suite, bootstrap, one, other) + rest);
               && BytesOf(apart) == BytesOf(together)
               && Delivered(suite, bootstrap, apart, false, None) == [IMAGE]
               && Delivered(suite, bootstrap, together, false, None) == []
  {
    hide VideoOf, Video, Rest, Run, AvOf, FramesOf, StreamPackets, Delivered, AllWhole, Telling;
    hide Readable, GrantsTogether, AuthWord, Response, WellFormed, PacketOf, ArrivalsOf;
    var suite := Telling(one);
    var video := VideoOf(suite, one);
    var front, rest := GrantsApart(suite, bootstrap, one, other), Rest(suite, bootstrap, stamp, video);
    VideoIsRun(suite, one);
    TwoGrantsDivide(suite, bootstrap, one, other, stamp, video);
    RestSays(suite, bootstrap, stamp, video);
    GrantsApartConnects(suite, bootstrap, one, other, stamp, video);
    GrantsFront(suite, bootstrap, one, other);
    InFront(front, rest);
    ChunkedArrive(front + rest);
    GrantsAreReadable(suite, bootstrap, one, other, stamp, video);
    ReadableIsHeard(suite, bootstrap, Chunked(front + rest));
    RestMedia(suite, bootstrap, BatchesOf(front), stamp, video);
    RunDelivers(suite, one);
    OtherDeliversNothing(one, other);
  }

  lemma GrantsFront(suite: Crypto.Suite, bootstrap: bytes, one: bytes, other: bytes)
    requires IsPrefix(one) && IsPrefix(other)
    ensures AllWhole(GrantsApart(suite, bootstrap, one, other))
    ensures var batches := BatchesOf(GrantsApart(suite, bootstrap, one, other));
            forall h, p | 0 <= h < |batches| && p in batches[h] :: !p.Av?
  {
    hide AuthWord, Response, WellFormed, PacketOf, GrantedPrefix;
    AuthSays(suite, bootstrap, one);
    AuthSays(suite, bootstrap, other);
    PlainAnswerSays(suite, bootstrap, 2, SYNC_COMMAND);
  }
}
