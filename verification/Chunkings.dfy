/** One byte stream, two divisions into chunks, two outcomes: what an answer loses by sharing a chunk. */
module Chunkings {
  import opened Basics
  import opened Varint
  import opened Pprpc
  import opened Framing
  import opened Rpc
  import opened Protobuf
  import opened Messages
  import opened Handshake
  import opened HandshakeLaws
  import opened Reassembler
  import opened Session
  import Crypto

  // ----- chunks made of whole packets -----

  /** Each group of packets in one chunk. */
  function Chunked(groups: seq<seq<bytes>>): seq<RecvEvent> {
    seq(|groups|, n requires 0 <= n < |groups| => Data(Concat(groups[n])))
  }

  ghost predicate Whole(group: seq<bytes>) {
    group != [] && forall word | word in group :: WellFormed(word)
  }

  ghost predicate AllWhole(groups: seq<seq<bytes>>) {
    forall n | 0 <= n < |groups| :: Whole(groups[n])
  }

  function BatchesOf(groups: seq<seq<bytes>>): (batches: seq<seq<Packet>>)
    requires AllWhole(groups)
    ensures |batches| == |groups|
    ensures forall n | 0 <= n < |groups| :: batches[n] == PacketsOf(groups[n])
  {
    seq(|groups|, n requires 0 <= n < |groups| => PacketsOf(groups[n]))
  }

  lemma WholeGroupParses(group: seq<bytes>)
    requires Whole(group)
    ensures Concat(group) != [] && ParseStream(Concat(group)) == Success((PacketsOf(group), []))
  {
    hide ParseStream;
    FramingComplete(group, group[0], 0);
    assert Concat(group) + group[0][..0] == Concat(group);
    assert group[0] != [] by {
      NothingIsNoPacket();
    }
  }

  lemma NothingIsNoPacket()
    ensures !WellFormed([])
  {
  }

  lemma {:induction false} ChunkedArrive(groups: seq<seq<bytes>>)
    requires AllWhole(groups)
    ensures ArrivalsOf([], Chunked(groups)) == Arrivals(BatchesOf(groups), Waiting)
    decreases |groups|
  {
    hide ParseStream;
    if groups != [] {
      WholeGroupParses(groups[0]);
      ChunkedArrive(groups[1..]);
      assert Chunked(groups)[1..] == Chunked(groups[1..]);
      assert BatchesOf(groups) == [PacketsOf(groups[0])] + BatchesOf(groups[1..]);
      assert [] + Concat(groups[0]) == Concat(groups[0]);
    }
  }

  lemma {:induction false} BytesOfChunked(groups: seq<seq<bytes>>)
    ensures BytesOf(Chunked(groups)) == Concat(Concat(groups))
    decreases |groups|
  {
    if groups != [] {
      BytesOfChunked(groups[1..]);
      assert Chunked(groups)[1..] == Chunked(groups[1..]);
      ConcatAppend(groups[0], Concat(groups[1..]));
    }
  }

  // ----- the camera's words -----

  function Response(suite: Crypto.Suite, bootstrap: bytes, sequence: nat, commandId: nat, plaintext: bytes): bytes {
    PackRpc(suite, sequence, commandId, plaintext, bootstrap, RPC_RESPONSE, 0).value
  }

  function AuthWord(suite: Crypto.Suite, bootstrap: bytes, prefix: bytes): bytes {
    Response(suite, bootstrap, 1, LAN_AUTH_COMMAND, EncodeFields([BytesField(1, prefix)]))
  }

  function TimeSyncWord(suite: Crypto.Suite, bootstrap: bytes, stamp: nat): bytes {
    PackRpc(suite, 100, TIME_SYNC_COMMAND, EncodeFields([VarintField(1, stamp)]), bootstrap, RPC_REQUEST, 0).value
  }

  /** A word parses to a packet of this shape with this plaintext. */
  ghost predicate Says(
      suite: Crypto.Suite, bootstrap: bytes, word: bytes, sequence: nat, commandId: nat, rpcType: nat,
      code: Option<nat>, plaintext: bytes)
  {
    && WellFormed(word) && PacketOf(word).Rpc?
    && var rpc := PacketOf(word).rpc;
       && rpc.sequence == sequence && rpc.commandId == commandId && rpc.rpcType == rpcType
       && rpc.responseCode == code && DecryptRpcPayload(suite, rpc, bootstrap) == Success(plaintext)
  }

  lemma WordSays(
      suite: Crypto.Suite, bootstrap: bytes, sequence: nat, commandId: nat, plaintext: bytes, code: Option<nat>)
    requires sequence < 0x1000_0000 && commandId < 0x1000_0000 && |plaintext| < 0x100_0000
    requires code.Some? ==> code.value < 0x1000_0000
    ensures var rpcType := if code.Some? then RPC_RESPONSE else RPC_REQUEST;
            var packed := PackRpc(suite, sequence, commandId, plaintext, bootstrap, rpcType,
                                  if code.Some? then code.value else 0);
            packed.Success? && Says(suite, bootstrap, packed.value, sequence, commandId, rpcType, code, plaintext)
  {
    hide EncodeVarint, ParsePacket, PackRpc, DecryptRpcPayload;
    Pow128Values();
    EncodedLength(sequence, 4);
    EncodedLength(commandId, 4);
    if code.Some? {
      EncodedLength(code.value, 4);
    }
    PackRoundTrip(suite, sequence, commandId, plaintext, bootstrap, code);
  }

  predicate IsPrefix(prefix: bytes) {
    |prefix| == 32 && forall i | 0 <= i < |prefix| :: IsHexDigit(prefix[i])
  }

  lemma AuthSays(suite: Crypto.Suite, bootstrap: bytes, prefix: bytes)
    requires IsPrefix(prefix)
    ensures var word := AuthWord(suite, bootstrap, prefix);
            && WellFormed(word) && Answers(PacketOf(word), 1, LAN_AUTH_COMMAND)
            && PacketOf(word).rpc.responseCode == Some(0)
            && GrantedPrefix(suite, bootstrap, PacketOf(word).rpc) == Success(prefix)
  {
    hide ParsePacket, PackRpc, DecryptRpcPayload, ParseFields, ScanFor, EncodeField;
    var fields := [BytesField(1, prefix)];
    Pow128Values();
    ParseWhole(fields);
    ScanFinds(fields, 1, 2, 0);
    ShortField(fields[0]);
    WordSays(suite, bootstrap, 1, LAN_AUTH_COMMAND, EncodeFields(fields), Some(0));
  }

  lemma ShortField(f: Field)
    requires f.number < 16
    requires if f.VarintField? then f.value < Pow128(10) else f.BytesField? && |f.data| <= 32
    ensures |EncodeFields([f])| <= 50
  {
    hide EncodeVarint;
    EncodeOne(f);
    Pow128Values();
    EncodedLength(f.Tag(), 4);
    if f.BytesField? {
      EncodedLength(|f.data|, 4);
    } else {
      EncodedLength(f.value, 10);
    }
  }

  lemma TimeSyncSays(suite: Crypto.Suite, bootstrap: bytes, stamp: nat)
    requires stamp < Pow128(10)
    ensures var word := TimeSyncWord(suite, bootstrap, stamp);
            && WellFormed(word) && IsTimeSync(PacketOf(word)) && FaultOf(suite, bootstrap, PacketOf(word)) == None
  {
    hide ParsePacket, PackRpc, DecryptRpcPayload, ParseFields, ScanFor, EncodeField;
    var fields := [VarintField(1, stamp)];
    Pow128Values();
    ParseWhole(fields);
    ScanFinds(fields, 1, 0, 0);
    ShortField(fields[0]);
    WordSays(suite, bootstrap, 100, TIME_SYNC_COMMAND, EncodeFields(fields), None);
  }

  lemma PlainAnswerSays(suite: Crypto.Suite, bootstrap: bytes, sequence: nat, commandId: nat)
    requires sequence < 0x1000_0000 && commandId < 0x1000_0000
    ensures var word := Response(suite, bootstrap, sequence, commandId, []);
            && WellFormed(word) && Answers(PacketOf(word), sequence, commandId)
            && PacketOf(word).rpc.responseCode == Some(0)
  {
    hide ParsePacket, PackRpc, DecryptRpcPayload;
    WordSays(suite, bootstrap, sequence, commandId, [], Some(0));
  }

  // ----- batches that matter only by their packets -----

  lemma OnePacket(suite: Crypto.Suite, bootstrap: bytes, packet: Packet, sequence: nat, commandId: nat)
    ensures LastAnswer([packet], sequence, commandId)
         == if Answers(packet, sequence, commandId) then Some(packet.rpc) else None
    ensures SyncFault(suite, bootstrap, [packet]) == FaultOf(suite, bootstrap, packet)
    ensures SyncsOf([packet]) == if IsTimeSync(packet) then [packet.rpc] else []
  {
    hide FaultOf;
    NoFaultInNothing(suite, bootstrap);
    SyncFaultSnoc(suite, bootstrap, [], packet);
    SyncsOfSnoc([], packet);
    NoSyncs();
    assert [] + [packet] == [packet];
    assert [packet][..0] == [];
  }

  /** An answer in a batch of its own answers its own request and no other. */
  lemma AnswerAlone(suite: Crypto.Suite, bootstrap: bytes, packet: Packet, sequence: nat, commandId: nat)
    requires Answers(packet, sequence, commandId)
    ensures SyncFault(suite, bootstrap, [packet]) == None
    ensures LastAnswer([packet], sequence, commandId) == Some(packet.rpc)
    ensures forall other: nat, command: nat | other != sequence :: !Replies([packet], other, command)
  {
    hide LastAnswer, SyncFault, FaultOf;
    OthersAreNoFault(suite, bootstrap, packet);
    OnePacket(suite, bootstrap, packet, sequence, commandId);
    forall other: nat, command: nat | other != sequence
      ensures !Replies([packet], other, command)
    {
      OnePacket(suite, bootstrap, packet, other, command);
    }
  }

  lemma TwoPackets(suite: Crypto.Suite, bootstrap: bytes, one: Packet, other: Packet, sequence: nat, commandId: nat)
    ensures LastAnswer([one, other], sequence, commandId)
         == if Answers(other, sequence, commandId) then Some(other.rpc)
            else if Answers(one, sequence, commandId) then Some(one.rpc) else None
    ensures FaultOf(suite, bootstrap, one) == None ==>
              SyncFault(suite, bootstrap, [one, other]) == FaultOf(suite, bootstrap, other)
  {
    hide FaultOf;
    OnePacket(suite, bootstrap, one, sequence, commandId);
    SyncFaultSnoc(suite, bootstrap, [one], other);
    assert [one] + [other] == [one, other] && [one, other][..1] == [one];
  }

  /** A wait that no batch answers lasts until the arrivals end. */
  lemma {:induction false} NeverAnswered(
      suite: Crypto.Suite, bootstrap: bytes, batches: seq<seq<Packet>>, ending: Ending, from: nat,
      sequence: nat, commandId: nat)
    requires from <= |batches| && Clean(suite, bootstrap, batches, from, |batches|)
    requires forall h | from <= h < |batches| :: !Replies(batches[h], sequence, commandId)
    ensures AwaitAnswer(suite, bootstrap, From(batches, ending, from), sequence, commandId) == Failure(StopOf(ending))
    decreases |batches| - from
  {
    hide SyncFault, LastAnswer;
    if from < |batches| {
      assert From(batches, ending, from).Tail() == From(batches, ending, from + 1);
      NeverAnswered(suite, bootstrap, batches, ending, from + 1, sequence, commandId);
    }
  }

  /** Batches of AV packets only. */
  ghost predicate Video(groups: seq<seq<bytes>>) {
    AllWhole(groups) && forall n, word | 0 <= n < |groups| && word in groups[n] :: PacketOf(word).Av?
  }

  lemma {:induction false} VideoIsSilent(
      suite: Crypto.Suite, bootstrap: bytes, packets: seq<Packet>, sequence: nat, commandId: nat)
    requires forall p | p in packets :: p.Av?
    ensures !Replies(packets, sequence, commandId) && SyncFault(suite, bootstrap, packets) == None
  {
    if packets != [] {
      assert packets[|packets| - 1] in packets;
      OthersAreNoFault(suite, bootstrap, packets[|packets| - 1]);
      hide FaultOf;
      VideoIsSilent(suite, bootstrap, packets[..|packets| - 1], sequence, commandId);
    }
  }

  // ----- an answer that shares its chunk -----

  /** The rest of the start after the synchronisation: two time syncs, the video answer, and the video. */
  function Rest(suite: Crypto.Suite, bootstrap: bytes, stamp: nat, video: seq<seq<bytes>>): seq<seq<bytes>> {
    [[TimeSyncWord(suite, bootstrap, stamp)], [TimeSyncWord(suite, bootstrap, stamp)],
     [Response(suite, bootstrap, 3, VIDEO_START_COMMAND, [])]] + video
  }

  /** What the batches of the rest say to each wait. */
  lemma RestSays(suite: Crypto.Suite, bootstrap: bytes, stamp: nat, video: seq<seq<bytes>>)
    requires stamp < Pow128(10) && Video(video)
    ensures AllWhole(Rest(suite, bootstrap, stamp, video))
    ensures var batches := BatchesOf(Rest(suite, bootstrap, stamp, video));
            && |batches| >= 3 && |SyncsOf(batches[0])| == 1 && |SyncsOf(batches[1])| == 1
            && !Replies(batches[0], 3, VIDEO_START_COMMAND) && !Replies(batches[1], 3, VIDEO_START_COMMAND)
            && LastAnswer(batches[2], 3, VIDEO_START_COMMAND).Some?
            && LastAnswer(batches[2], 3, VIDEO_START_COMMAND).value.responseCode == Some(0)
            && Clean(suite, bootstrap, batches, 0, |batches|)
            && forall h | 0 <= h < |batches| :: !Replies(batches[h], 2, SYNC_COMMAND)
                                                && !Replies(batches[h], 1, LAN_AUTH_COMMAND)
  {
    hide PackRpc, ParsePacket, EncodeFields, FaultOf, LastAnswer, SyncFault, SyncsOf;
    var rest := Rest(suite, bootstrap, stamp, video);
    TimeSyncSays(suite, bootstrap, stamp);
    PlainAnswerSays(suite, bootstrap, 3, VIDEO_START_COMMAND);
    forall n | 0 <= n < |rest|
      ensures Whole(rest[n])
    {
      if n >= 3 {
        assert rest[n] == video[n - 3];
      }
    }
    var batches := BatchesOf(rest);
    var sync, start := PacketOf(rest[0][0]), PacketOf(rest[2][0]);
    assert batches[0] == [sync] && batches[1] == [sync] && batches[2] == [start];
    OthersAreNoFault(suite, bootstrap, start);
    forall h | 0 <= h < |batches|
      ensures SyncFault(suite, bootstrap, batches[h]) == None
      ensures !Replies(batches[h], 2, SYNC_COMMAND) && !Replies(batches[h], 1, LAN_AUTH_COMMAND)
    {
      if h < 2 {
        OnePacket(suite, bootstrap, sync, 2, SYNC_COMMAND);
        OnePacket(suite, bootstrap, sync, 1, LAN_AUTH_COMMAND);
      } else if h == 2 {
        OnePacket(suite, bootstrap, start, 2, SYNC_COMMAND);
        OnePacket(suite, bootstrap, start, 1, LAN_AUTH_COMMAND);
      } else {
        VideoBatch(video, h - 3);
        assert batches[h] == PacketsOf(video[h - 3]);
        VideoIsSilent(suite, bootstrap, batches[h], 2, SYNC_COMMAND);
        VideoIsSilent(suite, bootstrap, batches[h], 1, LAN_AUTH_COMMAND);
      }
    }
    OnePacket(suite, bootstrap, sync, 3, VIDEO_START_COMMAND);
    OnePacket(suite, bootstrap, start, 3, VIDEO_START_COMMAND);
  }

  lemma VideoBatch(video: seq<seq<bytes>>, n: nat)
    requires Video(video) && n < |video|
    ensures Whole(video[n]) && forall p | p in PacketsOf(video[n]) :: p.Av?
  {
    hide WellFormed, PacketOf;
    var packets := PacketsOf(video[n]);
    forall p | p in packets
      ensures p.Av?
    {
      var m :| 0 <= m < |packets| && packets[m] == p;
      assert video[n][m] in video[n];
    }
  }

  /** Groups of batches in front of the rest: the positions shift. */
  lemma InFront(front: seq<seq<bytes>>, rest: seq<seq<bytes>>)
    requires AllWhole(front) && AllWhole(rest)
    ensures AllWhole(front + rest) && BatchesOf(front + rest) == BatchesOf(front) + BatchesOf(rest)
  {
    hide Whole;
  }

  /** With two time syncs right behind batch `j` and the video answer next, the video starts. */
  lemma RestStarts(
      suite: Crypto.Suite, bootstrap: bytes, front: seq<seq<Packet>>, stamp: nat, video: seq<seq<bytes>>)
    requires stamp < Pow128(10) && Video(video) && AllWhole(Rest(suite, bootstrap, stamp, video))
    ensures AnsweredAfterSyncs(suite, bootstrap, front + BatchesOf(Rest(suite, bootstrap, stamp, video)),
                               |front|, |front| + 2, None)
  {
    hide Rest, LastAnswer, SyncFault, SyncsOf, Video;
    RestSays(suite, bootstrap, stamp, video);
    var rest := BatchesOf(Rest(suite, bootstrap, stamp, video));
    var all := front + rest;
    assert all[|front|] == rest[0] && all[|front| + 1] == rest[1] && all[|front| + 2] == rest[2];
    assert SyncCount(all, |front| + 2, |front| + 2) == 0;
    assert SyncCount(all, |front| + 1, |front| + 2) == 1;
    assert SyncCount(all, |front|, |front| + 2) == 2;
  }

  /** The answers to authentication and synchronisation, each in its own chunk. */
  function Apart(suite: Crypto.Suite, bootstrap: bytes, prefix: bytes): seq<seq<bytes>> {
    [[AuthWord(suite, bootstrap, prefix)], [Response(suite, bootstrap, 2, SYNC_COMMAND, [])]]
  }

  /** The same two answers in one chunk. */
  function Together(suite: Crypto.Suite, bootstrap: bytes, prefix: bytes): seq<seq<bytes>> {
    [[AuthWord(suite, bootstrap, prefix), Response(suite, bootstrap, 2, SYNC_COMMAND, [])]]
  }

  lemma ApartConnects(suite: Crypto.Suite, bootstrap: bytes, prefix: bytes, stamp: nat, video: seq<seq<bytes>>)
    requires IsPrefix(prefix) && stamp < Pow128(10) && Video(video)
    ensures var groups := Apart(suite, bootstrap, prefix) + Rest(suite, bootstrap, stamp, video);
            && AllWhole(groups)
            && var batches := BatchesOf(groups);
               && Answered(suite, bootstrap, batches, 0, 0, 1, LAN_AUTH_COMMAND)
               && GrantedPrefix(suite, bootstrap, LastAnswer(batches[0], 1, LAN_AUTH_COMMAND).value) == Success(prefix)
               && Answered(suite, bootstrap, batches, 1, 1, 2, SYNC_COMMAND)
  {
    hide Response, AuthWord, WellFormed, PacketOf, LastAnswer, SyncFault, Rest, FaultOf, GrantedPrefix, Video;
    var rest, front := Rest(suite, bootstrap, stamp, video), Apart(suite, bootstrap, prefix);
    RestSays(suite, bootstrap, stamp, video);
    AuthSays(suite, bootstrap, prefix);
    PlainAnswerSays(suite, bootstrap, 2, SYNC_COMMAND);
    InFront(front, rest);
    var batches := BatchesOf(front + rest);
    var auth, sync := PacketOf(front[0][0]), PacketOf(front[1][0]);
    assert batches[0] == [auth] && batches[1] == [sync];
    AnswerAlone(suite, bootstrap, auth, 1, LAN_AUTH_COMMAND);
    AnswerAlone(suite, bootstrap, sync, 2, SYNC_COMMAND);
    assert Answered(suite, bootstrap, batches, 0, 0, 1, LAN_AUTH_COMMAND);
    assert Answered(suite, bootstrap, batches, 1, 1, 2, SYNC_COMMAND);
  }

  /** With every answer in its own chunk the connection starts. */
  lemma ApartStarts(suite: Crypto.Suite, bootstrap: bytes, prefix: bytes, stamp: nat, video: seq<seq<bytes>>)
    requires IsPrefix(prefix) && stamp < Pow128(10) && Video(video)
    ensures var groups := Apart(suite, bootstrap, prefix) + Rest(suite, bootstrap, stamp, video);
            AllWhole(groups) && Starts(suite, bootstrap, BatchesOf(groups), false, prefix, None)
  {
    hide Answered, LastAnswer, GrantedPrefix, AnsweredAfterSyncs, Rest, Video, Whole;
    var rest, front := Rest(suite, bootstrap, stamp, video), Apart(suite, bootstrap, prefix);
    RestSays(suite, bootstrap, stamp, video);
    ApartConnects(suite, bootstrap, prefix, stamp, video);
    assert forall n | 0 <= n < |front| :: front[n] == (front + rest)[n];
    InFront(front, rest);
    var batches := BatchesOf(front + rest);
    RestStarts(suite, bootstrap, BatchesOf(front), stamp, video);
    assert Connects(suite, bootstrap, batches, prefix, 0, 1, 4, None);
    assert HearsAudio(suite, bootstrap, batches, false, 4, 4);
  }

  /** When only the first batch could answer the synchronisation, the wait for it lasts until the arrivals end. */
  lemma SyncNeverAnswered(
      suite: Crypto.Suite, bootstrap: bytes, batches: seq<seq<Packet>>, ending: Ending, prefix: bytes,
      startAudio: bool, cut: Option<nat>)
    requires Answered(suite, bootstrap, batches, 0, 0, 1, LAN_AUTH_COMMAND)
    requires GrantedPrefix(suite, bootstrap, LastAnswer(batches[0], 1, LAN_AUTH_COMMAND).value) == Success(prefix)
    requires Clean(suite, bootstrap, batches, 0, |batches|)
    requires forall h | 1 <= h < |batches| :: !Replies(batches[h], 2, SYNC_COMMAND)
    ensures StartOutcome(suite, bootstrap, Arrivals(batches, ending), startAudio, cut)
         == Failure((Connecting, StopOf(ending)))
  {
    hide LastAnswer, SyncFault, GrantedPrefix, AwaitAnswer, AwaitSyncs, AudioOutcome;
    assert From(batches, ending, 0) == Arrivals(batches, ending);
    AwaitAt(suite, bootstrap, batches, ending, 0, 0, 1, LAN_AUTH_COMMAND);
    NeverAnswered(suite, bootstrap, batches, ending, 1, 2, SYNC_COMMAND);
  }

  lemma TogetherSays(suite: Crypto.Suite, bootstrap: bytes, prefix: bytes, stamp: nat, video: seq<seq<bytes>>)
    requires IsPrefix(prefix) && stamp < Pow128(10) && Video(video)
    ensures var groups := Together(suite, bootstrap, prefix) + Rest(suite, bootstrap, stamp, video);
            && AllWhole(groups)
            && var batches := BatchesOf(groups);
               && Answered(suite, bootstrap, batches, 0, 0, 1, LAN_AUTH_COMMAND)
               && GrantedPrefix(suite, bootstrap, LastAnswer(batches[0], 1, LAN_AUTH_COMMAND).value)
                  == Success(prefix)
               && Clean(suite, bootstrap, batches, 0, |batches|)
               && forall h | 1 <= h < |batches| :: !Replies(batches[h], 2, SYNC_COMMAND)
  {
    hide Response, AuthWord, WellFormed, PacketOf, LastAnswer, SyncFault, Rest, FaultOf, GrantedPrefix, Video;
    var rest, front := Rest(suite, bootstrap, stamp, video), Together(suite, bootstrap, prefix);
    RestSays(suite, bootstrap, stamp, video);
    AuthSays(suite, bootstrap, prefix);
    PlainAnswerSays(suite, bootstrap, 2, SYNC_COMMAND);
    InFront(front, rest);
    var batches := BatchesOf(front + rest);
    var auth, sync := PacketOf(front[0][0]), PacketOf(front[0][1]);
    assert batches[0] == [auth, sync];
    OthersAreNoFault(suite, bootstrap, auth);
    OthersAreNoFault(suite, bootstrap, sync);
    TwoPackets(suite, bootstrap, auth, sync, 1, LAN_AUTH_COMMAND);
    assert forall h | 1 <= h < |batches| :: batches[h] == BatchesOf(rest)[h - 1];
  }

  /** When the first two answers share a chunk, the second is queued and the run never gets past connecting. */
  lemma TogetherHangs(
      suite: Crypto.Suite, bootstrap: bytes, prefix: bytes, stamp: nat, video: seq<seq<bytes>>, ending: Ending)
    requires IsPrefix(prefix) && stamp < Pow128(10) && Video(video)
    ensures var groups := Together(suite, bootstrap, prefix) + Rest(suite, bootstrap, stamp, video);
            && AllWhole(groups)
            && forall startAudio, cut ::
                 StartOutcome(suite, bootstrap, Arrivals(BatchesOf(groups), ending), startAudio, cut)
                 == Failure((Connecting, StopOf(ending)))
  {
    hide StartOutcome, LastAnswer, GrantedPrefix, Answered, Clean, Replies, AllWhole, Rest, Together, Video;
    TogetherSays(suite, bootstrap, prefix, stamp, video);
    var batches := BatchesOf(Together(suite, bootstrap, prefix) + Rest(suite, bootstrap, stamp, video));
    forall startAudio: bool, cut: Option<nat>
      ensures StartOutcome(suite, bootstrap, Arrivals(batches, ending), startAudio, cut)
           == Failure((Connecting, StopOf(ending)))
    {
      SyncNeverAnswered(suite, bootstrap, batches, ending, prefix, startAudio, cut);
    }
  }

  lemma SameBytes(one: seq<seq<bytes>>, other: seq<seq<bytes>>, rest: seq<seq<bytes>>)
    requires Concat(one) == Concat(other)
    ensures BytesOf(Chunked(one + rest)) == BytesOf(Chunked(other + rest))
  {
    BytesOfChunked(one + rest);
    BytesOfChunked(other + rest);
    ConcatAppend(one, rest);
    ConcatAppend(other, rest);
  }

  lemma SameWords(a: bytes, b: bytes)
    ensures Concat([[a], [b]]) == Concat([[a, b]]) == [a, b]
  {
    assert [[a], [b]][1..] == [[b]] && [[b]][1..] == [] && [[a, b]][1..] == [];
    assert Concat([[b]]) == [b] + Concat<bytes>([]) == [b];
  }

  lemma NoEndInChunks(groups: seq<seq<bytes>>)
    requires AllWhole(groups)
    ensures Data([]) !in Chunked(groups)
  {
    forall n | 0 <= n < |groups|
      ensures Chunked(groups)[n] != Data([])
    {
      WholeGroupParses(groups[n]);
    }
  }

  lemma ApartIsTogether(suite: Crypto.Suite, bootstrap: bytes, prefix: bytes)
    ensures Concat(Apart(suite, bootstrap, prefix)) == Concat(Together(suite, bootstrap, prefix))
  {
    hide Response, AuthWord;
    SameWords(AuthWord(suite, bootstrap, prefix), Response(suite, bootstrap, 2, SYNC_COMMAND, []));
  }

  lemma {:induction false} CleanIsReadable(suite: Crypto.Suite, bootstrap: bytes, batches: seq<seq<Packet>>)
    requires forall h | 0 <= h < |batches| :: SyncFault(suite, bootstrap, batches[h]) == None
    ensures SyncFault(suite, bootstrap, Concat(batches)) == None
    decreases |batches|
  {
    hide SyncFault;
    if batches == [] {
      NoFaultInNothing(suite, bootstrap);
    } else {
      CleanIsReadable(suite, bootstrap, batches[1..]);
      SyncFaultAppend(suite, bootstrap, batches[0], Concat(batches[1..]));
    }
  }

  lemma ChunkedIsReadable(suite: Crypto.Suite, bootstrap: bytes, groups: seq<seq<bytes>>)
    requires AllWhole(groups)
    requires forall h | 0 <= h < |groups| :: SyncFault(suite, bootstrap, BatchesOf(groups)[h]) == None
    ensures Readable(suite, bootstrap, Chunked(groups))
  {
    hide ParseStream, SyncFault, ArrivalsOf, AllWhole;
    NoEndInChunks(groups);
    ChunkedArrive(groups);
    CleanIsReadable(suite, bootstrap, BatchesOf(groups));
    OpenArrivals(Chunked(groups));
  }

  lemma ApartIsReadable(suite: Crypto.Suite, bootstrap: bytes, prefix: bytes, stamp: nat, video: seq<seq<bytes>>)
    requires IsPrefix(prefix) && stamp < Pow128(10) && Video(video)
    ensures Readable(suite, bootstrap, Chunked(Apart(suite, bootstrap, prefix) + Rest(suite, bootstrap, stamp, video)))
  {
    hide Response, AuthWord, WellFormed, PacketOf, LastAnswer, SyncFault, Rest, FaultOf, GrantedPrefix, Video;
    hide Readable;
    var rest, front := Rest(suite, bootstrap, stamp, video), Apart(suite, bootstrap, prefix);
    RestSays(suite, bootstrap, stamp, video);
    AuthSays(suite, bootstrap, prefix);
    PlainAnswerSays(suite, bootstrap, 2, SYNC_COMMAND);
    InFront(front, rest);
    var batches := BatchesOf(front + rest);
    AnswerAlone(suite, bootstrap, PacketOf(front[0][0]), 1, LAN_AUTH_COMMAND);
    AnswerAlone(suite, bootstrap, PacketOf(front[1][0]), 2, SYNC_COMMAND);
    assert batches[0] == [PacketOf(front[0][0])] && batches[1] == [PacketOf(front[1][0])];
    assert forall h | 2 <= h < |batches| :: batches[h] == BatchesOf(rest)[h - 2];
    ChunkedIsReadable(suite, bootstrap, front + rest);
  }

  lemma {:induction false} FromSomeBatch(batches: seq<seq<Packet>>, packet: Packet) returns (h: nat)
    requires packet in Concat(batches)
    ensures h < |batches| && packet in batches[h]
    decreases |batches|
  {
    h := 0;
    if packet !in batches[0] {
      var n := FromSomeBatch(batches[1..], packet);
      h := n + 1;
    }
  }

  /** With one authentication answer there is one grant. */
  lemma ApartGrantsOnce(suite: Crypto.Suite, bootstrap: bytes, prefix: bytes, stamp: nat, video: seq<seq<bytes>>)
    requires IsPrefix(prefix) && stamp < Pow128(10) && Video(video)
    ensures var apart := Chunked(Apart(suite, bootstrap, prefix) + Rest(suite, bootstrap, stamp, video));
            GrantsAgree(suite, bootstrap, StreamPackets(BytesOf(apart)))
  {
    hide Response, AuthWord, WellFormed, PacketOf, ParseStream, LastAnswer, SyncFault, Rest, FaultOf, GrantedPrefix;
    hide Video, Readable, StreamPackets;
    var rest, front := Rest(suite, bootstrap, stamp, video), Apart(suite, bootstrap, prefix);
    RestSays(suite, bootstrap, stamp, video);
    AuthSays(suite, bootstrap, prefix);
    PlainAnswerSays(suite, bootstrap, 2, SYNC_COMMAND);
    InFront(front, rest);
    ChunkedArrive(front + rest);
    ApartIsReadable(suite, bootstrap, prefix, stamp, video);
    ReadableIsHeard(suite, bootstrap, Chunked(front + rest));
    var batches := BatchesOf(front + rest);
    var auth, sync := PacketOf(front[0][0]), PacketOf(front[1][0]);
    assert batches[0] == [auth] && batches[1] == [sync];
    assert forall h | 2 <= h < |batches| :: batches[h] == BatchesOf(rest)[h - 2];
    AnswerAlone(suite, bootstrap, sync, 2, SYNC_COMMAND);
    assert forall h | 1 <= h < |batches| :: !Replies(batches[h], 1, LAN_AUTH_COMMAND);
    forall p | p in Concat(batches) && Answers(p, 1, LAN_AUTH_COMMAND)
      ensures p == auth
    {
      var h := FromSomeBatch(batches, p);
      assert h == 0;
    }
  }

  /** The same bytes with a single grant: with the first two answers in chunks of their own the run delivers the frames
      of the whole stream; with both in one chunk it delivers none and waits while connecting. */
  lemma CoalescedAnswerLosesTheStream(
      suite: Crypto.Suite, bootstrap: bytes, prefix: bytes, stamp: nat, video: seq<seq<bytes>>)
    requires IsPrefix(prefix) && stamp < Pow128(10) && Video(video)
    ensures var rest := Rest(suite, bootstrap, stamp, video);
            var apart := Chunked(Apart(suite, bootstrap, prefix) + rest);
            var together := Chunked(Together(suite, bootstrap, prefix) + rest);
            && BytesOf(apart) == BytesOf(together)
            && GrantsAgree(suite, bootstrap, StreamPackets(BytesOf(apart)))
            && Delivered(suite, bootstrap, apart, false, None) == StreamFrames(suite, prefix, BytesOf(apart))
            && forall cut: Option<nat> ::
                 && StartOutcome(suite, bootstrap, ArrivalsOf([], together), false, cut)
                    == Failure((Connecting, Blocked))
                 && Delivered(suite, bootstrap, together, false, cut) == []
  {
    hide Starts, StartOutcome, Rest, Apart, Together, Video, ParseStream, AllWhole, Readable, FramesOf, AvOf, Heard;
    hide StreamPackets, GrantsAgree;
    var rest := Rest(suite, bootstrap, stamp, video);
    ApartStarts(suite, bootstrap, prefix, stamp, video);
    TogetherHangs(suite, bootstrap, prefix, stamp, video, Waiting);
    ChunkedArrive(Apart(suite, bootstrap, prefix) + rest);
    ChunkedArrive(Together(suite, bootstrap, prefix) + rest);
    ApartIsTogether(suite, bootstrap, prefix);
    SameBytes(Apart(suite, bootstrap, prefix), Together(suite, bootstrap, prefix), rest);
    ApartIsReadable(suite, bootstrap, prefix, stamp, video);
    ApartGrantsOnce(suite, bootstrap, prefix, stamp, video);
    DeliveredIs(suite, bootstrap, Chunked(Apart(suite, bootstrap, prefix) + rest), false, prefix, None);
  }

  // ----- two grants -----

  /** Two authentication answers in chunks of their own, and in one chunk. */
  function GrantsApart(suite: Crypto.Suite, bootstrap: bytes, one: bytes, other: bytes): seq<seq<bytes>> {
    [[AuthWord(suite, bootstrap, one)], [AuthWord(suite, bootstrap, other)],
     [Response(suite, bootstrap, 2, SYNC_COMMAND, [])]]
  }

  function GrantsTogether(suite: Crypto.Suite, bootstrap: bytes, one: bytes, other: bytes): seq<seq<bytes>> {
    [[AuthWord(suite, bootstrap, one), AuthWord(suite, bootstrap, other)],
     [Response(suite, bootstrap, 2, SYNC_COMMAND, [])]]
  }

  lemma GrantsApartConnects(
      suite: Crypto.Suite, bootstrap: bytes, one: bytes, other: bytes, stamp: nat, video: seq<seq<bytes>>)
    requires IsPrefix(one) && IsPrefix(other) && stamp < Pow128(10) && Video(video)
    ensures var groups := GrantsApart(suite, bootstrap, one, other) + Rest(suite, bootstrap, stamp, video);
            && AllWhole(groups)
            && var batches := BatchesOf(groups);
               && Answered(suite, bootstrap, batches, 0, 0, 1, LAN_AUTH_COMMAND)
               && GrantedPrefix(suite, bootstrap, LastAnswer(batches[0], 1, LAN_AUTH_COMMAND).value) == Success(one)
               && Answered(suite, bootstrap, batches, 1, 2, 2, SYNC_COMMAND)
  {
    hide Response, AuthWord, WellFormed, PacketOf, LastAnswer, SyncFault, Rest, FaultOf, GrantedPrefix, Video;
    var rest, front := Rest(suite, bootstrap, stamp, video), GrantsApart(suite, bootstrap, one, other);
    RestSays(suite, bootstrap, stamp, video);
    AuthSays(suite, bootstrap, one);
    AuthSays(suite, bootstrap, other);
    PlainAnswerSays(suite, bootstrap, 2, SYNC_COMMAND);
    InFront(front, rest);
    var batches := BatchesOf(front + rest);
    var first, second, sync := PacketOf(front[0][0]), PacketOf(front[1][0]), PacketOf(front[2][0]);
    assert batches[0] == [first] && batches[1] == [second] && batches[2] == [sync];
    AnswerAlone(suite, bootstrap, first, 1, LAN_AUTH_COMMAND);
    AnswerAlone(suite, bootstrap, second, 1, LAN_AUTH_COMMAND);
    AnswerAlone(suite, bootstrap, sync, 2, SYNC_COMMAND);
    hide Answers;
    assert Answered(suite, bootstrap, batches, 0, 0, 1, LAN_AUTH_COMMAND);
    assert Answered(suite, bootstrap, batches, 1, 2, 2, SYNC_COMMAND);
  }

  lemma GrantsApartStarts(
      suite: Crypto.Suite, bootstrap: bytes, one: bytes, other: bytes, stamp: nat, video: seq<seq<bytes>>)
    requires IsPrefix(one) && IsPrefix(other) && stamp < Pow128(10) && Video(video)
    ensures var groups := GrantsApart(suite, bootstrap, one, other) + Rest(suite, bootstrap, stamp, video);
            AllWhole(groups) && Starts(suite, bootstrap, BatchesOf(groups), false, one, None)
  {
    hide Answered, LastAnswer, GrantedPrefix, AnsweredAfterSyncs, Rest, Video, Whole;
    var rest, front := Rest(suite, bootstrap, stamp, video), GrantsApart(suite, bootstrap, one, other);
    RestSays(suite, bootstrap, stamp, video);
    GrantsApartConnects(suite, bootstrap, one, other, stamp, video);
    assert forall n | 0 <= n < |front| :: front[n] == (front + rest)[n];
    InFront(front, rest);
    var batches := BatchesOf(front + rest);
    RestStarts(suite, bootstrap, BatchesOf(front), stamp, video);
    assert Connects(suite, bootstrap, batches, one, 0, 2, 5, None);
    assert HearsAudio(suite, bootstrap, batches, false, 5, 5);
  }

  lemma GrantsTogetherConnects(
      suite: Crypto.Suite, bootstrap: bytes, one: bytes, other: bytes, stamp: nat, video: seq<seq<bytes>>)
    requires IsPrefix(one) && IsPrefix(other) && stamp < Pow128(10) && Video(video)
    ensures var groups := GrantsTogether(suite, bootstrap, one, other) + Rest(suite, bootstrap, stamp, video);
            && AllWhole(groups)
            && var batches := BatchesOf(groups);
               && Answered(suite, bootstrap, batches, 0, 0, 1, LAN_AUTH_COMMAND)
               && GrantedPrefix(suite, bootstrap, LastAnswer(batches[0], 1, LAN_AUTH_COMMAND).value) == Success(other)
               && Answered(suite, bootstrap, batches, 1, 1, 2, SYNC_COMMAND)
  {
    hide Response, AuthWord, WellFormed, PacketOf, LastAnswer, SyncFault, Rest, FaultOf, GrantedPrefix, Video;
    var rest, front := Rest(suite, bootstrap, stamp, video), GrantsTogether(suite, bootstrap, one, other);
    RestSays(suite, bootstrap, stamp, video);
    AuthSays(suite, bootstrap, one);
    AuthSays(suite, bootstrap, other);
    PlainAnswerSays(suite, bootstrap, 2, SYNC_COMMAND);
    InFront(front, rest);
    var batches := BatchesOf(front + rest);
    var first, second, sync := PacketOf(front[0][0]), PacketOf(front[0][1]), PacketOf(front[1][0]);
    assert batches[0] == [first, second] && batches[1] == [sync];
    OthersAreNoFault(suite, bootstrap, first);
    OthersAreNoFault(suite, bootstrap, second);
    TwoPackets(suite, bootstrap, first, second, 1, LAN_AUTH_COMMAND);
    AnswerAlone(suite, bootstrap, sync, 2, SYNC_COMMAND);
    assert Answered(suite, bootstrap, batches, 0, 0, 1, LAN_AUTH_COMMAND);
    assert Answered(suite, bootstrap, batches, 1, 1, 2, SYNC_COMMAND);
  }

  lemma GrantsTogetherStarts(
      suite: Crypto.Suite, bootstrap: bytes, one: bytes, other: bytes, stamp: nat, video: seq<seq<bytes>>)
    requires IsPrefix(one) && IsPrefix(other) && stamp < Pow128(10) && Video(video)
    ensures var groups := GrantsTogether(suite, bootstrap, one, other) + Rest(suite, bootstrap, stamp, video);
            AllWhole(groups) && Starts(suite, bootstrap, BatchesOf(groups), false, other, None)
  {
    hide Answered, LastAnswer, GrantedPrefix, AnsweredAfterSyncs, Rest, Video, Whole;
    var rest, front := Rest(suite, bootstrap, stamp, video), GrantsTogether(suite, bootstrap, one, other);
    RestSays(suite, bootstrap, stamp, video);
    GrantsTogetherConnects(suite, bootstrap, one, other, stamp, video);
    assert forall n | 0 <= n < |front| :: front[n] == (front + rest)[n];
    InFront(front, rest);
    var batches := BatchesOf(front + rest);
    RestStarts(suite, bootstrap, BatchesOf(front), stamp, video);
    assert Connects(suite, bootstrap, batches, other, 0, 1, 4, None);
    assert HearsAudio(suite, bootstrap, batches, false, 4, 4);
  }

  lemma GrantsAreReadable(
      suite: Crypto.Suite, bootstrap: bytes, one: bytes, other: bytes, stamp: nat, video: seq<seq<bytes>>)
    requires IsPrefix(one) && IsPrefix(other) && stamp < Pow128(10) && Video(video)
    requires AllWhole(GrantsApart(suite, bootstrap, one, other) + Rest(suite, bootstrap, stamp, video))
    ensures Readable(suite, bootstrap,
                     Chunked(GrantsApart(suite, bootstrap, one, other) + Rest(suite, bootstrap, stamp, video)))
  {
    hide Response, AuthWord, WellFormed, PacketOf, LastAnswer, SyncFault, Rest, FaultOf, GrantedPrefix, Video;
    hide Readable;
    var rest, front := Rest(suite, bootstrap, stamp, video), GrantsApart(suite, bootstrap, one, other);
    RestSays(suite, bootstrap, stamp, video);
    AuthSays(suite, bootstrap, one);
    AuthSays(suite, bootstrap, other);
    PlainAnswerSays(suite, bootstrap, 2, SYNC_COMMAND);
    InFront(front, rest);
    var batches := BatchesOf(front + rest);
    forall h | 0 <= h < 3
      ensures SyncFault(suite, bootstrap, batches[h]) == None
    {
      assert batches[h] == [PacketOf(front[h][0])];
      OthersAreNoFault(suite, bootstrap, PacketOf(front[h][0]));
      OnePacket(suite, bootstrap, PacketOf(front[h][0]), 1, LAN_AUTH_COMMAND);
    }
    assert forall h | 3 <= h < |batches| :: batches[h] == BatchesOf(rest)[h - 3];
    ChunkedIsReadable(suite, bootstrap, front + rest);
  }

  /** Being readable is a matter of the bytes alone. */
  lemma SameBytesReadable(suite: Crypto.Suite, bootstrap: bytes, events: seq<RecvEvent>, groups: seq<seq<bytes>>)
    requires Readable(suite, bootstrap, events) && AllWhole(groups) && BytesOf(events) == BytesOf(Chunked(groups))
    ensures Readable(suite, bootstrap, Chunked(groups))
  {
    hide ParseStream, SyncFault, AllWhole;
    NoEndInChunks(groups);
  }

  lemma GrantsSameBytes(suite: Crypto.Suite, bootstrap: bytes, one: bytes, other: bytes, rest: seq<seq<bytes>>)
    ensures BytesOf(Chunked(GrantsApart(suite, bootstrap, one, other) + rest))
         == BytesOf(Chunked(GrantsTogether(suite, bootstrap, one, other) + rest))
  {
    hide Response, AuthWord;
    var a, b := AuthWord(suite, bootstrap, one), AuthWord(suite, bootstrap, other);
    var sync := [[Response(suite, bootstrap, 2, SYNC_COMMAND, [])]];
    SameWords(a, b);
    assert GrantsApart(suite, bootstrap, one, other) == [[a], [b]] + sync;
    assert GrantsTogether(suite, bootstrap, one, other) == [[a, b]] + sync;
    ConcatAppend([[a], [b]], sync);
    ConcatAppend([[a, b]], sync);
    SameBytes(GrantsApart(suite, bootstrap, one, other), GrantsTogether(suite, bootstrap, one, other), rest);
  }

  /** The same bytes with two grants: in chunks of their own the first grant gives the session prefix, in one chunk the
      second does, and the frames delivered are those of the stream under the one prefix and under the other. */
  lemma TwoGrantsDivide(
      suite: Crypto.Suite, bootstrap: bytes, one: bytes, other: bytes, stamp: nat, video: seq<seq<bytes>>)
    requires IsPrefix(one) && IsPrefix(other) && stamp < Pow128(10) && Video(video)
    ensures var rest := Rest(suite, bootstrap, stamp, video);
            var apart := Chunked(GrantsApart(suite, bootstrap, one, other) + rest);
            var together := Chunked(GrantsTogether(suite, bootstrap, one, other) + rest);
            && BytesOf(apart) == BytesOf(together)
            && Starts(suite, bootstrap, ArrivalsOf([], apart).batches, false, one, None)
            && Starts(suite, bootstrap, ArrivalsOf([], together).batches, false, other, None)
            && Delivered(suite, bootstrap, apart, false, None) == StreamFrames(suite, one, BytesOf(apart))
            && Delivered(suite, bootstrap, together, false, None) == StreamFrames(suite, other, BytesOf(apart))
  {
    hide Starts, StartOutcome, Rest, GrantsApart, GrantsTogether, Video, ParseStream, AllWhole, Readable, FramesOf;
    hide AvOf, Heard;
    var rest := Rest(suite, bootstrap, stamp, video);
    GrantsApartStarts(suite, bootstrap, one, other, stamp, video);
    GrantsTogetherStarts(suite, bootstrap, one, other, stamp, video);
    ChunkedArrive(GrantsApart(suite, bootstrap, one, other) + rest);
    ChunkedArrive(GrantsTogether(suite, bootstrap, one, other) + rest);
    GrantsSameBytes(suite, bootstrap, one, other, rest);
    GrantsAreReadable(suite, bootstrap, one, other, stamp, video);
    SameBytesReadable(suite, bootstrap, Chunked(GrantsApart(suite, bootstrap, one, other) + rest),
                      GrantsTogether(suite, bootstrap, one, other) + rest);
    DeliveredIs(suite, bootstrap, Chunked(GrantsApart(suite, bootstrap, one, other) + rest), false, one, None);
    DeliveredIs(suite, bootstrap, Chunked(GrantsTogether(suite, bootstrap, one, other) + rest), false, other, None);
  }
}
