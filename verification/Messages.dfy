/** What the client makes of single packets and of lists of them: media, answers, time syncs, grants and offers. */
module Messages {
  import opened Basics
  import opened Pprpc
  import opened Rpc
  import opened Protobuf
  import opened Reassembler
  import Crypto

  const LAN_AUTH_COMMAND := 2650
  const SYNC_COMMAND := 106
  const TIME_SYNC_COMMAND := 107
  const VIDEO_START_COMMAND := 2610
  const AUDIO_START_COMMAND := 2614
  const VIDEO_MAX_QOS := 30
  const G711_ALAW_FORMAT := 21
  const G711_ALAW_SAMPLE_RATE := 8000
  const MAX_FRAME_BYTES := 2_000_000

  datatype ClientError =
    | NotConnected
    | SocketClosed
    | PeerClosed
    | BadPacket(packet: PacketError)
    | NoAnswer(commandId: nat)
    | BadCode(commandId: nat, code: Option<nat>)
    | BadRpc(rpc: RpcError)
    | BadField(field: ReaderError)
    | BadSessionPrefix
    | BadAudioFormat
    | NoActivity
    | NoFrame

  /** Why a call has not returned normally: it waits for input, or it raised. */
  datatype Stop = Blocked | Raised(error: ClientError)

  /** One `recv`: it timed out, or returned bytes; no bytes means that the peer closed. */
  datatype RecvEvent = Quiet | Data(data: bytes)

  function BytesOf(events: seq<RecvEvent>): bytes {
    if events == [] then []
    else (if events[0].Data? then events[0].data else []) + BytesOf(events[1..])
  }

  lemma NoBytes()
    ensures BytesOf([]) == []
  {
  }

  lemma FirstBytesOf(events: seq<RecvEvent>)
    requires events != []
    ensures BytesOf(events) == (if events[0].Data? then events[0].data else []) + BytesOf(events[1..])
  {
  }

  // ----- what the media loop makes of the AV packets -----

  function AvOf(packets: seq<Packet>): seq<AVPacket> {
    if packets == [] then []
    else
      var last := packets[|packets| - 1];
      AvOf(packets[..|packets| - 1]) + if last.Av? then [last.av] else []
  }

  lemma AvOfSnoc(packets: seq<Packet>, last: Packet)
    ensures AvOf(packets + [last]) == AvOf(packets) + if last.Av? then [last.av] else []
  {
    assert (packets + [last])[..|packets|] == packets;
  }

  lemma NoAv()
    ensures AvOf([]) == []
  {
  }

  lemma {:induction false} AvOfAppend(one: seq<Packet>, other: seq<Packet>)
    ensures AvOf(one + other) == AvOf(one) + AvOf(other)
    decreases |other|
  {
    if other == [] {
      assert one + other == one;
    } else {
      var front, last := other[..|other| - 1], other[|other| - 1];
      AvOfAppend(one, front);
      assert one + other == one + front + [last];
      AvOfSnoc(one + front, last);
    }
  }

  /** The A-law bytes of a valid live-audio packet. */
  function ExtractAlaw(p: AVPacket): Option<bytes> {
    if p.mediaFormat != G711_ALAW_FORMAT || p.channel != 0 || p.encryptionType != 0 || !([1, 0] <= p.payload) then None
    else if p.payload[2..] == [] then None
    else Some(p.payload[2..])
  }

  /** A chunk is handed out exactly for an unencrypted packet of format 21 on channel 0 whose payload is the bytes 1 and
      0 with that chunk, which is not empty, behind them. */
  lemma ExtractAlawIff(p: AVPacket, chunk: bytes)
    ensures ExtractAlaw(p) == Some(chunk) <==>
              && p.mediaFormat == 21 && p.channel == 0 && p.encryptionType == 0
              && chunk != [] && p.payload == [1, 0] + chunk
  {
    if [1, 0] <= p.payload {
      assert p.payload == [1, 0] + p.payload[2..];
    }
    if p.payload == [1, 0] + chunk {
      assert p.payload[2..] == chunk;
    }
  }

  /** The audio callbacks over a list of packets, in order. */
  function AudioOf(packets: seq<AVPacket>): seq<bytes> {
    if packets == [] then []
    else
      AudioOf(packets[..|packets| - 1])
      + match ExtractAlaw(packets[|packets| - 1])
        case None => []
        case Some(chunk) => [chunk]
  }

  /** The greatest AV sequence of a list of packets. */
  function MaxSequence(packets: seq<AVPacket>): Option<nat> {
    if packets == [] then None
    else
      var last := packets[|packets| - 1];
      match MaxSequence(packets[..|packets| - 1])
      case None => Some(last.sequence)
      case Some(m) => Some(if last.sequence > m then last.sequence else m)
  }

  function StreamContext(suite: Crypto.Suite, prefix: bytes): Context {
    Context(suite, prefix, MAX_FRAME_BYTES)
  }

  // ----- what the handshake makes of a packet -----

  predicate Answers(packet: Packet, sequence: nat, commandId: nat) {
    packet.Rpc? && packet.rpc.rpcType == RPC_RESPONSE
    && packet.rpc.sequence == sequence && packet.rpc.commandId == commandId
  }

  predicate IsTimeSync(packet: Packet) {
    packet.Rpc? && packet.rpc.rpcType == RPC_REQUEST && packet.rpc.commandId == TIME_SYNC_COMMAND
  }

  /** The reply to a time-sync request at a wall-clock time, or why there is none. */
  function TimeSyncReply(suite: Crypto.Suite, prefix: bytes, request: RPCPacket, wallMs: nat)
    : Result<bytes, ClientError>
  {
    match DecryptRpcPayload(suite, request, prefix)
    case Failure(e) => Failure(BadRpc(e))
    case Success(payload) =>
      match BuildTimeSyncResponse(payload, wallMs)
      case Failure(e) => Failure(BadField(e))
      case Success(response) =>
        Success(PackRpc(suite, request.sequence, TIME_SYNC_COMMAND, response, prefix, RPC_RESPONSE, 0).value)
  }

  /** The time-sync requests among the packets, in order. */
  function SyncsOf(packets: seq<Packet>): seq<RPCPacket> {
    if packets == [] then []
    else
      var last := packets[|packets| - 1];
      SyncsOf(packets[..|packets| - 1]) + if IsTimeSync(last) then [last.rpc] else []
  }

  lemma NoSyncs()
    ensures SyncsOf([]) == []
  {
  }

  lemma SyncsOfSnoc(packets: seq<Packet>, last: Packet)
    ensures SyncsOf(packets + [last]) == SyncsOf(packets) + if IsTimeSync(last) then [last.rpc] else []
  {
    assert (packets + [last])[..|packets|] == packets;
  }

  lemma {:induction false} SyncsOfAppend(one: seq<Packet>, other: seq<Packet>)
    ensures SyncsOf(one + other) == SyncsOf(one) + SyncsOf(other)
    decreases |other|
  {
    if other == [] {
      assert one + other == one;
    } else {
      var front, last := other[..|other| - 1], other[|other| - 1];
      SyncsOfAppend(one, front);
      assert one + other == one + front + [last];
      SyncsOfSnoc(one + front, last);
    }
  }

  /** A handshake step keeps every packet for later but the answer it waits for and time-sync requests. */
  function Deferred(packets: seq<Packet>, awaited: Option<(nat, nat)>): seq<Packet> {
    if packets == [] then []
    else
      var last := packets[|packets| - 1];
      Deferred(packets[..|packets| - 1], awaited)
      + if IsTimeSync(last) || (awaited.Some? && Answers(last, awaited.value.0, awaited.value.1)) then [] else [last]
  }

  lemma DeferredSnoc(packets: seq<Packet>, last: Packet, awaited: Option<(nat, nat)>)
    ensures Deferred(packets + [last], awaited)
         == Deferred(packets, awaited)
            + if IsTimeSync(last) || (awaited.Some? && Answers(last, awaited.value.0, awaited.value.1)) then []
              else [last]
  {
    assert (packets + [last])[..|packets|] == packets;
  }

  lemma NothingDeferred(awaited: Option<(nat, nat)>)
    ensures Deferred([], awaited) == [] && AvOf([]) == [] && SyncsOf([]) == []
  {
  }

  /** Deferring loses no AV packet and leaves no time-sync request. */
  lemma {:induction false} DeferredKeepsMedia(packets: seq<Packet>, awaited: Option<(nat, nat)>)
    ensures AvOf(Deferred(packets, awaited)) == AvOf(packets)
    ensures SyncsOf(Deferred(packets, awaited)) == []
    ensures forall p | p in Deferred(packets, awaited) :: p in packets
  {
    hide AvOf, SyncsOf, Deferred;
    if packets == [] {
      NothingDeferred(awaited);
    } else {
      var front, last := packets[..|packets| - 1], packets[|packets| - 1];
      DeferredKeepsMedia(front, awaited);
      assert packets == front + [last];
      AvOfSnoc(front, last);
      DeferredSnoc(front, last, awaited);
      assert Deferred(front, awaited) + [] == Deferred(front, awaited);
      assert AvOf(front) + [] == AvOf(front);
      AvOfSnoc(Deferred(front, awaited), last);
      SyncsOfSnoc(Deferred(front, awaited), last);
    }
  }

  /** The answer a batch holds: the last one when there are several. */
  function LastAnswer(packets: seq<Packet>, sequence: nat, commandId: nat): (r: Option<RPCPacket>)
    ensures r.Some? ==> Rpc(r.value) in packets && Answers(Rpc(r.value), sequence, commandId)
    ensures r.None? ==> forall p | p in packets :: !Answers(p, sequence, commandId)
  {
    if packets == [] then None
    else
      var last := packets[|packets| - 1];
      if Answers(last, sequence, commandId) then Some(last.rpc)
      else LastAnswer(packets[..|packets| - 1], sequence, commandId)
  }

  /** The answer of a batch is its last response with the sequence and the command. */
  lemma {:induction false} LastAnswerIs(packets: seq<Packet>, sequence: nat, commandId: nat, i: nat)
    requires i < |packets| && packets[i].Rpc? && packets[i].rpc.rpcType == 1
    requires packets[i].rpc.sequence == sequence && packets[i].rpc.commandId == commandId
    requires forall j | i < j < |packets| :: !Answers(packets[j], sequence, commandId)
    ensures LastAnswer(packets, sequence, commandId) == Some(packets[i].rpc)
    decreases |packets|
  {
    if i < |packets| - 1 {
      LastAnswerIs(packets[..|packets| - 1], sequence, commandId, i);
    }
  }

  lemma NoneAnswers(sequence: nat, commandId: nat)
    ensures LastAnswer([], sequence, commandId) == None
  {
  }

  lemma LastAnswerSnoc(packets: seq<Packet>, last: Packet, sequence: nat, commandId: nat)
    ensures LastAnswer(packets + [last], sequence, commandId)
         == if Answers(last, sequence, commandId) then Some(last.rpc) else LastAnswer(packets, sequence, commandId)
  {
    assert (packets + [last])[..|packets|] == packets;
  }

  /** The queue after a batch, and the requests answered, when nothing else was queued or answered. */
  lemma DeferKeepsQueue(
      queued: seq<Packet>, seen: seq<Packet>, answered: seq<RPCPacket>, packets: seq<Packet>,
      awaited: Option<(nat, nat)>)
    requires AvOf(queued) == AvOf(seen) && SyncsOf(queued) == [] && answered == SyncsOf(seen)
    requires forall p | p in queued :: p in seen
    ensures AvOf(queued + Deferred(packets, awaited)) == AvOf(seen + packets)
    ensures SyncsOf(queued + Deferred(packets, awaited)) == []
    ensures answered + SyncsOf(packets) == SyncsOf(seen + packets)
    ensures forall p | p in queued + Deferred(packets, awaited) :: p in seen + packets
  {
    hide AvOf, SyncsOf, Deferred;
    DeferredKeepsMedia(packets, awaited);
    AvOfAppend(queued, Deferred(packets, awaited));
    SyncsOfAppend(queued, Deferred(packets, awaited));
    AvOfAppend(seen, packets);
    SyncsOfAppend(seen, packets);
  }

  // ----- the session prefix -----

  predicate IsHexDigit(b: byte) {
    48 <= b <= 57 || 65 <= b <= 70 || 97 <= b <= 102
  }

  /** The session prefix that an authentication response grants. */
  function GrantedPrefix(suite: Crypto.Suite, bootstrap: bytes, auth: RPCPacket): Result<bytes, ClientError> {
    match DecryptRpcPayload(suite, auth, bootstrap)
    case Failure(e) => Failure(BadRpc(e))
    case Success(payload) =>
      match FirstBytesField(payload, 1)
      case Failure(e) => Failure(BadField(e))
      case Success(prefix) =>
        if |prefix| == 32 && forall i | 0 <= i < |prefix| :: IsHexDigit(prefix[i]) then Success(prefix)
        else Failure(BadSessionPrefix)
  }

  const HEX_DIGITS := "0123456789abcdefABCDEF"

  /** A prefix is granted exactly when the payload opens, its first field 1, in a message of length-delimited fields up
      to it, is the prefix, and the prefix is 32 hexadecimal digits, in either case. */
  lemma GrantedPrefixIff(suite: Crypto.Suite, bootstrap: bytes, auth: RPCPacket, prefix: bytes)
    ensures GrantedPrefix(suite, bootstrap, auth) == Success(prefix) <==>
              var payload := DecryptRpcPayload(suite, auth, bootstrap);
              && payload.Success? && |prefix| == 32
              && (forall i | 0 <= i < 32 :: prefix[i] < 128 && prefix[i] as char in HEX_DIGITS)
              && FirstBytesAre(ParseFields(payload.value, 0).fields, 1, prefix)
    ensures GrantedPrefix(suite, bootstrap, auth) == Failure(BadSessionPrefix) <==>
              var payload := DecryptRpcPayload(suite, auth, bootstrap);
              && payload.Success? && FirstBytesField(payload.value, 1).Success?
              && var found := FirstBytesField(payload.value, 1).value;
                 |found| != 32 || exists i | 0 <= i < |found| :: found[i] >= 128 || found[i] as char !in HEX_DIGITS
  {
    hide DecryptRpcPayload, ParseFields, FirstBytesField, FirstBytesAre, IsHexDigit;
    var payload := DecryptRpcPayload(suite, auth, bootstrap);
    if payload.Success? {
      FirstBytesAreIff(payload.value, 1, prefix);
      forall b: byte
        ensures IsHexDigit(b) <==> b < 128 && b as char in HEX_DIGITS
      {
        HexDigits(b);
      }
    }
  }

  lemma HexDigits(b: byte)
    ensures IsHexDigit(b) <==> b < 128 && b as char in HEX_DIGITS
  {
    if 48 <= b <= 57 {
      assert HEX_DIGITS[b - 48] == b as char;
    } else if 97 <= b <= 102 {
      assert HEX_DIGITS[b - 97 + 10] == b as char;
    } else if 65 <= b <= 70 {
      assert HEX_DIGITS[b - 65 + 16] == b as char;
    }
  }

  /** The first field with a number holds these bytes, and only length-delimited fields come before it. */
  predicate FirstBytesAre(fields: seq<Field>, number: nat, data: bytes) {
    exists i | 0 <= i < |fields| ::
      && fields[i] == BytesField(number, data)
      && forall j | 0 <= j < i :: fields[j].BytesField? && fields[j].number != number
  }

  lemma FirstBytesAreIff(payload: bytes, number: nat, data: bytes)
    ensures FirstBytesField(payload, number) == Success(data) <==>
            FirstBytesAre(ParseFields(payload, 0).fields, number, data)
  {
    hide ParseFields, ScanFor;
    var parsed := ParseFields(payload, 0);
    ScanForIff(parsed, number, 2, BytesField(number, data));
    var scanned := ScanFor(parsed, number, 2);
    if scanned.Success? {
      ScanForIff(parsed, number, 2, scanned.value);
    }
    assert forall f: Field :: f.WireType() == 2 <==> f.BytesField?;
  }

  /** What the camera's answer offers as audio: A-law at 8000 samples a second, or the error to raise. */
  function AudioOffer(suite: Crypto.Suite, bootstrap: bytes, answer: RPCPacket): Result<(), ClientError> {
    match DecryptRpcPayload(suite, answer, bootstrap)
    case Failure(e) => Failure(BadRpc(e))
    case Success(payload) =>
      match FirstVarintField(payload, 5)
      case Failure(e) => Failure(BadField(e))
      case Success(format) =>
        match FirstVarintField(payload, 6)
        case Failure(e) => Failure(BadField(e))
        case Success(rate) =>
          if format == G711_ALAW_FORMAT && rate == G711_ALAW_SAMPLE_RATE then Success(())
          else Failure(BadAudioFormat)
  }

  /** The first field with a number is a varint of this value, and only varint fields come before it. */
  predicate FirstIs(fields: seq<Field>, number: nat, value: nat) {
    exists i | 0 <= i < |fields| ::
      && fields[i] == VarintField(number, value)
      && forall j | 0 <= j < i :: fields[j].VarintField? && fields[j].number != number
  }

  lemma FirstIsIff(payload: bytes, number: nat, value: nat)
    ensures FirstVarintField(payload, number) == Success(value) <==>
            FirstIs(ParseFields(payload, 0).fields, number, value)
  {
    hide ParseFields, ScanFor;
    var parsed := ParseFields(payload, 0);
    ScanForIff(parsed, number, 0, VarintField(number, value));
    var scanned := ScanFor(parsed, number, 0);
    if scanned.Success? {
      ScanForIff(parsed, number, 0, scanned.value);
    }
    assert forall f: Field :: f.WireType() == 0 <==> f.VarintField?;
  }

  /** An offer is acceptable exactly when the payload opens and its first fields 5 and 6, in a message of varint fields
      up to each of them, are 21 and 8000; it is of another format exactly when both are there and not these. */
  lemma AudioOfferIff(suite: Crypto.Suite, bootstrap: bytes, answer: RPCPacket)
    ensures AudioOffer(suite, bootstrap, answer).Success? <==>
              var payload := DecryptRpcPayload(suite, answer, bootstrap);
              && payload.Success?
              && var fields := ParseFields(payload.value, 0).fields;
                 FirstIs(fields, 5, 21) && FirstIs(fields, 6, 8000)
    ensures AudioOffer(suite, bootstrap, answer) == Failure(BadAudioFormat) <==>
              var payload := DecryptRpcPayload(suite, answer, bootstrap);
              && payload.Success?
              && var fields := ParseFields(payload.value, 0).fields;
                 exists format: nat, rate: nat ::
                   FirstIs(fields, 5, format) && FirstIs(fields, 6, rate) && (format != 21 || rate != 8000)
  {
    hide DecryptRpcPayload, ParseFields, FirstVarintField, FirstIs;
    var payload := DecryptRpcPayload(suite, answer, bootstrap);
    if payload.Success? {
      forall number: nat, value: nat
        ensures FirstVarintField(payload.value, number) == Success(value)
           <==> FirstIs(ParseFields(payload.value, 0).fields, number, value)
      {
        FirstIsIff(payload.value, number, value);
      }
    }
  }
}
