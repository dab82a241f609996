/** PPRPC packets: the fixed header, the RPC and AV variable headers, and their encoders. */
module Pprpc {
  import opened Basics
  import opened Varint

  const UDP_MAGIC: bytes := [0x51, 0x70]
  const RPC_REQUEST := 0
  const RPC_RESPONSE := 1

  datatype PacketError =
    | MissingMagic
    | MissingTypeByte
    | UnsupportedType(messageType: nat)
    | UnsupportedFlag(flag: nat)
    | BadVarint(varint: VarintError)
    | TruncatedPacket
    | TrailingData
    | MissingRpcByte
    | UnsupportedRpcType(rpcType: nat)
    | MissingAvBytes
  {
    /** The errors whose message says "truncated" or "missing"; framing waits for more on these. */
    predicate SaysIncomplete() {
      MissingMagic? || MissingTypeByte? || TruncatedPacket? || MissingRpcByte? || MissingAvBytes?
      || this == BadVarint(TruncatedVarint)
    }
  }

  datatype FixedHeader = FixedHeader(messageType: nat, flag: nat, length: nat, isUdp: bool, size: nat)

  datatype RPCPacket = RPCPacket(
    header: FixedHeader,
    sequence: nat,
    commandId: nat,
    encryptionType: nat,
    rpcType: nat,
    responseCode: Option<nat>,
    payload: bytes)

  datatype AVPacket = AVPacket(
    header: FixedHeader,
    isKeyFrame: bool,
    mediaFormat: nat,
    encryptionType: nat,
    channel: nat,
    sequence: nat,
    timestamp: nat,
    encryptedLength: nat,
    payload: bytes)

  datatype RawPacket = RawPacket(header: FixedHeader, payload: bytes)

  datatype Packet = Rpc(rpc: RPCPacket) | Av(av: AVPacket) | Raw(raw: RawPacket)

  // ----- decoding -----

  function ReadVarint(data: bytes, offset: nat, limit: nat): (r: Result<(nat, nat), PacketError>)
    ensures r.Success? ==> offset < r.value.1 <= |data| && r.value.1 <= offset + limit
  {
    match DecodeVarint(data, offset, limit)
    case Success(read) => Success(read)
    case Failure(e) => Failure(BadVarint(e))
  }

  function ParseFixedHeader(data: bytes, udp: Option<bool>): (r: Result<(FixedHeader, nat), PacketError>)
    ensures r.Success? ==>
              var (header, offset) := r.value;
              2 <= offset <= |data| && offset == header.size
  {
    var detected := UDP_MAGIC <= data;
    if udp == Some(true) && !detected then Failure(MissingMagic)
    else
      var isUdp := if udp.None? then detected else udp.value;
      var start := if isUdp then |UDP_MAGIC| else 0;
      if start >= |data| then Failure(MissingTypeByte)
      else
        var messageType, flag := data[start] / 16, data[start] % 16;
        if !(3 <= messageType < 9) then Failure(UnsupportedType(messageType))
        else if flag !in {8, 9, 10} then Failure(UnsupportedFlag(flag))
        else
          var (length, offset) :- ReadVarint(data, start + 1, 4);
          Success((FixedHeader(messageType, flag, length, isUdp, offset), offset))
  }

  function ParseRpc(header: FixedHeader, body: bytes): Result<RPCPacket, PacketError> {
    var (sequence, afterSequence) :- ReadVarint(body, 0, 4);
    var (commandId, cursor) :- ReadVarint(body, afterSequence, 4);
    if cursor >= |body| then Failure(MissingRpcByte)
    else
      var encryptionType, rpcType := body[cursor] / 4, body[cursor] % 4;
      if rpcType == RPC_REQUEST then
        Success(RPCPacket(header, sequence, commandId, encryptionType, rpcType, None, body[cursor + 1..]))
      else if rpcType == RPC_RESPONSE then
        var (code, afterCode) :- ReadVarint(body, cursor + 1, 4);
        Success(RPCPacket(header, sequence, commandId, encryptionType, rpcType, Some(code), body[afterCode..]))
      else
        Failure(UnsupportedRpcType(rpcType))
  }

  function ParseAv(header: FixedHeader, body: bytes): Result<AVPacket, PacketError> {
    if |body| < 2 then Failure(MissingAvBytes)
    else
      var (channel, afterChannel) :- ReadVarint(body, 2, 4);
      var (sequence, afterSequence) :- ReadVarint(body, afterChannel, 4);
      var (timestamp, afterTimestamp) :- ReadVarint(body, afterSequence, 9);
      var (encryptedLength, cursor) :- ReadVarint(body, afterTimestamp, 4);
      Success(AVPacket(header, body[0] >= 128, body[0] % 128, body[1],
                       channel, sequence, timestamp, encryptedLength, body[cursor..]))
  }

  function ParseBody(header: FixedHeader, body: bytes): Result<Packet, PacketError> {
    if header.messageType in {4, 5} then
      var rpc :- ParseRpc(header, body);
      Success(Rpc(rpc))
    else if header.messageType == 6 then
      var av :- ParseAv(header, body);
      Success(Av(av))
    else
      Success(Raw(RawPacket(header, body)))
  }

  function ParsePacket(data: bytes, udp: Option<bool>, exact: bool): Result<Packet, PacketError> {
    var (header, offset) :- ParseFixedHeader(data, udp);
    var end := offset + header.length;
    if end > |data| then Failure(TruncatedPacket)
    else if exact && end != |data| then Failure(TrailingData)
    else ParseBody(header, data[offset..end])
  }

  // ----- encoding, as the camera and the client put packets on the wire -----

  function EncodeFrame(messageType: nat, flag: nat, body: bytes): bytes
    requires 3 <= messageType < 9 && flag in {8, 9, 10}
  {
    [messageType * 16 + flag] + EncodeVarint(|body|) + body
  }

  function EncodeRpcBody(sequence: nat, commandId: nat, encryptionType: nat, responseCode: Option<nat>, payload: bytes)
    : bytes
    requires encryptionType < 64
  {
    EncodeVarint(sequence) + (EncodeVarint(commandId)
    + ([encryptionType * 4 + if responseCode.Some? then RPC_RESPONSE else RPC_REQUEST]
    + ((if responseCode.Some? then EncodeVarint(responseCode.value) else [])
    + payload)))
  }

  function EncodeAvBody(p: AVPacket): bytes
    requires p.mediaFormat < 128 && p.encryptionType < 256
  {
    [(if p.isKeyFrame then 128 else 0) + p.mediaFormat, p.encryptionType]
    + (EncodeVarint(p.channel) + (EncodeVarint(p.sequence) + (EncodeVarint(p.timestamp)
    + (EncodeVarint(p.encryptedLength) + p.payload))))
  }

  /** The header a parser reports for a TCP frame around `body`. */
  function TcpHeader(messageType: nat, flag: nat, body: bytes): FixedHeader {
    FixedHeader(messageType, flag, |body|, false, 1 + |EncodeVarint(|body|)|)
  }

  predicate Fits(value: nat, limit: nat) {
    value < Pow128(limit)
  }

  // ----- round trips -----

  /** What reading an encoded varint yields: the value when it fits, an oversized varint when not. */
  function EncodedRead(value: nat, limit: nat, end: nat): Result<(nat, nat), PacketError> {
    if Fits(value, limit) then Success((value, end)) else Failure(BadVarint(OversizedVarint))
  }

  /** Reading a varint that was encoded in front of `rest`, at any offset. */
  lemma ReadEncoded(data: bytes, offset: nat, value: nat, rest: bytes, limit: nat)
    requires limit > 0 && offset <= |data| && data[offset..] == EncodeVarint(value) + rest
    ensures ReadVarint(data, offset, limit)
         == EncodedRead(value, limit, offset + |EncodeVarint(value)|)
    ensures offset + |EncodeVarint(value)| <= |data| && data[offset + |EncodeVarint(value)|..] == rest
  {
    var e := EncodeVarint(value);
    assert data == data[..offset] + e + rest;
    DecodeOfEncode(data[..offset], value, rest, limit);
  }

  lemma Nibbles(high: nat, low: nat)
    requires low < 16
    ensures (high * 16 + low) / 16 == high && (high * 16 + low) % 16 == low
  {
  }

  /** A TCP header is accepted exactly when its first byte holds a known type in the upper half and a known flag in the
      lower half, and the varint behind it is the length. */
  lemma HeaderIff(data: bytes, header: FixedHeader, end: nat)
    ensures ParseFixedHeader(data, Some(false)) == Success((header, end)) <==>
              && data != [] && 3 <= header.messageType <= 8 && header.flag in {8, 9, 10}
              && data[0] == 16 * header.messageType + header.flag
              && ReadVarint(data, 1, 4) == Success((header.length, end))
              && !header.isUdp && header.size == end
  {
    hide ReadVarint;
    if data != [] && header.flag in {8, 9, 10} {
      Nibbles(header.messageType, header.flag);
    }
  }

  /** A UDP datagram is a TCP packet behind the two bytes "Qp": what is read of it is the same, with the header two
      bytes longer. Without those bytes it is no datagram, and a stream is never taken for one. */
  lemma UdpIsTcpBehindMagic(data: bytes, udp: Option<bool>)
    requires udp != Some(false)
    ensures ParseFixedHeader([0x51, 0x70] + data, udp)
         == match ParseFixedHeader(data, Some(false))
            case Failure(e) => Failure(e)
            case Success((header, end)) => Success((header.(isUdp := true, size := end + 2), end + 2))
    ensures !([0x51, 0x70] <= data) ==>
              && ParseFixedHeader(data, Some(true)) == Failure(MissingMagic)
              && ParseFixedHeader(data, None) == ParseFixedHeader(data, Some(false))
  {
    hide DecodeVarint;
    var magic: bytes := [0x51, 0x70];
    var datagram := magic + data;
    assert datagram[..2] == magic;
    if data != [] {
      assert datagram[2] == data[0];
      Shifted(magic, data, 1, 4);
    }
  }

  /** Reading behind other bytes is reading at a later offset. */
  lemma {:induction false} Shifted(before: bytes, data: bytes, offset: nat, limit: nat)
    ensures DecodeVarint(before + data, |before| + offset, limit)
         == match DecodeVarint(data, offset, limit)
            case Failure(e) => Failure(e)
            case Success((value, end)) => Success((value, |before| + end))
    decreases limit
  {
    if limit > 0 && offset < |data| {
      assert (before + data)[|before| + offset] == data[offset];
      Shifted(before, data, offset + 1, limit - 1);
    }
  }

  /** A frame parses to its body's packet when the body is below 2^28 bytes and is refused otherwise. */
  lemma ParseOfEncodedFrame(messageType: nat, flag: nat, body: bytes)
    requires 3 <= messageType < 9 && flag in {8, 9, 10}
    ensures ParsePacket(EncodeFrame(messageType, flag, body), Some(false), true)
         == if Fits(|body|, 4) then ParseBody(TcpHeader(messageType, flag, body), body)
            else Failure(BadVarint(OversizedVarint))
  {
    hide EncodeVarint, ReadVarint, ParseBody, Fits;
    var data := EncodeFrame(messageType, flag, body);
    assert data[1..] == EncodeVarint(|body|) + body;
    ReadEncoded(data, 1, |body|, body, 4);
    assert data[0] == messageType * 16 + flag;
    Nibbles(messageType, flag);
    var offset := 1 + |EncodeVarint(|body|)|;
    assert data[offset..] == body;
    assert data[offset..|data|] == body;
  }

  /** Of the six types two are RPC, one is AV, and the others are kept as they are. */
  lemma FrameKinds(messageType: nat, flag: nat, body: bytes)
    requires 3 <= messageType < 9 && flag in {8, 9, 10} && Fits(|body|, 4)
    ensures var header := TcpHeader(messageType, flag, body);
            var packet := ParsePacket(EncodeFrame(messageType, flag, body), Some(false), true);
            && (messageType in {3, 7, 8} ==> packet == Success(Raw(RawPacket(header, body))))
            && (messageType in {4, 5} ==>
                  match ParseRpc(header, body)
                  case Success(rpc) => packet == Success(Rpc(rpc))
                  case Failure(e) => packet == Failure(e))
            && (messageType == 6 ==>
                  match ParseAv(header, body)
                  case Success(av) => packet == Success(Av(av))
                  case Failure(e) => packet == Failure(e))
  {
    hide ParseRpc, ParseAv, ParsePacket, EncodeFrame, Fits;
    ParseOfEncodedFrame(messageType, flag, body);
  }

  lemma AfterByte(data: bytes, at: nat, b: byte, rest: bytes)
    requires at <= |data| && data[at..] == [b] + rest
    ensures at < |data| && data[at] == b && data[at + 1..] == rest
  {
    assert data[at] == data[at..][0] && data[at + 1..] == data[at..][1..];
  }

  /** Two varints in front of `rest`. */
  lemma TwoReads(one: nat, other: nat, rest: bytes, middle: nat, end: nat)
    requires middle == |EncodeVarint(one)| && end == middle + |EncodeVarint(other)|
    ensures var data := EncodeVarint(one) + (EncodeVarint(other) + rest);
            && ReadVarint(data, 0, 4) == EncodedRead(one, 4, middle)
            && ReadVarint(data, middle, 4) == EncodedRead(other, 4, end)
            && end <= |data| && data[end..] == rest
  {
    hide EncodeVarint, EncodedRead, ReadVarint, Fits;
    var data := EncodeVarint(one) + (EncodeVarint(other) + rest);
    assert data[0..] == data;
    ReadEncoded(data, 0, one, EncodeVarint(other) + rest, 4);
    ReadEncoded(data, middle, other, rest, 4);
  }

  /** Where the parts of an encoded RPC body lie, and how each varint reads. */
  lemma RpcReads(
      sequence: nat, commandId: nat, encryptionType: nat, responseCode: Option<nat>, payload: bytes,
      sequenceEnd: nat, commandEnd: nat)
    requires encryptionType < 64
    requires sequenceEnd == |EncodeVarint(sequence)| && commandEnd == sequenceEnd + |EncodeVarint(commandId)|
    ensures var body := EncodeRpcBody(sequence, commandId, encryptionType, responseCode, payload);
            && ReadVarint(body, 0, 4) == EncodedRead(sequence, 4, sequenceEnd)
            && ReadVarint(body, sequenceEnd, 4) == EncodedRead(commandId, 4, commandEnd)
            && commandEnd < |body|
            && body[commandEnd] == encryptionType * 4 + (if responseCode.Some? then RPC_RESPONSE else RPC_REQUEST)
            && (responseCode.None? ==> body[commandEnd + 1..] == payload)
            && (responseCode.Some? ==>
                  var codeEnd := commandEnd + 1 + |EncodeVarint(responseCode.value)|;
                  && ReadVarint(body, commandEnd + 1, 4) == EncodedRead(responseCode.value, 4, codeEnd)
                  && codeEnd <= |body| && body[codeEnd..] == payload)
  {
    hide EncodeVarint, EncodedRead, ReadVarint, Fits;
    var body := EncodeRpcBody(sequence, commandId, encryptionType, responseCode, payload);
    var flags := encryptionType * 4 + if responseCode.Some? then RPC_RESPONSE else RPC_REQUEST;
    var afterFlags := (if responseCode.Some? then EncodeVarint(responseCode.value) else []) + payload;
    TwoReads(sequence, commandId, [flags] + afterFlags, sequenceEnd, commandEnd);
    AfterByte(body, commandEnd, flags, afterFlags);
    if responseCode.Some? {
      ReadEncoded(body, commandEnd + 1, responseCode.value, payload, 4);
    } else {
      assert afterFlags == payload;
    }
  }

  /** Every RPC header field and the payload survive the wire exactly when the three varints fit four bytes. */
  lemma ParseOfEncodedRpc(
      header: FixedHeader, sequence: nat, commandId: nat, encryptionType: nat, responseCode: Option<nat>,
      payload: bytes)
    requires encryptionType < 64
    ensures ParseRpc(header, EncodeRpcBody(sequence, commandId, encryptionType, responseCode, payload))
         == if Fits(sequence, 4) && Fits(commandId, 4) && (responseCode.Some? ==> Fits(responseCode.value, 4))
            then Success(RPCPacket(header, sequence, commandId, encryptionType,
                                   if responseCode.Some? then RPC_RESPONSE else RPC_REQUEST, responseCode, payload))
            else Failure(BadVarint(OversizedVarint))
  {
    hide EncodeVarint, EncodeRpcBody, ReadVarint, Fits;
    var sequenceEnd := |EncodeVarint(sequence)|;
    var commandEnd := sequenceEnd + |EncodeVarint(commandId)|;
    RpcReads(sequence, commandId, encryptionType, responseCode, payload, sequenceEnd, commandEnd);
    var body := EncodeRpcBody(sequence, commandId, encryptionType, responseCode, payload);
    assert body[commandEnd] / 4 == encryptionType;
    assert body[commandEnd] % 4 == if responseCode.Some? then RPC_RESPONSE else RPC_REQUEST;
  }

  /** Where the four varints of an encoded AV body lie, and how each of them reads. */
  lemma AvReads(p: AVPacket, channelEnd: nat, sequenceEnd: nat, timestampEnd: nat, lengthEnd: nat)
    requires p.mediaFormat < 128 && p.encryptionType < 256
    requires channelEnd == 2 + |EncodeVarint(p.channel)|
    requires sequenceEnd == channelEnd + |EncodeVarint(p.sequence)|
    requires timestampEnd == sequenceEnd + |EncodeVarint(p.timestamp)|
    requires lengthEnd == timestampEnd + |EncodeVarint(p.encryptedLength)|
    ensures var body := EncodeAvBody(p);
            && |body| >= 2 && body[0] == (if p.isKeyFrame then 128 + p.mediaFormat else p.mediaFormat)
            && body[1] == p.encryptionType
            && ReadVarint(body, 2, 4) == EncodedRead(p.channel, 4, channelEnd)
            && ReadVarint(body, channelEnd, 4) == EncodedRead(p.sequence, 4, sequenceEnd)
            && ReadVarint(body, sequenceEnd, 9) == EncodedRead(p.timestamp, 9, timestampEnd)
            && ReadVarint(body, timestampEnd, 4) == EncodedRead(p.encryptedLength, 4, lengthEnd)
            && lengthEnd <= |body| && body[lengthEnd..] == p.payload
  {
    hide EncodeVarint, EncodedRead, ReadVarint, Fits;
    var body := EncodeAvBody(p);
    var afterT := EncodeVarint(p.encryptedLength) + p.payload;
    var afterS := EncodeVarint(p.timestamp) + afterT;
    var afterC := EncodeVarint(p.sequence) + afterS;
    assert body[2..] == EncodeVarint(p.channel) + afterC;
    ReadEncoded(body, 2, p.channel, afterC, 4);
    ReadEncoded(body, channelEnd, p.sequence, afterS, 4);
    ReadEncoded(body, sequenceEnd, p.timestamp, afterT, 9);
    ReadEncoded(body, timestampEnd, p.encryptedLength, p.payload, 4);
  }

  /** The AV header round trip: three four-byte varints and a nine-byte timestamp. */
  lemma ParseOfEncodedAv(p: AVPacket)
    requires p.mediaFormat < 128 && p.encryptionType < 256
    ensures ParseAv(p.header, EncodeAvBody(p))
         == if Fits(p.channel, 4) && Fits(p.sequence, 4) && Fits(p.timestamp, 9) && Fits(p.encryptedLength, 4)
            then Success(p)
            else Failure(BadVarint(OversizedVarint))
  {
    var channelEnd := 2 + |EncodeVarint(p.channel)|;
    var sequenceEnd := channelEnd + |EncodeVarint(p.sequence)|;
    var timestampEnd := sequenceEnd + |EncodeVarint(p.timestamp)|;
    AvReads(p, channelEnd, sequenceEnd, timestampEnd, timestampEnd + |EncodeVarint(p.encryptedLength)|);
    var body := EncodeAvBody(p);
    assert body[0] / 128 == (if p.isKeyFrame then 1 else 0) && body[0] % 128 == p.mediaFormat;
    assert body[1] == p.encryptionType;
  }

  // ----- what the parsers accept -----

  lemma ReadIff(body: bytes, offset: nat, limit: nat, value: nat, end: nat)
    ensures ReadVarint(body, offset, limit) == Success((value, end)) <==> VarintAt(body, offset, end, limit, value)
  {
    DecodeIff(body, offset, limit, value, end);
    hide DecodeVarint, VarintAt;
  }

  /** The fields of an RPC packet and the places in its body at which sequence, command and code end. */
  predicate RpcLayout(body: bytes, p: RPCPacket, sequenceEnd: nat, commandEnd: nat, end: nat) {
    && VarintAt(body, 0, sequenceEnd, 4, p.sequence) && VarintAt(body, sequenceEnd, commandEnd, 4, p.commandId)
    && commandEnd < |body| && body[commandEnd] == 4 * p.encryptionType + p.rpcType
    && (if p.rpcType == 0 then p.responseCode == None && end == commandEnd + 1
        else p.rpcType == 1 && p.responseCode.Some?
             && VarintAt(body, commandEnd + 1, end, 4, p.responseCode.value))
    && end <= |body| && p.payload == body[end..]
  }

  /** An RPC body is accepted exactly with this layout: sequence, command, one byte for encryption and type, in a
      response the code, and the rest as payload. */
  lemma RpcIff(header: FixedHeader, body: bytes, p: RPCPacket)
    ensures ParseRpc(header, body) == Success(p) <==>
              p.header == header && exists a: nat, b: nat, e: nat :: RpcLayout(body, p, a, b, e)
  {
    if ParseRpc(header, body) == Success(p) {
      RpcIsLaidOut(header, body, p);
    }
    if p.header == header && exists a: nat, b: nat, e: nat :: RpcLayout(body, p, a, b, e) {
      var a: nat, b: nat, e: nat :| RpcLayout(body, p, a, b, e);
      LaidOutIsRpc(header, body, p, a, b, e);
    }
  }

  lemma RpcIsLaidOut(header: FixedHeader, body: bytes, p: RPCPacket)
    requires ParseRpc(header, body) == Success(p)
    ensures p.header == header && exists a: nat, b: nat, e: nat :: RpcLayout(body, p, a, b, e)
  {
    hide ReadVarint, VarintAt;
    var (sequence, a) := ReadVarint(body, 0, 4).value;
    ReadIff(body, 0, 4, sequence, a);
    var (command, b) := ReadVarint(body, a, 4).value;
    ReadIff(body, a, 4, command, b);
    if p.rpcType == 1 {
      var (code, e) := ReadVarint(body, b + 1, 4).value;
      ReadIff(body, b + 1, 4, code, e);
      assert RpcLayout(body, p, a, b, e);
    } else {
      assert RpcLayout(body, p, a, b, b + 1);
    }
  }

  lemma LaidOutIsRpc(header: FixedHeader, body: bytes, p: RPCPacket, a: nat, b: nat, e: nat)
    requires p.header == header && RpcLayout(body, p, a, b, e)
    ensures ParseRpc(header, body) == Success(p)
  {
    hide ReadVarint, VarintAt;
    ReadIff(body, 0, 4, p.sequence, a);
    ReadIff(body, a, 4, p.commandId, b);
    if p.rpcType == 1 {
      ReadIff(body, b + 1, 4, p.responseCode.value, e);
    }
    assert body[b] / 4 == p.encryptionType && body[b] % 4 == p.rpcType;
  }

  /** Which RPC bodies are refused for their type byte: those of type 2 or 3, and those that end before it. */
  lemma RpcRefusals(header: FixedHeader, body: bytes, rpcType: nat)
    ensures ParseRpc(header, body) == Failure(UnsupportedRpcType(rpcType)) <==>
              exists s: nat, c: nat, a: nat, b: nat ::
                && VarintAt(body, 0, a, 4, s) && VarintAt(body, a, b, 4, c)
                && b < |body| && body[b] % 4 == rpcType >= 2
    ensures ParseRpc(header, body) == Failure(MissingRpcByte) <==>
              exists s: nat, c: nat, a: nat :: VarintAt(body, 0, a, 4, s) && VarintAt(body, a, |body|, 4, c)
  {
    hide ReadVarint, VarintAt;
    forall offset: nat, value: nat, end: nat
      ensures ReadVarint(body, offset, 4) == Success((value, end)) <==> VarintAt(body, offset, end, 4, value)
    {
      ReadIff(body, offset, 4, value, end);
    }
    ReadErrors(body, 0);
    if ReadVarint(body, 0, 4).Success? {
      var (s, a) := ReadVarint(body, 0, 4).value;
      ReadErrors(body, a);
      if ReadVarint(body, a, 4).Success? {
        var (c, b) := ReadVarint(body, a, 4).value;
        ReadErrors(body, b + 1);
      }
    }
  }

  lemma ReadErrors(body: bytes, offset: nat)
    ensures ReadVarint(body, offset, 4).Failure? ==> ReadVarint(body, offset, 4).error.BadVarint?
  {
    hide DecodeVarint;
  }

  /** The fields of an AV packet and the places in its body at which its four varints end. */
  predicate AvLayout(
      body: bytes, p: AVPacket, channelEnd: nat, sequenceEnd: nat, timestampEnd: nat, lengthEnd: nat)
  {
    && |body| >= 2 && body[0] == (if p.isKeyFrame then 128 else 0) + p.mediaFormat && p.mediaFormat < 128
    && body[1] == p.encryptionType
    && VarintAt(body, 2, channelEnd, 4, p.channel) && VarintAt(body, channelEnd, sequenceEnd, 4, p.sequence)
    && VarintAt(body, sequenceEnd, timestampEnd, 9, p.timestamp)
    && VarintAt(body, timestampEnd, lengthEnd, 4, p.encryptedLength)
    && lengthEnd <= |body| && p.payload == body[lengthEnd..]
  }

  /** An AV body is accepted exactly with this layout: the key-frame bit with the format, the encryption, channel,
      sequence, timestamp and encrypted length, and the rest as payload. */
  lemma AvIff(header: FixedHeader, body: bytes, p: AVPacket)
    ensures ParseAv(header, body) == Success(p) <==>
              p.header == header && exists a: nat, b: nat, c: nat, d: nat :: AvLayout(body, p, a, b, c, d)
  {
    if ParseAv(header, body) == Success(p) {
      AvIsLaidOut(header, body, p);
    }
    if p.header == header && exists a: nat, b: nat, c: nat, d: nat :: AvLayout(body, p, a, b, c, d) {
      var a: nat, b: nat, c: nat, d: nat :| AvLayout(body, p, a, b, c, d);
      LaidOutIsAv(header, body, p, a, b, c, d);
    }
  }

  lemma AvIsLaidOut(header: FixedHeader, body: bytes, p: AVPacket)
    requires ParseAv(header, body) == Success(p)
    ensures p.header == header && exists a: nat, b: nat, c: nat, d: nat :: AvLayout(body, p, a, b, c, d)
  {
    hide ReadVarint, VarintAt;
    var (channel, a) := ReadVarint(body, 2, 4).value;
    ReadIff(body, 2, 4, channel, a);
    var (sequence, b) := ReadVarint(body, a, 4).value;
    ReadIff(body, a, 4, sequence, b);
    var (timestamp, c) := ReadVarint(body, b, 9).value;
    ReadIff(body, b, 9, timestamp, c);
    var (length, d) := ReadVarint(body, c, 4).value;
    ReadIff(body, c, 4, length, d);
    assert AvLayout(body, p, a, b, c, d);
  }

  lemma LaidOutIsAv(header: FixedHeader, body: bytes, p: AVPacket, a: nat, b: nat, c: nat, d: nat)
    requires p.header == header && AvLayout(body, p, a, b, c, d)
    ensures ParseAv(header, body) == Success(p)
  {
    hide ReadVarint, VarintAt;
    ReadIff(body, 2, 4, p.channel, a);
    ReadIff(body, a, 4, p.sequence, b);
    ReadIff(body, b, 9, p.timestamp, c);
    ReadIff(body, c, 4, p.encryptedLength, d);
  }
}
