/** What a whole connection delivers of the documented camera's stream, and what its heartbeats say on the wire. */
module Delivery {
  import opened Basics
  import opened Varint
  import opened Pprpc
  import opened Framing
  import opened Rpc
  import opened Protobuf
  import opened Reassembler
  import opened Sender
  import opened Messages
  import opened Handshake
  import opened HandshakeLaws
  import opened HandshakeErrors
  import opened Timeline
  import opened LoopLaws
  import opened Client
  import opened Session
  import Crypto

  // ----- video -----

  /** A fragment as the camera puts it on the wire. */
  function FragmentWord(
      sequence: nat, timestamp: nat, channel: nat, encryptedLength: nat, index: byte, fragment: bytes): bytes
  {
    EncodeFrame(6, 10, EncodeAvBody(FragmentPacket(sequence, timestamp, channel, encryptedLength, index, fragment)))
  }

  /** A fragment survives the wire exactly when its numbers and its body fit their varints. */
  lemma FragmentOnWire(
      sequence: nat, timestamp: nat, channel: nat, encryptedLength: nat, index: byte, fragment: bytes)
    ensures
      var p := FragmentPacket(sequence, timestamp, channel, encryptedLength, index, fragment);
      var word := FragmentWord(sequence, timestamp, channel, encryptedLength, index, fragment);
      && (WellFormed(word) <==>
            && Fits(channel, 4) && Fits(sequence, 4) && Fits(timestamp, 9) && Fits(encryptedLength, 4)
            && Fits(|EncodeAvBody(p)|, 4))
      && (WellFormed(word) ==> PacketOf(word) == Av(p))
  {
    hide ParsePacket, ParseAv, EncodeFrame, Fits;
    var p := FragmentPacket(sequence, timestamp, channel, encryptedLength, index, fragment);
    var body := EncodeAvBody(p);
    assert p.header == TcpHeader(6, 10, body);
    ParseOfEncodedFrame(6, 10, body);
    ParseOfEncodedAv(p);
  }

  /** End to end: when the packets of a stream carry frames in the documented format, cut and interleaved in any
      way, the frames delivered from that stream are exactly those images, byte for byte, in the order in which
      their last fragments arrived; a packet cut off at the end of the stream changes nothing. */
  lemma CameraStreamDelivers(
      suite: Crypto.Suite, prefix: bytes, words: seq<bytes>, last: bytes, cut: nat, sent: map<nat, Sent>)
    requires forall word | word in words :: WellFormed(word)
    requires WellFormed(last) && cut < |last|
    requires Carries(StreamContext(suite, prefix), AvOf(PacketsOf(words)), sent)
    requires forall p | p in AvOf(PacketsOf(words)) && Relevant(p) :: p.sequence in sent
    ensures StreamFrames(suite, prefix, Concat(words) + last[..cut])
         == ImagesInOrder(AvOf(PacketsOf(words)), sent)
  {
    hide ParseStream, FramesOf, AvOf, PacketsOf, WellFormed, Carries, ImagesInOrder, Relevant;
    FramingComplete(words, last, cut);
    TrafficDelivers(StreamContext(suite, prefix), AvOf(PacketsOf(words)), sent);
  }

  /** The last request's answer lies in a batch that had not been read when its deadline passed. */
  lemma LateAnswerUnread(
      client: CameraClient, batches: seq<seq<Packet>>, ending: Ending, startAudio: bool, prefix: bytes,
      i: nat, j: nat, k: nat, l: nat, cut: Option<nat>, stop: Stop)
    requires Connects(client.suite, client.bootstrapPrefix, batches, prefix, i, j, k, None)
    requires HearsAudio(client.suite, client.bootstrapPrefix, batches, startAudio, k, l)
    requires forall h | j < h < k :: !Replies(batches[h], 3, VIDEO_START_COMMAND)
    requires client.Late(Arrivals(batches, ending), stop)
    requires client.Placed(Arrivals(batches, ending), cut, RequestsIn(client.log))
    requires |RequestsIn(client.log)| <= 3 || startAudio
    ensures |client.heardAt| <= AnswerBatch(i, j, k, l, |RequestsIn(client.log)| - 1)
  {
    hide RequestsIn, LastAnswer, Connects, HearsAudio, AheadAt;
    var n := |RequestsIn(client.log)| - 1;
    var last := RequestsIn(client.log)[n];
    AskedBeforeAnswer(client.suite, client.bootstrapPrefix, batches, ending, startAudio, prefix, i, j, k, l, cut, n,
                      last.after);
  }

  /** Progress: a camera that stays, whose time syncs can be read, and that answers each request in a batch after the
      one in which it answered the request before, makes the run reach the media loop, wait for more, and deliver the
      images it sent, byte for byte and in order. It does so whatever the chunks are otherwise, wherever two seconds end
      the wait for time syncs, and however long the run is, unless an answer, a packet or a frame misses its own
      deadline: the batch with the answer was not read by the timeout after its request, or at the check of the last
      turn no packet, or no frame, had come for the timeout. */
  method RunOverCamera(
      client: CameraClient, startAudio: bool, withAudio: bool, ghost words: seq<bytes>, ghost last: bytes,
      ghost cutAt: nat, ghost sent: map<nat, Sent>, ghost prefix: bytes, ghost i: nat, ghost j: nat, ghost k: nat,
      ghost l: nat)
    returns (phase: Phase, stop: Stop, trace: Trace, ghost loop: Loop)
    requires client.Valid()
    requires (forall word | word in words :: WellFormed(word)) && WellFormed(last) && cutAt < |last|
    requires BytesOf(client.inbox) == Concat(words) + last[..cutAt] && Data([]) !in client.inbox
    requires SyncFault(client.suite, client.bootstrapPrefix, PacketsOf(words)) == None
    requires var batches := ArrivalsOf([], client.inbox).batches;
             && Connects(client.suite, client.bootstrapPrefix, batches, prefix, i, j, k, None)
             && HearsAudio(client.suite, client.bootstrapPrefix, batches, startAudio, k, l)
             && forall h | j < h < k :: !Replies(batches[h], 3, VIDEO_START_COMMAND)
    requires Carries(StreamContext(client.suite, prefix), AvOf(PacketsOf(words)), sent)
    requires forall p | p in AvOf(PacketsOf(words)) && Relevant(p) :: p.sequence in sent
    modifies client
    ensures client.Valid()
    ensures || (&& phase == Media && stop == Blocked && client.sessionPrefix == Some(prefix)
                && trace.frames == ImagesInOrder(AvOf(PacketsOf(words)), sent))
            || (&& phase != Media && client.Late(ArrivalsOf([], old(client.inbox)), stop)
                && |client.heardAt| <= AnswerBatch(i, j, k, l, |RequestsIn(client.log)| - 1))
            || (&& phase == Media && client.Ended(loop, withAudio, trace, stop) && stop == Raised(NoActivity)
                && loop.clock(trace.last.check) >= loop.clock(LastTaken(loop, trace.All())) + client.frameTimeout)
            || (&& phase == Media && client.Ended(loop, withAudio, trace, stop) && stop == Raised(NoFrame)
                && loop.clock(trace.last.check) >= loop.clock(LastDelivered(loop, trace.All())) + client.frameTimeout)
    ensures phase == Media ==> trace.frames <= ImagesInOrder(AvOf(PacketsOf(words)), sent)
    ensures 1 <= |RequestsIn(client.log)| <= 4
  {
    hide ParseStream, ArrivalsOf, FramesOf, AvOf, PacketsOf, WellFormed, Carries, ImagesInOrder, Relevant, SyncFault;
    hide StartOutcome, Delivered, Heard, MediaStop, Connects, HearsAudio, Replies, StreamAudio, AudioOf, RequestsIn;
    hide Justified, GrantsAgree, FirstGrant, CameraClient.ConnectAccepted, CameraClient.AudioAgreed, BytesOf, Begins;
    hide CameraClient.Placed, CameraClient.Late, CameraClient.SyncedFirst, CameraClient.Valid, StreamContext;
    hide AnsweredIn, BeatsIn, Beats, SyncsOf;
    ghost var suite, bootstrap, events := client.suite, client.bootstrapPrefix, client.inbox;
    ghost var arrivals := ArrivalsOf([], events);
    FramingComplete(words, last, cutAt);
    ReadableIsHeard(suite, bootstrap, events);
    CameraStreamDelivers(suite, prefix, words, last, cutAt, sent);
    ghost var cut, wait;
    phase, stop, trace, cut, wait, loop := RunConnection(client, startAudio, withAudio);
    CutMakesNoDifference(suite, bootstrap, arrivals.batches, arrivals.ending, startAudio, prefix, i, j, k, l, cut);
    if phase == Media {
      EndsLate(client, loop, withAudio, trace, stop);
    } else if client.Late(arrivals, stop) {
      LateAnswerUnread(client, arrivals.batches, arrivals.ending, startAudio, prefix, i, j, k, l, cut, stop);
    }
  }

  lemma EndsLate(client: CameraClient, loop: Loop, withAudio: bool, trace: Trace, stop: Stop)
    requires client.Ended(loop, withAudio, trace, stop)
    ensures loop.timeout == client.frameTimeout
    ensures stop == Raised(NoActivity) ==>
              loop.clock(trace.last.check) >= loop.clock(LastTaken(loop, trace.All())) + loop.timeout
    ensures stop == Raised(NoFrame) ==>
              loop.clock(trace.last.check) >= loop.clock(LastDelivered(loop, trace.All())) + loop.timeout
  {
    hide Ends, Turns, LastTaken, LastDelivered;
    TimeoutsAreDue(loop, trace.passed, trace.last, stop);
  }

  // ----- heartbeats -----

  ghost predicate Greatest(packets: seq<AVPacket>, m: nat) {
    (exists p :: p in packets && p.sequence == m) && forall p | p in packets :: p.sequence <= m
  }

  lemma GreatestSnoc(front: seq<AVPacket>, m: nat, last: AVPacket)
    requires Greatest(front, m)
    ensures Greatest(front + [last], if last.sequence > m then last.sequence else m)
  {
    var p :| p in front && p.sequence == m;
    assert p in front + [last] && last in front + [last];
  }

  lemma NoSequence()
    ensures MaxSequence([]) == None
  {
  }

  lemma MaxSequenceSnoc(front: seq<AVPacket>, last: AVPacket)
    ensures MaxSequence(front + [last])
         == match MaxSequence(front)
            case None => Some(last.sequence)
            case Some(m) => Some(if last.sequence > m then last.sequence else m)
  {
    assert (front + [last])[..|front|] == front;
  }

  lemma {:induction false} MaxSequenceIsGreatest(packets: seq<AVPacket>)
    ensures if packets == [] then MaxSequence(packets) == None
            else MaxSequence(packets).Some? && Greatest(packets, MaxSequence(packets).value)
    decreases |packets|
  {
    hide MaxSequence, Greatest;
    if packets == [] {
      NoSequence();
    } else {
      var front, last := packets[..|packets| - 1], packets[|packets| - 1];
      assert packets == front + [last];
      MaxSequenceSnoc(front, last);
      MaxSequenceIsGreatest(front);
      if front == [] {
        OnlyIsGreatest(last);
        assert [] + [last] == [last];
      } else {
        GreatestSnoc(front, MaxSequence(front).value, last);
      }
    }
  }

  lemma OnlyIsGreatest(packet: AVPacket)
    ensures Greatest([packet], packet.sequence)
  {
    assert packet in [packet];
  }

  /** The acknowledged number is the greatest AV sequence, and there is one as soon as there is a packet. */
  lemma MaxSequenceIff(packets: seq<AVPacket>, m: nat)
    ensures MaxSequence(packets) == None <==> packets == []
    ensures MaxSequence(packets) == Some(m) <==>
              (exists p :: p in packets && p.sequence == m) && forall p | p in packets :: p.sequence <= m
  {
    hide MaxSequence;
    MaxSequenceIsGreatest(packets);
  }

  predicate NotBelow(later: Option<nat>, earlier: Option<nat>) {
    earlier.Some? ==> later.Some? && later.value >= earlier.value
  }

  lemma {:induction false} MaxSequenceGrows(packets: seq<AVPacket>, m: nat, n: nat)
    requires m <= n <= |packets|
    ensures NotBelow(MaxSequence(packets[..n]), MaxSequence(packets[..m]))
    decreases n
  {
    if m < n {
      MaxSequenceGrows(packets, m, n - 1);
      assert packets[..n][..n - 1] == packets[..n - 1];
    }
  }

  lemma {:induction false} AcksBelow(loop: Loop, turns: seq<Turn>, i: nat)
    requires Trail(loop, turns) && i < |Beats(turns)|
    ensures NotBelow(MaxSequence(AvOf(Taken(turns))), Beats(turns)[i].ack)
    decreases |turns|
  {
    hide MaxSequence, AvOf, Taken, Settled, NextBeat;
    var front, t := turns[..|turns| - 1], turns[|turns| - 1];
    assert turns == front + [t];
    TurnSnoc(loop, front, t);
    AvOfAppend(Taken(front), t.done);
    var before, after := AvOf(Taken(front)), AvOf(Taken(turns));
    MaxSequenceGrows(after, |before|, |after|);
    assert after[..|before|] == before && after[..|after|] == after;
    if i < |Beats(front)| {
      AcksBelow(loop, front, i);
    }
  }

  /** Acknowledgements never decrease from one heartbeat of a loop to a later one. */
  lemma {:induction false} AcksNeverDecrease(loop: Loop, turns: seq<Turn>, i: nat, j: nat)
    requires Trail(loop, turns) && i <= j < |Beats(turns)|
    ensures NotBelow(Beats(turns)[j].ack, Beats(turns)[i].ack)
    decreases |turns|
  {
    hide MaxSequence, AvOf, Taken, Settled, NextBeat;
    var front, t := turns[..|turns| - 1], turns[|turns| - 1];
    assert turns == front + [t];
    TurnSnoc(loop, front, t);
    if j < |Beats(front)| {
      AcksNeverDecrease(loop, front, i, j);
    } else if i < j {
      AcksBelow(loop, front, i);
    }
  }

  lemma TimeRequestIsShort(wallMs: nat, ack: Option<nat>)
    ensures BuildTimeRequest(wallMs, ack).Success? && |BuildTimeRequest(wallMs, ack).value| <= 22
  {
    hide EncodeVarint;
    Pow128Values();
    EncodedLength(wallMs % UINT64, 10);
    EncodedLength(8, 1);
    if ack.Some? {
      EncodedLength(ack.value % UINT64, 10);
      EncodedLength(32, 1);
    }
    assert Pow128(1) == 128 * Pow128(0) == 128;
  }

  /** Whoever parses and decrypts a heartbeat finds command 107 under its own sequence number, the clock in field 1
      and the acknowledged AV sequence in field 4. */
  lemma HeartbeatOnWire(client: CameraClient, beat: Heartbeat)
    requires Fits(beat.sequence, 4)
    ensures
      var word := client.BeatBytes(beat);
      && WellFormed(word) && PacketOf(word).Rpc?
      && var rpc := PacketOf(word).rpc;
         && rpc.sequence == beat.sequence && rpc.commandId == TIME_SYNC_COMMAND
         && rpc.rpcType == RPC_REQUEST && rpc.responseCode == None
         && var payload := DecryptRpcPayload(client.suite, rpc, client.bootstrapPrefix);
            && payload.Success?
            && FirstVarintField(payload.value, 1) == Success(client.wall(beat.wallTick) % UINT64)
            && FirstVarintField(payload.value, 4)
               == if beat.ack.Some? then Success(beat.ack.value % UINT64) else Failure(MissingField)
  {
    hide EncodeVarint, ParsePacket, PackRpc, DecryptRpcPayload, BuildTimeRequest, FirstVarintField;
    var wallMs := client.wall(beat.wallTick);
    HeartbeatReadsBack(wallMs, beat.ack);
    TimeRequestIsShort(wallMs, beat.ack);
    var plaintext := BuildTimeRequest(wallMs, beat.ack).value;
    Pow128Values();
    EncodedLength(beat.sequence, 4);
    EncodedLength(TIME_SYNC_COMMAND, 1);
    assert Pow128(1) == 128 * Pow128(0) == 128;
    PackRoundTrip(client.suite, beat.sequence, TIME_SYNC_COMMAND, plaintext, client.bootstrapPrefix, None);
  }

  // ----- the requests of a start, and whose answer is an answer -----

  lemma AuthIsLong(user: bytes, password: bytes)
    ensures |user| <= |BuildLanAuthRequest(user, password)| && |password| <= |BuildLanAuthRequest(user, password)|
  {
    hide EncodeVarint;
  }

  lemma ShortRequest(sequence: nat, commandId: nat, length: nat)
    requires sequence < 5 && commandId < 16384 && length < 16
    ensures Fits(PackedBodyLength(sequence, commandId, None, length), 4)
  {
    hide EncodeVarint;
    Pow128Values();
    EncodedLength(sequence, 1);
    EncodedLength(commandId, 2);
    assert Pow128(2) == 128 * Pow128(1) == 128 * 128 * Pow128(0);
  }

  /** A request with one small field. */
  lemma OneField(number: nat, value: nat)
    requires 0 < number < 16 && value < 128
    ensures EncodeProtobufVarint(number, value).Success?
    ensures EncodeProtobufVarint(number, value).value != [] && |EncodeProtobufVarint(number, value).value| < 16
    ensures FirstVarintField(EncodeProtobufVarint(number, value).value, number) == Success(value)
  {
    hide ScanFor, ParseFields;
    Pow128Values();
    var field := VarintField(number, value);
    assert value % UINT64 == value;
    EncodeOne(field);
    hide EncodeField;
    ParseWhole([field]);
    ScanFinds([field], number, 0, 0);
    FieldLayout(field);
    EncodedLength(8 * number, 1);
    EncodedLength(value, 1);
    assert Pow128(1) == 128 * Pow128(0) == 128;
  }

  /** Whoever parses and decrypts request `n` of a start finds it under its number: the authentication with user and
      password in fields 2 and 3, the synchronisation with 1 in field 1, the video start with 30 in field 2, and the
      audio start, which says nothing. Only names and passwords that do not fit a packet are refused. */
  lemma RequestOnWire(client: CameraClient, n: nat)
    requires n < 4
    ensures
      var plaintext := client.PlaintextAt(n);
      var word := client.RequestBytes(n + 1, CommandAt(n), plaintext);
      && (WellFormed(word) <==> Fits(PackedBodyLength(n + 1, CommandAt(n), None, |plaintext|), 4))
      && (n > 0 ==> WellFormed(word))
      && (WellFormed(word) ==>
            && PacketOf(word).Rpc?
            && var rpc := PacketOf(word).rpc;
               && rpc.sequence == n + 1 && rpc.commandId == [2650, 106, 2610, 2614][n]
               && rpc.rpcType == 0 && rpc.responseCode == None
               && var payload := DecryptRpcPayload(client.suite, rpc, client.bootstrapPrefix);
                  && payload.Success?
                  && (n == 0 ==>
                        && FirstBytesField(payload.value, 2) == Success(client.user)
                        && FirstBytesField(payload.value, 3) == Success(client.lanPassword))
                  && (n == 1 ==> FirstVarintField(payload.value, 1) == Success(1))
                  && (n == 2 ==> FirstVarintField(payload.value, 2) == Success(30))
                  && (n == 3 ==> payload.value == []))
  {
    hide EncodeVarint, ParsePacket, PackRpc, DecryptRpcPayload, FirstVarintField, FirstBytesField;
    hide BuildLanAuthRequest, EncodeProtobufVarint, PackedBodyLength;
    var plaintext := client.PlaintextAt(n);
    SmallNumbers(n);
    PackRoundTrip(client.suite, n + 1, CommandAt(n), plaintext, client.bootstrapPrefix, None);
    if n == 0 {
      AuthIsLong(client.user, client.lanPassword);
      LongEnough(1, 2650, |plaintext|);
      if |client.user| < Pow128(10) && |client.lanPassword| < Pow128(10) {
        AuthReadsBack(client.user, client.lanPassword);
      }
    } else if n == 1 {
      OneField(1, 1);
      ShortRequest(2, 106, |plaintext|);
    } else if n == 2 {
      OneField(2, 30);
      ShortRequest(3, 2610, |plaintext|);
    } else {
      ShortRequest(4, 2614, 0);
    }
  }

  lemma SmallNumbers(n: nat)
    requires n < 4
    ensures Fits(n + 1, 4) && Fits(CommandAt(n), 4)
  {
    Pow128Values();
  }

  /** A body that fits holds no text beyond the lengths that fields can have. */
  lemma LongEnough(sequence: nat, commandId: nat, length: nat)
    ensures Fits(PackedBodyLength(sequence, commandId, None, length), 4) ==> length < Pow128(10)
  {
    hide EncodeVarint;
    Pow128Values();
  }

  /** On the wire a response answers exactly the request with its sequence and command, and a request answers none;
      exactly the requests 107 ask for the time. */
  lemma AnswerOnWire(
      suite: Crypto.Suite, prefix: bytes, sequence: nat, commandId: nat, plaintext: bytes, code: Option<nat>,
      asked: nat, askedCommand: nat)
    requires Fits(sequence, 4) && Fits(commandId, 4) && (code.Some? ==> Fits(code.value, 4))
    requires Fits(PackedBodyLength(sequence, commandId, code, |plaintext|), 4)
    ensures
      var word := PackRpc(suite, sequence, commandId, plaintext, prefix, if code.Some? then 1 else 0,
                          if code.Some? then code.value else 0);
      && word.Success? && WellFormed(word.value)
      && (Answers(PacketOf(word.value), asked, askedCommand) <==>
            code.Some? && asked == sequence && askedCommand == commandId)
      && (IsTimeSync(PacketOf(word.value)) <==> code.None? && commandId == 107)
  {
    hide EncodeVarint, ParsePacket, PackRpc, DecryptRpcPayload, PackedBodyLength, Fits;
    PackRoundTrip(suite, sequence, commandId, plaintext, prefix, code);
  }

  // ----- time-sync replies -----

  lemma TimeSyncResponseIsShort(request: bytes, wallMs: nat)
    requires FirstVarintField(request, 1).Success?
    ensures BuildTimeSyncResponse(request, wallMs).Success?
    ensures |BuildTimeSyncResponse(request, wallMs).value| <= 33
  {
    hide EncodeVarint, FirstVarintField;
    Pow128Values();
    assert (-30) % UINT64 == UINT64 - 30;
    EncodedLength(FirstVarintField(request, 1).value % UINT64, 10);
    EncodedLength(UINT64 - 30, 10);
    EncodedLength(wallMs % UINT64, 10);
    EncodedLength(8, 1);
    EncodedLength(16, 1);
    EncodedLength(24, 1);
    assert Pow128(1) == 128 * Pow128(0) == 128;
  }

  /** Whoever parses and decrypts the reply to a time-sync request finds a response with code 0 under the request's own
      sequence number, which carries the request's timestamp, -30 and the clock, each modulo 2^64. */
  lemma TimeSyncReplyOnWire(suite: Crypto.Suite, prefix: bytes, request: RPCPacket, wallMs: nat, word: bytes)
    requires TimeSyncReply(suite, prefix, request, wallMs) == Success(word) && Fits(request.sequence, 4)
    ensures
      var asked := DecryptRpcPayload(suite, request, prefix);
      && asked.Success? && FirstVarintField(asked.value, 1).Success?
      && WellFormed(word) && PacketOf(word).Rpc?
      && var rpc := PacketOf(word).rpc;
         && Answers(PacketOf(word), request.sequence, TIME_SYNC_COMMAND) && rpc.responseCode == Some(0)
         && var payload := DecryptRpcPayload(suite, rpc, prefix);
            && payload.Success?
            && FirstVarintField(payload.value, 1) == Success(FirstVarintField(asked.value, 1).value % UINT64)
            && FirstVarintField(payload.value, 2) == Success(UINT64 - 30)
            && FirstVarintField(payload.value, 3) == Success(wallMs % UINT64)
  {
    hide EncodeVarint, ParsePacket, PackRpc, DecryptRpcPayload, FirstVarintField;
    var asked := DecryptRpcPayload(suite, request, prefix).value;
    TimeSyncReadsBack(asked, wallMs);
    TimeSyncResponseIsShort(asked, wallMs);
    var plaintext := BuildTimeSyncResponse(asked, wallMs).value;
    Pow128Values();
    EncodedLength(request.sequence, 4);
    EncodedLength(TIME_SYNC_COMMAND, 1);
    EncodedLength(0, 1);
    assert Pow128(1) == 128 * Pow128(0) == 128;
    PackRoundTrip(suite, request.sequence, TIME_SYNC_COMMAND, plaintext, prefix, Some(0));
  }
}
