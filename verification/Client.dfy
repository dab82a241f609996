/** The camera client's receive side: handshake, queued packets, and the frame loop.

    The socket is an inbox of `recv` outcomes and the clocks are functions of the number of readings taken.
    A run that uses up its inbox without raising is `Blocked`: it waits in `recv` for more. */
module Client {
  import opened Basics
  import opened Pprpc
  import opened Framing
  import opened Rpc
  import opened Protobuf
  import opened Reassembler
  import opened Messages
  import opened Handshake
  import opened Timeline
  import Crypto

  // ----- the trace of a frame loop -----

  /** What a media loop did: the turns that passed their checks, the one under way or the last one, and the frames and
      audio delivered. */
  datatype Trace = Trace(passed: seq<Turn>, last: Turn, frames: seq<bytes>, audio: seq<bytes>)
  {
    function All(): seq<Turn> {
      passed + [last]
    }
  }

  const NO_TRACE := Trace([], NO_TURN, [], [])

  /** The frames and audio of a trace are those of the processed AV packets. */
  ghost predicate TraceOf(context: Context, withAudio: bool, processed: seq<AVPacket>, trace: Trace) {
    && trace.frames == FramesOf(context, processed)
    && trace.audio == if withAudio then AudioOf(processed) else []
  }

  /** What the frame loop carries from packet to packet. */
  datatype LoopState =
    LoopState(trace: Trace, latest: Option<nat>, activityDeadline: int, frameDeadline: int, nextHeartbeat: int)

  /** The loop's state is that of the AV packets processed and of the turns taken so far. */
  ghost predicate LoopOk(loop: Loop, withAudio: bool, processed: seq<AVPacket>, state: LoopState) {
    && TraceOf(loop.context, withAudio, processed, state.trace)
    && |Shown(state.trace.passed)| + |state.trace.last.shown| == |state.trace.frames|
    && state.latest == MaxSequence(processed)
    && state.activityDeadline
       == loop.clock(ActiveIn(loop, state.trace.passed, state.trace.last)) + loop.timeout
    && state.frameDeadline
       == loop.clock(LastShownIn(loop, state.trace.passed, state.trace.last)) + loop.timeout
    && state.nextHeartbeat == NextBeatIn(loop, state.trace.passed, state.trace.last)
  }

  /** The effect of one more AV packet on frames, audio and the greatest sequence. */
  lemma Appended(context: Context, before: seq<AVPacket>, av: AVPacket)
    ensures FramesOf(context, before + [av])
         == FramesOf(context, before) + match OutputFor(context, before, av) case None => [] case Some(f) => [f]
    ensures AudioOf(before + [av])
         == AudioOf(before) + match ExtractAlaw(av) case None => [] case Some(chunk) => [chunk]
    ensures MaxSequence(before + [av])
         == if MaxSequence(before).None? || av.sequence > MaxSequence(before).value then Some(av.sequence)
            else MaxSequence(before)
  {
    assert (before + [av])[..|before|] == before;
  }

  ghost predicate Monotone(clock: nat -> int) {
    forall i: nat, j: nat | i <= j :: clock(i) <= clock(j)
  }

  class CameraClient {
    const suite: Crypto.Suite
    const bootstrapPrefix: bytes
    const user: bytes
    const lanPassword: bytes
    const connectTimeout: int
    const frameTimeout: int
    const clock: nat -> int
    const wall: nat -> nat

    var ticks: nat
    var inbox: seq<RecvEvent>
    var connected: bool
    var buffer: bytes
    var pending: seq<Packet>
    var sessionPrefix: Option<bytes>
    var nextSequence: nat
    var sent: seq<bytes>
    ghost var stream: bytes
    ghost var seen: seq<Packet>
    ghost var heardAt: seq<nat>
    ghost var earlier: seq<bytes>
    ghost var log: seq<Line>

    /** What was read since connecting parses to the packets handed out and the carried remainder, and what was sent is
        what the log says. */
    ghost predicate Valid()
      reads `connected, `stream, `seen, `buffer, `sessionPrefix, `sent, `earlier, `log
    {
      && Monotone(clock)
      && (sessionPrefix.Some? ==> |sessionPrefix.value| == 32)
      && (connected ==> ParseStream(stream) == Success((seen, buffer)))
      && Logged(sent)
    }

    /** What was sent since connecting is one word for each line of the log. */
    ghost predicate Logged(sent: seq<bytes>)
      reads `earlier, `log
    {
      && |sent| == |earlier| + |log| && earlier <= sent
      && forall i | 0 <= i < |log| :: Says(log[i], sent[|earlier| + i])
    }

    /** A line as it goes over the wire. */
    predicate Says(line: Line, word: bytes) {
      match line
      case Request(sequence, commandId, plaintext, _, _) => word == RequestBytes(sequence, commandId, plaintext)
      case Reply(packet, tick) => TimeSyncReply(suite, bootstrapPrefix, packet, wall(tick)) == Success(word)
      case Beat(beat) => word == BeatBytes(beat)
    }

    /** The bytes of a request under the bootstrap key. */
    function RequestBytes(sequence: nat, commandId: nat, plaintext: bytes): bytes {
      PackRpc(suite, sequence, commandId, plaintext, bootstrapPrefix, RPC_REQUEST, 0).value
    }

    /** The bytes a heartbeat puts on the wire. */
    function BeatBytes(beat: Heartbeat): bytes {
      RequestBytes(beat.sequence, TIME_SYNC_COMMAND, BuildTimeRequest(wall(beat.wallTick), beat.ack).value)
    }

    /** The time-sync requests answered since connecting. */
    ghost function Answered(): seq<RPCPacket>
      reads `log
    {
      AnsweredIn(log)
    }

    /** What the start-up request `n` says. */
    function PlaintextAt(n: nat): bytes {
      if n == 0 then BuildLanAuthRequest(user, lanPassword)
      else if n == 1 then EncodeProtobufVarint(1, 1).value
      else if n == 2 then EncodeProtobufVarint(2, VIDEO_MAX_QOS).value
      else []
    }

    predicate IsStep(line: Line, n: nat) {
      line.Request? && line.sequence == n + 1 && line.commandId == CommandAt(n) && line.plaintext == PlaintextAt(n)
    }

    /** Requests made so far in the start-up over `arrivals`: the first ones of the four, in order, each sent when
        exactly those batches were read that end the waits before it. */
    ghost predicate Placed(arrivals: Arrivals, cut: Option<nat>, requests: seq<Line>) {
      && |requests| <= 4
      && forall n | 0 <= n < |requests| ::
           && IsStep(requests[n], n) && requests[n].after <= |arrivals.batches|
           && AheadAt(suite, bootstrapPrefix, arrivals, cut, n)
              == Some(From(arrivals.batches, arrivals.ending, requests[n].after))
    }

    /** The batches read so far are the first ones of the connection's arrivals. */
    ghost predicate At(arrivals: Arrivals)
      reads `inbox, `buffer, `heardAt
    {
      |heardAt| <= |arrivals.batches| && Ahead() == From(arrivals.batches, arrivals.ending, |heardAt|)
    }

    /** The last request had no answer in any batch read since it was sent, and its deadline has passed on the clock. */
    ghost predicate Late(arrivals: Arrivals, stop: Stop)
      reads `log, `ticks, `heardAt
    {
      var requests := RequestsIn(log);
      && requests != [] && ticks > 0
      && var last := requests[|requests| - 1];
         && last.Request? && stop == Raised(NoAnswer(last.commandId))
         && clock(ticks - 1) >= clock(last.tick) + connectTimeout && Paced(ticks, heardAt, log)
         && Unanswered(arrivals.batches, last.after, |heardAt|, last.sequence, last.commandId)
    }

    lemma LateIsTimeout(arrivals: Arrivals, stop: Stop)
      ensures Late(arrivals, stop) ==> IsTimeout(stop)
    {
    }

    /** Two time-sync requests were answered before the video was requested. */
    ghost predicate SyncedFirst(log: seq<Line>) {
      exists p | 0 <= p < |log| :: IsStep(log[p], 2) && |AnsweredIn(log[..p])| >= 2
    }

    /** Where the connection stands. */
    ghost function Here(): Place
      reads `ticks, `stream, `inbox, `seen, `heardAt, `buffer, `log
    {
      Place(ticks, stream + BytesOf(inbox), seen, heardAt, Ahead(), log)
    }

    /** The packets still queued contain exactly the AV packets read so far, in arrival order, and every time-sync
        request read so far was answered, once and in order. */
    ghost predicate Queued()
      reads `connected, `stream, `seen, `buffer, `sessionPrefix, `sent, `earlier, `log, `pending
    {
      && Valid() && connected && (forall p | p in pending :: p in seen)
      && AvOf(pending) == AvOf(seen) && SyncsOf(pending) == [] && Answered() == SyncsOf(seen)
    }

    constructor (suite: Crypto.Suite, bootstrapPrefix: bytes, user: bytes, lanPassword: bytes,
                 connectTimeout: int, frameTimeout: int, clock: nat -> int, wall: nat -> nat,
                 inbox: seq<RecvEvent>)
      requires frameTimeout > 0 && Monotone(clock)
      ensures Valid() && !connected && this.inbox == inbox
      ensures this.suite == suite && this.bootstrapPrefix == bootstrapPrefix && this.frameTimeout == frameTimeout
    {
      this.suite, this.bootstrapPrefix, this.user, this.lanPassword := suite, bootstrapPrefix, user, lanPassword;
      this.connectTimeout, this.frameTimeout, this.clock, this.wall := connectTimeout, frameTimeout, clock, wall;
      this.inbox := inbox;
      ticks, connected, buffer, pending, sessionPrefix, nextSequence, sent := 0, false, [], [], None, 5, [];
      stream, seen, heardAt, earlier, log := [], [], [], [], [];
    }

    method Now() returns (now: int)
      modifies `ticks
      ensures now == clock(old(ticks)) && ticks == old(ticks) + 1
    {
      now := clock(ticks);
      ticks := ticks + 1;
    }

    lemma ClockGoesOn(tick: int)
      requires Monotone(clock)
      ensures tick >= 0 ==> clock(tick) <= clock(tick + 1)
    {
    }

    method Close()
      requires Valid()
      modifies `connected, `sessionPrefix, `buffer, `pending
      ensures Valid() && !connected && sessionPrefix == None && buffer == [] && pending == []
    {
      connected := false;
      sessionPrefix := None;
      buffer := [];
      pending := [];
    }

    method Send(data: bytes, ghost line: Line) returns (r: Result<(), ClientError>)
      requires Valid() && Says(line, data)
      modifies `sent, `log
      ensures Valid()
      ensures connected ==> r == Success(()) && sent == old(sent) + [data] && log == old(log) + [line]
      ensures !connected ==> r == Failure(SocketClosed) && sent == old(sent) && log == old(log)
    {
      hide Says, ParseStream;
      if !connected {
        return Failure(SocketClosed);
      }
      sent := sent + [data];
      log := log + [line];
      return Success(());
    }

    method SendRequest(sequence: nat, commandId: nat, plaintext: bytes, ghost line: Line)
      returns (r: Result<(), ClientError>)
      requires Valid() && Says(line, RequestBytes(sequence, commandId, plaintext))
      modifies `sent, `log
      ensures Valid()
      ensures connected ==>
                && r == Success(()) && log == old(log) + [line]
                && sent == old(sent) + [RequestBytes(sequence, commandId, plaintext)]
      ensures !connected ==> r == Failure(SocketClosed) && sent == old(sent) && log == old(log)
    {
      hide Says;
      r := Send(PackRpc(suite, sequence, commandId, plaintext, bootstrapPrefix, RPC_REQUEST, 0).value, line);
    }

    method AllocateSequence() returns (sequence: nat)
      modifies `nextSequence
      ensures sequence == old(nextSequence) && nextSequence == old(nextSequence) + 1
    {
      sequence := nextSequence;
      nextSequence := nextSequence + 1;
    }

    /** The batches that the rest of the inbox completes. */
    ghost function Ahead(): Arrivals
      reads `inbox, `buffer
    {
      ArrivalsOf(buffer, inbox)
    }

    /** Parses one chunk behind the carried remainder. */
    method Absorb(data: bytes) returns (r: Result<seq<Packet>, ClientError>)
      requires Valid() && connected
      modifies `buffer, `stream, `seen
      ensures Valid()
      ensures r.Success? ==> stream == old(stream) + data && seen == old(seen) + r.value
      ensures r.Failure? ==> stream == old(stream) && seen == old(seen)
      ensures r.Failure? <==> ParseStream(old(stream) + data).Failure?
      ensures r.Failure? ==> r.error.BadPacket?
      ensures ParseStream(old(buffer) + data)
           == if r.Success? then Success((r.value, buffer)) else Failure(r.error.packet)
    {
      hide ParseStream;
      var parsed := IterTcpPackets(buffer + data);
      ParseAppend(stream, data);
      if parsed.Failure? {
        return Failure(BadPacket(parsed.error));
      }
      var (packets, rest) := parsed.value;
      buffer := rest;
      stream := stream + data;
      seen := seen + packets;
      return Success(packets);
    }

    /** One `recv`: the packets it completes, none when it times out or ends inside a packet. */
    method ReadEvent() returns (r: Result<seq<Packet>, Stop>)
      requires Valid() && connected
      modifies `inbox, `buffer, `stream, `seen
      ensures Valid() && |inbox| <= |old(inbox)|
      ensures r.Success? ==>
                && |inbox| < |old(inbox)| && seen == old(seen) + r.value
                && stream + BytesOf(inbox) == old(stream) + BytesOf(old(inbox))
                && old(Ahead()) == if r.value == [] then Ahead()
                                   else Arrivals([r.value] + Ahead().batches, Ahead().ending)
      ensures r.Failure? ==>
                seen == old(seen) && old(Ahead()).batches == [] && r.error == StopOf(old(Ahead()).ending)
      ensures r == Failure(Blocked) ==> inbox == [] && stream == old(stream) + BytesOf(old(inbox))
    {
      hide ParseStream, BytesOf;
      if inbox == [] {
        NoBytes();
        return Failure(Blocked);
      }
      var event := inbox[0];
      FirstBytesOf(inbox);
      inbox := inbox[1..];
      if event.Quiet? {
        return Success([]);
      }
      if event.data == [] {
        return Failure(Raised(PeerClosed));
      }
      var packets := Absorb(event.data);
      if packets.Failure? {
        return Failure(Raised(packets.error));
      }
      return Success(packets.value);
    }

    /** Reads until at least one packet is complete, the deadline passes, or the input ends. */
    method Receive(deadline: int) returns (r: Result<seq<Packet>, Stop>)
      requires Valid()
      modifies `ticks, `inbox, `buffer, `stream, `seen, `heardAt
      ensures Valid() && ticks >= old(ticks) && |inbox| <= |old(inbox)|
      ensures heardAt == old(heardAt) + if r.Success? && r.value != [] then [ticks] else []
      ensures r.Success? && r.value != [] ==> ticks > old(ticks) + 1 && clock(ticks - 2) < deadline
      ensures r.Success? ==>
                && connected && seen == old(seen) + r.value
                && stream + BytesOf(inbox) == old(stream) + BytesOf(old(inbox))
                && (r.value != [] ==> |inbox| < |old(inbox)|)
                && (r.value == [] ==> ticks > old(ticks) && clock(ticks - 1) >= deadline)
      ensures r == Failure(Blocked) ==>
                && connected && seen == old(seen) && inbox == []
                && stream == old(stream) + BytesOf(old(inbox))
      ensures r.Failure? ==> seen == old(seen)
      ensures r.Success? ==>
                old(Ahead()) == if r.value == [] then Ahead() else Arrivals([r.value] + Ahead().batches, Ahead().ending)
      ensures r.Failure? && old(connected) ==>
                old(Ahead()).batches == [] && r.error == StopOf(old(Ahead()).ending)
      ensures !old(connected) ==> r == Failure(Raised(SocketClosed))
    {
      hide ParseStream, ArrivalsOf, BytesOf, Logged;
      if !connected {
        return Failure(Raised(SocketClosed));
      }
      var now := Now();
      while now < deadline
        invariant connected && Valid() && ticks > old(ticks) && now == clock(ticks - 1)
        invariant seen == old(seen) && |inbox| <= |old(inbox)| && Ahead() == old(Ahead()) && heardAt == old(heardAt)
        invariant stream + BytesOf(inbox) == old(stream) + BytesOf(old(inbox))
        decreases |inbox|
      {
        now := Now();
        var packets :- ReadEvent();
        if packets != [] {
          heardAt := heardAt + [ticks];
          return Success(packets);
        }
        assert seen == old(seen);
        now := Now();
      }
      return Success([]);
    }

    /** Answers the camera's time-sync request; any other packet is left alone. */
    method HandleRpcRequest(packet: RPCPacket) returns (r: Result<bool, ClientError>)
      requires Valid() && connected
      modifies `sent, `ticks, `log
      ensures Valid() && ticks >= old(ticks)
      ensures !IsTimeSync(Rpc(packet)) ==>
                r == Success(false) && sent == old(sent) && log == old(log) && ticks == old(ticks)
      ensures IsTimeSync(Rpc(packet)) ==>
                var reply := TimeSyncReply(suite, bootstrapPrefix, packet, wall(old(ticks)));
                if reply.Success? then
                  && r == Success(true) && sent == old(sent) + [reply.value]
                  && log == old(log) + [Reply(packet, old(ticks))] && ticks == old(ticks) + 1
                else
                  r == Failure(reply.error) && sent == old(sent) && log == old(log)
      ensures FaultOf(suite, bootstrapPrefix, Rpc(packet)) == if r.Failure? then Some(r.error) else None
    {
      hide DecryptRpcPayload, PackRpc, EncodeProtobufVarint, FirstVarintField, ParseStream;
      if packet.rpcType != RPC_REQUEST || packet.commandId != TIME_SYNC_COMMAND {
        return Success(false);
      }
      var request := DecryptRpcPayload(suite, packet, bootstrapPrefix);
      if request.Failure? {
        return Failure(BadRpc(request.error));
      }
      var nowMs := wall(ticks);
      ticks := ticks + 1;
      var response := BuildTimeSyncResponse(request.value, nowMs);
      if response.Failure? {
        return Failure(BadField(response.error));
      }
      var data := PackRpc(suite, packet.sequence, TIME_SYNC_COMMAND, response.value, bootstrapPrefix, RPC_RESPONSE, 0);
      var _ := Send(data.value, Reply(packet, ticks - 1));
      return Success(true);
    }

    /** What the handshake does with a packet that is not the answer: reply to a time sync, queue the rest. */
    method Defer(packet: Packet) returns (r: Result<(), ClientError>)
      requires Valid() && connected
      modifies `ticks, `pending, `sent, `log
      ensures Valid() && ticks >= old(ticks)
      ensures r.Success? ==>
                if IsTimeSync(packet) then
                  pending == old(pending) && log == old(log) + [Reply(packet.rpc, old(ticks))] && ticks > old(ticks)
                else
                  pending == old(pending) + [packet] && log == old(log)
      ensures r.Failure? ==> log == old(log)
      ensures FaultOf(suite, bootstrapPrefix, packet) == if r.Failure? then Some(r.error) else None
    {
      hide TimeSyncReply, ParseStream, Logged;
      var handled := Success(false);
      if packet.Rpc? {
        handled := HandleRpcRequest(packet.rpc);
      }
      if handled.Failure? {
        return Failure(handled.error);
      }
      if !handled.value {
        pending := pending + [packet];
      }
      return Success(());
    }

    /** One batch of the wait: remembers the last answer and defers every other packet. */
    method Sift(packets: seq<Packet>, sequence: nat, commandId: nat) returns (r: Result<Option<RPCPacket>, ClientError>)
      requires Valid() && connected
      modifies `ticks, `pending, `sent, `log
      ensures Valid() && ticks >= old(ticks) && RepliedOnly(old(log), log, old(ticks), ticks)
      ensures r.Success? ==>
                && r.value == LastAnswer(packets, sequence, commandId)
                && pending == old(pending) + Deferred(packets, Some((sequence, commandId)))
                && Answered() == old(Answered()) + SyncsOf(packets)
      ensures SyncFault(suite, bootstrapPrefix, packets) == if r.Failure? then Some(r.error) else None
    {
      hide ParseStream, FaultOf, Logged, AnsweredIn, Deferred, SyncsOf, SyncFault, LastAnswer, Valid, TimeSyncReply;
      hide RepliedOnly;
      ghost var before, lo := log, ticks;
      NothingReplied(before, lo);
      var found: Option<RPCPacket> := None;
      NothingDeferred(Some((sequence, commandId)));
      NoFaultInNothing(suite, bootstrapPrefix);
      NoneAnswers(sequence, commandId);
      assert packets[..0] == [];
      for i := 0 to |packets|
        invariant Valid() && connected && ticks >= old(ticks) && RepliedOnly(before, log, lo, ticks)
        invariant pending == old(pending) + Deferred(packets[..i], Some((sequence, commandId)))
        invariant Answered() == old(Answered()) + SyncsOf(packets[..i])
        invariant found == LastAnswer(packets[..i], sequence, commandId)
        invariant SyncFault(suite, bootstrapPrefix, packets[..i]) == None
      {
        var packet := packets[i];
        assert packets[..i + 1] == packets[..i] + [packet];
        DeferredSnoc(packets[..i], packet, Some((sequence, commandId)));
        SyncsOfSnoc(packets[..i], packet);
        SyncFaultSnoc(suite, bootstrapPrefix, packets[..i], packet);
        LastAnswerSnoc(packets[..i], packet, sequence, commandId);
        AnswersAreNoFault(suite, bootstrapPrefix, packet, sequence, commandId);
        if Answers(packet, sequence, commandId) {
          found := Some(packet.rpc);
        } else {
          if IsTimeSync(packet) {
            LineSnoc(log, Reply(packet.rpc, ticks));
          }
          ghost var said, tick := log, ticks;
          var deferred := Defer(packet);
          RepliedOnce(before, said, log, packet, lo, tick, ticks);
          if deferred.Failure? {
            FaultIsFirst(suite, bootstrapPrefix, packets, i);
            return Failure(deferred.error);
          }
        }
      }
      assert packets[..|packets|] == packets;
      return Success(found);
    }

    /** The camera answered a command with code 0. */
    ghost predicate Accepted(sequence: nat, commandId: nat, packets: seq<Packet>) {
      exists answer: RPCPacket ::
        Rpc(answer) in packets && Answers(Rpc(answer), sequence, commandId) && answer.responseCode == Some(0)
    }

    /** The three requests of connecting were accepted. */
    ghost predicate ConnectAccepted(packets: seq<Packet>) {
      Accepted(1, LAN_AUTH_COMMAND, packets) && Accepted(2, SYNC_COMMAND, packets)
      && Accepted(3, VIDEO_START_COMMAND, packets)
    }

    /** The camera agreed to send A-law audio at 8000 samples a second. */
    ghost predicate AudioAgreed(packets: seq<Packet>) {
      exists answer: RPCPacket ::
        && Rpc(answer) in packets && Answers(Rpc(answer), 4, AUDIO_START_COMMAND) && answer.responseCode == Some(0)
        && AudioOffer(suite, bootstrapPrefix, answer).Success?
    }

    lemma StillAccepted(before: seq<Packet>, after: seq<Packet>)
      requires before <= after
      ensures forall s, c | Accepted(s, c, before) :: Accepted(s, c, after)
      ensures AudioAgreed(before) ==> AudioAgreed(after)
    {
      hide AudioOffer, Answers;
      assert forall p | p in before :: p in after;
    }

    /** The prefix was granted by an authentication response among the packets. */
    ghost predicate GrantedIn(prefix: bytes, packets: seq<Packet>) {
      exists auth: RPCPacket ::
        && Rpc(auth) in packets && Answers(Rpc(auth), 1, LAN_AUTH_COMMAND)
        && GrantedPrefix(suite, bootstrapPrefix, auth) == Success(prefix)
    }

    lemma StillGranted(prefix: bytes, before: seq<Packet>, after: seq<Packet>)
      requires GrantedIn(prefix, before) && before <= after
      ensures GrantedIn(prefix, after)
    {
      assert forall p | p in before :: p in after;
    }

    /** One turn of the wait: receives a batch, sifts it, and checks the code of the answer it holds. */
    method WaitTurn(deadline: int, sequence: nat, commandId: nat) returns (r: Result<Option<RPCPacket>, Stop>)
      requires Queued()
      modifies `ticks, `inbox, `buffer, `stream, `seen, `heardAt, `pending, `sent, `log
      ensures Valid() && ticks >= old(ticks) && Answering(old(Here()), Here())
      ensures r.Success? || r == Failure(Blocked) ==> Queued() && GoesOn(suite, bootstrapPrefix, old(Here()), Here())
      ensures r == Failure(Blocked) ==> inbox == []
      ensures AwaitAnswer(suite, bootstrapPrefix, old(Ahead()), sequence, commandId)
           == if r.Failure? then Failure(r.error)
              else if r.value.Some? then Success((r.value.value, Ahead()))
              else AwaitAnswer(suite, bootstrapPrefix, Ahead(), sequence, commandId)
      ensures r.Failure? ==> !IsTimeout(r.error)
      ensures r.Success? && r.value.Some? ==>
                && Answers(Rpc(r.value.value), sequence, commandId) && Rpc(r.value.value) in seen
                && r.value.value.responseCode == Some(0)
      ensures r == Success(None) ==>
                UnansweredSince(old(Here()), Here(), sequence, commandId)
      ensures old(heardAt) <= heardAt && HeardBefore(clock, heardAt, |old(heardAt)|, deadline)
      ensures r == Success(None) ==>
                |inbox| < |old(inbox)| || (|inbox| == |old(inbox)| && ticks > 0 && clock(ticks - 1) >= deadline)
    {
      hide ParseStream, ArrivalsOf, AvOf, BytesOf, Answers, SyncsOf, Deferred, LastAnswer, SyncFault, Heard, Logged;
      hide AnsweredIn, GoesOn, Answering, AwaitAnswer;
      ghost var was := Here();
      var received := Receive(deadline);
      StaysSilent(was, Here());
      if received.Failure? {
        NoBytes();
        AwaitNothing(suite, bootstrapPrefix, was.ahead, sequence, commandId);
        if received.error == Blocked {
          NothingArrives(buffer);
          NothingGoesOn(suite, bootstrapPrefix, was, Here());
        }
        return Failure(received.error);
      }
      ghost var mid := Here();
      AwaitBatch(suite, bootstrapPrefix, was.ahead, mid.ahead, received.value, sequence, commandId);
      DeferKeepsQueue(pending, was.seen, Answered(), received.value, Some((sequence, commandId)));
      var found := Sift(received.value, sequence, commandId);
      BatchAnswered(was, mid, Here());
      if found.Failure? {
        FaultKinds(suite, bootstrapPrefix, received.value);
        return Failure(Raised(found.error));
      }
      BatchGoesOn(suite, bootstrapPrefix, was, Here(), received.value, mid.ticks);
      if found.value.Some? && found.value.value.responseCode != Some(0) {
        return Failure(Raised(BadCode(commandId, found.value.value.responseCode)));
      }
      return Success(found.value);
    }

    /** Waits for one response, answering time syncs and queueing everything else; nothing is read later than the
        deadline allows. */
    method WaitResponse(sequence: nat, commandId: nat) returns (r: Result<RPCPacket, Stop>)
      requires Queued()
      modifies `ticks, `inbox, `buffer, `stream, `seen, `heardAt, `pending, `sent, `log
      ensures Valid() && ticks > old(ticks) && Answering(old(Here()), Here())
      ensures r.Success? || r == Failure(Blocked) ==> Queued() && GoesOn(suite, bootstrapPrefix, old(Here()), Here())
      ensures r == Failure(Blocked) ==> inbox == []
      ensures r.Success? ==>
                Answers(Rpc(r.value), sequence, commandId) && Rpc(r.value) in seen && r.value.responseCode == Some(0)
      ensures (r.Failure? && IsTimeout(r.error))
              || AwaitAnswer(suite, bootstrapPrefix, old(Ahead()), sequence, commandId)
                 == if r.Success? then Success((r.value, Ahead())) else Failure(r.error)
      ensures r.Failure? && IsTimeout(r.error) ==>
                && r.error == Raised(NoAnswer(commandId)) && ReadsOn(old(Here()), Here())
                && clock(ticks - 1) >= clock(old(ticks)) + connectTimeout
                && UnansweredSince(old(Here()), Here(), sequence, commandId)
      ensures HeardBefore(clock, heardAt, |old(heardAt)|, clock(old(ticks)) + connectTimeout)
    {
      hide ParseStream, ArrivalsOf, AvOf, BytesOf, Answers, SyncsOf, AwaitAnswer, Heard, Logged, AnsweredIn;
      hide RequestsIn, BeatsIn, LastAnswer, GoesOn, Answering, UnansweredSince;
      ghost var was := Here();
      var now := Now();
      var deadline := now + connectTimeout;
      now := Now();
      StaysPut(suite, bootstrapPrefix, was, Here());
      NothingHeard(clock, heardAt, deadline);
      assert Waits(suite, bootstrapPrefix, was, Here());
      while now < deadline
        invariant Queued() && Waits(suite, bootstrapPrefix, was, Here())
        invariant ticks > was.ticks && now == clock(ticks - 1)
        invariant AwaitAnswer(suite, bootstrapPrefix, was.ahead, sequence, commandId)
               == AwaitAnswer(suite, bootstrapPrefix, Ahead(), sequence, commandId)
        invariant UnansweredSince(was, Here(), sequence, commandId)
        invariant |was.heardAt| <= |heardAt| && HeardBefore(clock, heardAt, |was.heardAt|, deadline)
        decreases |inbox|, if now < deadline then 1 else 0
      {
        ghost var mid := Here();
        var found := WaitTurn(deadline, sequence, commandId);
        HeardBeforeOn(clock, mid.heardAt, heardAt, |was.heardAt|, deadline);
        if found.Failure? {
          WaitFails(was, mid, Here(), found.error);
          return Failure(found.error);
        }
        ghost var later := Here();
        WaitsOn(suite, bootstrapPrefix, was, mid, later, later);
        if found.value.Some? {
          return Success(found.value.value);
        }
        UnansweredOn(suite, bootstrapPrefix, was, mid, later, sequence, commandId);
        now := Now();
        StaysPut(suite, bootstrapPrefix, later, Here());
        UnansweredOn(suite, bootstrapPrefix, was, later, Here(), sequence, commandId);
        WaitsOn(suite, bootstrapPrefix, was, mid, later, Here());
      }
      GoesOnReads(suite, bootstrapPrefix, was, Here());
      return Failure(Raised(NoAnswer(commandId)));
    }

    /** One batch of the initial time syncs: answers them, counts them, and queues every other packet. */
    method AnswerBatch(packets: seq<Packet>) returns (r: Result<nat, ClientError>)
      requires Valid() && connected
      modifies `ticks, `pending, `sent, `log
      ensures Valid() && ticks >= old(ticks) && RepliedOnly(old(log), log, old(ticks), ticks)
      ensures r.Success? ==>
                && r.value == |SyncsOf(packets)|
                && pending == old(pending) + Deferred(packets, None)
                && Answered() == old(Answered()) + SyncsOf(packets)
      ensures SyncFault(suite, bootstrapPrefix, packets) == if r.Failure? then Some(r.error) else None
    {
      hide ParseStream, TimeSyncReply, FaultOf, Logged, AnsweredIn, Deferred, SyncsOf, SyncFault, Valid;
      hide RepliedOnly;
      ghost var before, lo := log, ticks;
      NothingReplied(before, lo);
      var replies := 0;
      NothingDeferred(None);
      NoFaultInNothing(suite, bootstrapPrefix);
      assert packets[..0] == [];
      for i := 0 to |packets|
        invariant Valid() && connected && ticks >= old(ticks) && RepliedOnly(before, log, lo, ticks)
        invariant pending == old(pending) + Deferred(packets[..i], None)
        invariant Answered() == old(Answered()) + SyncsOf(packets[..i])
        invariant replies == |SyncsOf(packets[..i])|
        invariant SyncFault(suite, bootstrapPrefix, packets[..i]) == None
      {
        var packet := packets[i];
        assert packets[..i + 1] == packets[..i] + [packet];
        DeferredSnoc(packets[..i], packet, None);
        SyncsOfSnoc(packets[..i], packet);
        SyncFaultSnoc(suite, bootstrapPrefix, packets[..i], packet);
        OthersAreNoFault(suite, bootstrapPrefix, packet);
        if packet.Rpc? && packet.rpc.rpcType == RPC_REQUEST && packet.rpc.commandId == TIME_SYNC_COMMAND {
          LineSnoc(log, Reply(packet.rpc, ticks));
          ghost var said, tick := log, ticks;
          var handled := HandleRpcRequest(packet.rpc);
          RepliedOnce(before, said, log, packet, lo, tick, ticks);
          if handled.Failure? {
            FaultIsFirst(suite, bootstrapPrefix, packets, i);
            return Failure(handled.error);
          }
          replies := replies + 1;
        } else {
          pending := pending + [packet];
        }
      }
      assert packets[..|packets|] == packets;
      return Success(replies);
    }

    /** One turn of the initial time syncs: receives a batch and answers the requests in it. */
    method SyncTurn(deadline: int) returns (r: Result<nat, Stop>, ghost batch: seq<Packet>)
      requires Queued()
      modifies `ticks, `inbox, `buffer, `stream, `seen, `heardAt, `pending, `sent, `log
      ensures Valid() && ticks >= old(ticks) && Answering(old(Here()), Here())
      ensures r.Success? || r == Failure(Blocked) ==> Queued() && GoesOn(suite, bootstrapPrefix, old(Here()), Here())
      ensures r == Failure(Blocked) ==> inbox == []
      ensures r.Success? ==>
                && |Answered()| == |old(Answered())| + r.value && r.value == |SyncsOf(batch)|
                && |heardAt| == |old(heardAt)| + (if batch == [] then 0 else 1)
                && SyncFault(suite, bootstrapPrefix, batch) == None
                && old(Ahead()) == (if batch == [] then Ahead()
                                    else Arrivals([batch] + Ahead().batches, Ahead().ending))
                && (|inbox| < |old(inbox)| || (|inbox| == |old(inbox)| && ticks > 0 && clock(ticks - 1) >= deadline))
      ensures r.Failure? ==> AwaitSyncs(suite, bootstrapPrefix, old(Ahead()), 0, None) == Failure(r.error)
      ensures r.Failure? ==> AwaitSyncs(suite, bootstrapPrefix, old(Ahead()), 1, None) == Failure(r.error)
      ensures r.Failure? ==> !IsTimeout(r.error)
      ensures old(heardAt) <= heardAt && HeardBefore(clock, heardAt, |old(heardAt)|, deadline)
    {
      hide ParseStream, ArrivalsOf, AvOf, BytesOf, SyncsOf, Deferred, SyncFault, Heard, Logged, AnsweredIn;
      hide GoesOn, Answering, AwaitSyncs;
      ghost var was := Here();
      batch := [];
      var received := Receive(deadline);
      StaysSilent(was, Here());
      if received.Failure? {
        NoBytes();
        SyncNothing(suite, bootstrapPrefix, was.ahead);
        if received.error == Blocked {
          NothingArrives(buffer);
          NothingGoesOn(suite, bootstrapPrefix, was, Here());
        }
        return Failure(received.error), [];
      }
      batch := received.value;
      ghost var mid := Here();
      NoFaultInNothing(suite, bootstrapPrefix);
      DeferKeepsQueue(pending, was.seen, Answered(), batch, None);
      var counted := AnswerBatch(received.value);
      BatchAnswered(was, mid, Here());
      if counted.Failure? {
        FaultKinds(suite, bootstrapPrefix, batch);
        SyncFaulty(suite, bootstrapPrefix, was.ahead);
        return Failure(Raised(counted.error)), batch;
      }
      BatchGoesOn(suite, bootstrapPrefix, was, Here(), batch, mid.ticks);
      return Success(counted.value), batch;
    }

    /** One round of the initial time syncs: a turn, and the reading that follows. */
    method SyncRound(deadline: int, replies: nat, ghost was: Place, ghost n: nat)
      returns (r: Result<(nat, int), Stop>, ghost m: nat)
      requires Queued() && Waits(suite, bootstrapPrefix, was, Here()) && replies < 2 && ticks > was.ticks
      requires |Answered()| == |AnsweredIn(was.log)| + replies
      requires SyncsGoOn(suite, bootstrapPrefix, was.ahead, n, Ahead(), replies) && |heardAt| == |was.heardAt| + n
      modifies `ticks, `inbox, `buffer, `stream, `seen, `heardAt, `pending, `sent, `log
      ensures Valid() && ticks >= old(ticks)
      ensures r.Success? ==>
                && Queued() && Waits(suite, bootstrapPrefix, was, Here())
                && |Answered()| == |AnsweredIn(was.log)| + r.value.0 && r.value.1 == clock(ticks - 1)
                && SyncsGoOn(suite, bootstrapPrefix, was.ahead, m, Ahead(), r.value.0)
                && |heardAt| == |was.heardAt| + m
                && (|inbox| < |old(inbox)| || (|inbox| == |old(inbox)| && r.value.1 >= deadline))
      ensures r.Failure? ==>
                && Answering(was, Here()) && !IsTimeout(r.error)
                && AwaitSyncs(suite, bootstrapPrefix, was.ahead, 0, None) == Failure(r.error)
      ensures r == Failure(Blocked) ==> Queued() && GoesOn(suite, bootstrapPrefix, was, Here()) && inbox == []
      ensures old(heardAt) <= heardAt && HeardBefore(clock, heardAt, |old(heardAt)|, deadline)
    {
      hide ParseStream, ArrivalsOf, AvOf, BytesOf, SyncsOf, AwaitSyncs, SyncFault, Heard, SyncsGoOn, Logged;
      hide AnsweredIn, RequestsIn, BeatsIn, GoesOn, Answering;
      m := n;
      ghost var mid := Here();
      var counted, batch := SyncTurn(deadline);
      if counted.Failure? {
        WaitFails(was, mid, Here(), counted.error);
        AwaitSyncsStops(suite, bootstrapPrefix, was.ahead, n, mid.ahead, replies);
        return Failure(counted.error), n;
      }
      ghost var later := Here();
      SyncBatch(suite, bootstrapPrefix, was.ahead, n, mid.ahead, Ahead(), batch, replies);
      m := if batch == [] then n else n + 1;
      ClockGoesOn(ticks - 1);
      var now := Now();
      WaitsOn(suite, bootstrapPrefix, was, mid, later, Here());
      return Success((replies + counted.value, now)), m;
    }

    /** Answers initial time syncs until two were answered or two seconds have passed; in the second case `cut` is the
        number of batches read by then. */
    method AnswerInitialTimeSyncs() returns (r: Result<(), Stop>, ghost cut: Option<nat>)
      requires Queued()
      modifies `ticks, `inbox, `buffer, `stream, `seen, `heardAt, `pending, `sent, `log
      ensures Valid() && ticks > old(ticks) && Answering(old(Here()), Here())
      ensures r.Success? || r == Failure(Blocked) ==> Queued() && GoesOn(suite, bootstrapPrefix, old(Here()), Here())
      ensures r == Failure(Blocked) ==> inbox == []
      ensures AwaitSyncs(suite, bootstrapPrefix, old(Ahead()), 0, cut)
           == if r.Success? then Success(Ahead()) else Failure(r.error)
      ensures r.Success? ==>
                || (cut == None && |Answered()| >= |old(Answered())| + 2)
                || (cut.Some? && clock(ticks - 1) >= clock(old(ticks)) + 2000
                    && |heardAt| == |old(heardAt)| + cut.value)
      ensures r.Failure? ==> cut == None && !IsTimeout(r.error)
      ensures HeardBefore(clock, heardAt, |old(heardAt)|, clock(old(ticks)) + 2000)
    {
      hide ParseStream, ArrivalsOf, AvOf, BytesOf, SyncsOf, AwaitSyncs, SyncFault, Heard, SyncsGoOn, Logged;
      hide AnsweredIn, RequestsIn, BeatsIn, GoesOn, Answering, Valid, Monotone;
      ghost var was, n: nat := Here(), 0;
      SyncsStart(suite, bootstrapPrefix, was.ahead);
      var now := Now();
      var deadline, replies := now + 2000, 0;
      now := Now();
      StaysPut(suite, bootstrapPrefix, was, Here());
      assert Waits(suite, bootstrapPrefix, was, Here());
      while now < deadline && replies < 2
        invariant Queued() && Waits(suite, bootstrapPrefix, was, Here())
        invariant ticks > was.ticks && now == clock(ticks - 1)
        invariant |Answered()| == |AnsweredIn(was.log)| + replies
        invariant SyncsGoOn(suite, bootstrapPrefix, was.ahead, n, Ahead(), replies) && |heardAt| == |was.heardAt| + n
        invariant HeardBefore(clock, heardAt, |was.heardAt|, deadline)
        decreases |inbox|, if now < deadline then 1 else 0
      {
        var round;
        round, n := SyncRound(deadline, replies, was, n);
        if round.Failure? {
          return Failure(round.error), None;
        }
        replies, now := round.value.0, round.value.1;
      }
      AwaitSyncsDone(suite, bootstrapPrefix, was.ahead, n, Ahead(), replies);
      return Success(()), if replies >= 2 then None else Some(n);
    }

    lemma WaitFails(was: Place, mid: Place, now: Place, stop: Stop)
      requires Waits(suite, bootstrapPrefix, was, mid) && Answering(mid, now)
      requires stop == Blocked ==> GoesOn(suite, bootstrapPrefix, mid, now)
      ensures Answering(was, now) && (stop == Blocked ==> GoesOn(suite, bootstrapPrefix, was, now))
    {
      hide GoesOn, Answering;
      AnsweringTrans(was, mid, now);
      if stop == Blocked {
        GoesOnTrans(suite, bootstrapPrefix, was, mid, now);
      }
    }

    lemma AtOn(arrivals: Arrivals, was: Place, now: Place)
      requires ReadsOn(was, now) && |was.heardAt| <= |arrivals.batches|
      requires was.ahead == From(arrivals.batches, arrivals.ending, |was.heardAt|)
      ensures |now.heardAt| <= |arrivals.batches|
      ensures now.ahead == From(arrivals.batches, arrivals.ending, |now.heardAt|)
    {
      var n := |now.heardAt| - |was.heardAt|;
      assert arrivals.batches[|was.heardAt|..][n..] == arrivals.batches[|now.heardAt|..];
    }

    lemma UnansweredAt(arrivals: Arrivals, was: Place, now: Place, sequence: nat, commandId: nat)
      requires UnansweredSince(was, now, sequence, commandId) && |was.heardAt| <= |arrivals.batches|
      requires was.ahead == From(arrivals.batches, arrivals.ending, |was.heardAt|)
      ensures Unanswered(arrivals.batches, |was.heardAt|, |now.heardAt|, sequence, commandId)
    {
      hide LastAnswer;
      forall h | |was.heardAt| <= h < |now.heardAt|
        ensures LastAnswer(arrivals.batches[h], sequence, commandId).None?
      {
        assert was.ahead.batches[h - |was.heardAt|] == arrivals.batches[h];
      }
    }

    /** Sends the start-up request `n` and waits for its answer. */
    method Exchange(
        sequence: nat, commandId: nat, plaintext: bytes, ghost n: nat, ghost arrivals: Arrivals,
        ghost cut: Option<nat>) returns (r: Result<RPCPacket, Stop>)
      requires Queued() && At(arrivals) && n < 4
      requires sequence == n + 1 && commandId == CommandAt(n) && plaintext == PlaintextAt(n)
      requires Placed(arrivals, cut, RequestsIn(log)) && |RequestsIn(log)| == n
      requires AheadAt(suite, bootstrapPrefix, arrivals, cut, n) == Some(Ahead()) && Paced(ticks, heardAt, log)
      modifies `ticks, `inbox, `buffer, `stream, `seen, `heardAt, `pending, `sent, `log
      ensures Valid() && ticks > old(ticks) && Paced(ticks, heardAt, log)
      ensures Placed(arrivals, cut, RequestsIn(log)) && |RequestsIn(log)| == n + 1
      ensures RequestsIn(log)
           == RequestsIn(old(log)) + [Request(sequence, commandId, plaintext, old(ticks), |old(heardAt)|)]
      ensures Spoke(old(Here()), Here()) && |log| > |old(log)| && IsStep(log[|old(log)|], n)
      ensures r.Success? || r == Failure(Blocked) ==>
                Queued() && At(arrivals) && GoesOn(suite, bootstrapPrefix, old(Here()), Here())
      ensures r == Failure(Blocked) ==> inbox == []
      ensures r.Success? ==>
                && Rpc(r.value) in seen && Answers(Rpc(r.value), sequence, commandId)
                && r.value.responseCode == Some(0) && Accepted(sequence, commandId, seen)
      ensures (r.Failure? && IsTimeout(r.error))
              || AwaitAnswer(suite, bootstrapPrefix, old(Ahead()), sequence, commandId)
                 == if r.Success? then Success((r.value, Ahead())) else Failure(r.error)
      ensures r.Failure? && IsTimeout(r.error) ==>
                Late(arrivals, r.error) && r.error == Raised(NoAnswer(commandId))
    {
      hide From, HeardBefore;
      hide ParseStream, ArrivalsOf, AvOf, BytesOf, Answers, RequestBytes, SyncsOf, AwaitAnswer, Heard, Logged, AheadAt;
      hide AnsweredIn, BeatsIn, RequestsIn, Unanswered;
      ghost var was, line := Here(), Request(sequence, commandId, plaintext, ticks, |heardAt|);
      LineSnoc(log, line);
      var _ := SendRequest(sequence, commandId, plaintext, line);
      ghost var mid := Here();
      r := WaitResponse(sequence, commandId);
      Sent(was, mid, Here(), line, arrivals, cut, n);
      if r.Success? || r == Failure(Blocked) || IsTimeout(r.error) {
        AtOn(arrivals, was, Here());
      }
      if r.Failure? && IsTimeout(r.error) {
        UnansweredAt(arrivals, was, Here(), sequence, commandId);
      }
    }

    /** One more request at its place. */
    lemma Sent(was: Place, mid: Place, now: Place, line: Line, arrivals: Arrivals, cut: Option<nat>, n: nat)
      requires mid == was.(log := was.log + [line]) && Answering(mid, now) && was.ticks < now.ticks
      requires Paced(was.ticks, was.heardAt, was.log)
      requires IsStep(line, n) && line.tick == was.ticks && line.after == |was.heardAt| <= |arrivals.batches|
      requires Placed(arrivals, cut, RequestsIn(was.log)) && |RequestsIn(was.log)| == n < 4
      requires AheadAt(suite, bootstrapPrefix, arrivals, cut, n) == Some(was.ahead)
      requires was.ahead == From(arrivals.batches, arrivals.ending, |was.heardAt|)
      ensures RequestsIn(now.log) == RequestsIn(was.log) + [line] && BeatsIn(now.log) == BeatsIn(was.log)
      ensures Placed(arrivals, cut, RequestsIn(now.log)) && was.log + [line] <= now.log && Spoke(was, now)
      ensures Paced(now.ticks, now.heardAt, now.log)
    {
      hide AheadAt, PlaintextAt, RequestsIn, BeatsIn, CommandAt, From, Paced;
      LineSnoc(was.log, line);
      NothingAsked(mid, now);
      SpokeOn(mid, now);
      RequestPaced(was, line);
      AnsweringPaced(mid, now);
      OneMorePlaced(arrivals, cut, RequestsIn(was.log), line, n);
      assert BeatsIn(was.log) + [] == BeatsIn(was.log);
    }

    lemma OneMorePlaced(arrivals: Arrivals, cut: Option<nat>, requests: seq<Line>, line: Line, n: nat)
      requires Placed(arrivals, cut, requests) && |requests| == n < 4 && IsStep(line, n)
      requires line.after <= |arrivals.batches|
      requires AheadAt(suite, bootstrapPrefix, arrivals, cut, n)
               == Some(From(arrivals.batches, arrivals.ending, line.after))
      ensures Placed(arrivals, cut, requests + [line])
    {
      hide AheadAt, PlaintextAt, CommandAt, From, IsStep;
    }

    /** Authenticates and learns the session prefix. */
    method Authenticate(ghost arrivals: Arrivals) returns (r: Result<bytes, Stop>)
      requires Queued() && At(arrivals) && Ahead() == arrivals && RequestsIn(log) == [] && Paced(ticks, heardAt, log)
      modifies `ticks, `inbox, `buffer, `stream, `seen, `heardAt, `pending, `sent, `log
      ensures Valid() && ticks > old(ticks) && Spoke(old(Here()), Here()) && Paced(ticks, heardAt, log)
      ensures Placed(arrivals, None, RequestsIn(log)) && |RequestsIn(log)| == 1
      ensures r.Success? || r == Failure(Blocked) ==>
                Queued() && At(arrivals) && GoesOn(suite, bootstrapPrefix, old(Here()), Here())
      ensures r == Failure(Blocked) ==> inbox == []
      ensures r.Success? ==> |r.value| == 32 && GrantedIn(r.value, seen) && Accepted(1, LAN_AUTH_COMMAND, seen)
      ensures (r.Failure? && IsTimeout(r.error))
              || AuthOutcome(suite, bootstrapPrefix, arrivals)
                 == if r.Success? then Success((r.value, Ahead())) else Failure(r.error)
      ensures r.Failure? && IsTimeout(r.error) ==> Late(arrivals, r.error)
    {
      hide From, HeardBefore;
      hide ParseStream, ArrivalsOf, AvOf, BytesOf, Answers, RequestBytes, SyncsOf, AwaitAnswer, Heard, Accepted, Logged;
      hide BuildLanAuthRequest, DecryptRpcPayload, FirstBytesField, RequestsIn, Spoke, GoesOn, Late;
      var auth := Exchange(1, LAN_AUTH_COMMAND, BuildLanAuthRequest(user, lanPassword), 0, arrivals, None);
      if auth.Failure? {
        return Failure(auth.error);
      }
      var prefix := GrantedPrefix(suite, bootstrapPrefix, auth.value);
      if prefix.Failure? {
        return Failure(Raised(prefix.error));
      }
      return Success(prefix.value);
    }

    /** The first two requests are placed independently of the initial time syncs. */
    lemma PlacedBefore(arrivals: Arrivals, cut: Option<nat>, other: Option<nat>, requests: seq<Line>)
      requires Placed(arrivals, cut, requests) && |requests| <= 2
      ensures Placed(arrivals, other, requests)
    {
      forall n | 0 <= n < |requests|
        ensures AheadAt(suite, bootstrapPrefix, arrivals, cut, n)
             == AheadAt(suite, bootstrapPrefix, arrivals, other, n)
      {
      }
    }

    /** What lies ahead at the third request, and when its answer was read. */
    lemma AheadOn(
        arrivals: Arrivals, afterAuth: Arrivals, afterSync: Arrivals, synced: Arrivals, cut: Option<nat>)
      requires AheadAt(suite, bootstrapPrefix, arrivals, None, 1) == Some(afterAuth)
      requires AwaitAnswer(suite, bootstrapPrefix, afterAuth, 2, SYNC_COMMAND).Success?
      requires AwaitAnswer(suite, bootstrapPrefix, afterAuth, 2, SYNC_COMMAND).value.1 == afterSync
      requires AwaitSyncs(suite, bootstrapPrefix, afterSync, 0, cut) == Success(synced)
      ensures AheadAt(suite, bootstrapPrefix, arrivals, cut, 2) == Some(synced)
    {
      hide AwaitAnswer, AwaitSyncs, AuthOutcome;
    }

    lemma SyncedIn(before: seq<Line>, after: seq<Line>)
      requires before <= after && |before| < |after| && IsStep(after[|before|], 2) && |AnsweredIn(before)| >= 2
      ensures SyncedFirst(after)
    {
      assert after[..|before|] == before;
    }

    lemma StillSynced(before: seq<Line>, after: seq<Line>)
      requires SyncedFirst(before) && before <= after
      ensures SyncedFirst(after)
    {
      var p :| 0 <= p < |before| && IsStep(before[p], 2) && |AnsweredIn(before[..p])| >= 2;
      assert after[..p] == before[..p];
    }

    /** Where the wait for the initial time syncs began, and when it ended the wait by its two seconds. */
    lemma TwoSecondsPass(was: Place, wait: Place, later: Place, now: Place, cut: nat, line: Line)
      requires Monotone(clock) && was.ticks < wait.ticks < later.ticks
      requires Paced(was.ticks, was.heardAt, was.log) && Spoke(was, wait)
      requires Paced(wait.ticks, wait.heardAt, wait.log) && Answering(wait, later) && Spoke(later, now)
      requires |RequestsIn(wait.log)| == 2 && AnsweredIn(wait.log) == SyncsOf(wait.seen)
      requires clock(later.ticks - 1) >= clock(wait.ticks) + 2000
      requires |later.heardAt| == |wait.heardAt| + cut
      requires RequestsIn(now.log) == RequestsIn(later.log) + [line]
      requires line.Request? && line.tick == later.ticks && line.after == |later.heardAt|
      ensures TwoSeconds(clock, wait, cut, now.heardAt, now.log)
    {
      hide RequestsIn, AnsweredIn, SyncsOf, BeatsIn, Paced;
      NothingAsked(wait, later);
      SpokeTrans(wait, later, now);
      ClockGoesOn(later.ticks - 1);
      EarlierThan(was, wait);
    }

    lemma EarlierThan(was: Place, now: Place)
      requires Paced(was.ticks, was.heardAt, was.log) && Spoke(was, now) && was.ticks < now.ticks
      ensures forall i | 0 <= i < |now.log| :: now.log[i].Tick() < now.ticks
    {
      hide BeatsIn;
      forall i | 0 <= i < |now.log|
        ensures now.log[i].Tick() < now.ticks
      {
        if i < |was.log| {
          assert now.log[i] == was.log[i];
        }
      }
    }

    /** Synchronises, answers the initial time syncs and starts the video. */
    method BeginVideo(ghost arrivals: Arrivals) returns (r: Result<(), Stop>, ghost cut: Option<nat>, ghost wait: Place)
      requires Queued() && At(arrivals) && AheadAt(suite, bootstrapPrefix, arrivals, None, 1) == Some(Ahead())
      requires Placed(arrivals, None, RequestsIn(log)) && |RequestsIn(log)| == 1 && Paced(ticks, heardAt, log)
      modifies `ticks, `inbox, `buffer, `stream, `seen, `heardAt, `pending, `sent, `log
      ensures Valid() && ticks > old(ticks) && Spoke(old(Here()), Here()) && Paced(ticks, heardAt, log)
      ensures Placed(arrivals, cut, RequestsIn(log)) && 2 <= |RequestsIn(log)| <= 3
      ensures r.Success? || r == Failure(Blocked) ==>
                Queued() && At(arrivals) && GoesOn(suite, bootstrapPrefix, old(Here()), Here())
      ensures r == Failure(Blocked) ==> inbox == []
      ensures r.Success? ==>
                && Accepted(2, SYNC_COMMAND, seen) && Accepted(3, VIDEO_START_COMMAND, seen)
                && |RequestsIn(log)| == 3 && (cut == None ==> SyncedFirst(log))
      ensures (r.Failure? && IsTimeout(r.error))
              || VideoOutcome(suite, bootstrapPrefix, old(Ahead()), cut)
                 == if r.Success? then Success(Ahead()) else Failure(r.error)
      ensures r.Failure? && IsTimeout(r.error) ==> Late(arrivals, r.error)
      ensures cut.Some? ==> TwoSeconds(clock, wait, cut.value, heardAt, log)
    {
      hide From, HeardBefore;
      hide ParseStream, ArrivalsOf, AvOf, BytesOf, RequestBytes, Accepted, SyncsOf, AwaitAnswer, AwaitSyncs, Heard;
      hide Answers, Logged, RequestsIn, Spoke, GoesOn, Late, AheadAt, Placed, IsStep, AnsweredIn, SyncedFirst;
      hide Answering;
      hide Paced, TwoSeconds;
      assert Monotone(clock);
      ghost var was := Here();
      cut, wait := None, was;
      var sync := Exchange(2, SYNC_COMMAND, EncodeProtobufVarint(1, 1).value, 1, arrivals, None);
      if sync.Failure? {
        return Failure(sync.error), cut, wait;
      }
      ghost var before, afterSync := seen, Here();
      wait := afterSync;
      var synced;
      synced, cut := AnswerInitialTimeSyncs();
      ghost var later := Here();
      NothingAsked(afterSync, later);
      AnsweringPaced(afterSync, later);
      SpokeTrans(was, afterSync, later);
      PlacedBefore(arrivals, None, cut, RequestsIn(log));
      if synced.Success? || synced == Failure(Blocked) {
        GoesOnTrans(suite, bootstrapPrefix, was, afterSync, later);
        GoesOnReads(suite, bootstrapPrefix, afterSync, later);
        AtOn(arrivals, afterSync, later);
      }
      if synced.Failure? {
        return Failure(synced.error), cut, wait;
      }
      AheadOn(arrivals, was.ahead, afterSync.ahead, later.ahead, cut);
      var video := Exchange(3, VIDEO_START_COMMAND, EncodeProtobufVarint(2, VIDEO_MAX_QOS).value, 2, arrivals, cut);
      SpokeTrans(was, later, Here());
      if cut.Some? {
        TwoSecondsPass(was, wait, later, Here(), cut.value,
                       Request(3, VIDEO_START_COMMAND, PlaintextAt(2), later.ticks, |later.heardAt|));
      }
      if video.Success? || video == Failure(Blocked) {
        GoesOnTrans(suite, bootstrapPrefix, was, later, Here());
      }
      if video.Failure? {
        return Failure(video.error), cut, wait;
      }
      if cut == None {
        SpokeOn(later, Here());
        SyncedIn(later.log, log);
      }
      GoesOnSees(suite, bootstrapPrefix, afterSync, later);
      GoesOnSees(suite, bootstrapPrefix, later, Here());
      StillAccepted(before, seen);
      return Success(()), cut, wait;
    }

    /** The media of this connection are under the granted prefix. */
    method Adopt(prefix: bytes)
      requires Queued() && |prefix| == 32
      modifies `sessionPrefix
      ensures Queued() && sessionPrefix == Some(prefix)
    {
      hide ParseStream, AvOf, SyncsOf, AnsweredIn, Logged;
      sessionPrefix := Some(prefix);
    }

    /** The steps of connecting after the socket is open: exactly what the arrivals say, unless an answer is late. */
    method Handshake(ghost arrivals: Arrivals) returns (r: Result<(), Stop>, ghost cut: Option<nat>, ghost wait: Place)
      requires Queued() && At(arrivals) && Ahead() == arrivals && RequestsIn(log) == [] && Paced(ticks, heardAt, log)
      modifies `ticks, `inbox, `buffer, `stream, `seen, `heardAt, `pending, `sent, `log, `sessionPrefix
      ensures Valid() && ticks > old(ticks) && Spoke(old(Here()), Here()) && Paced(ticks, heardAt, log)
      ensures Placed(arrivals, cut, RequestsIn(log)) && 1 <= |RequestsIn(log)| <= 3
      ensures r.Success? || r == Failure(Blocked) ==>
                Queued() && At(arrivals) && GoesOn(suite, bootstrapPrefix, old(Here()), Here())
      ensures r == Failure(Blocked) ==> inbox == []
      ensures r.Success? ==>
                && sessionPrefix.Some? && GrantedIn(sessionPrefix.value, seen) && ConnectAccepted(seen)
                && |RequestsIn(log)| == 3 && (cut == None ==> SyncedFirst(log))
      ensures (r.Failure? && IsTimeout(r.error))
              || ConnectOutcome(suite, bootstrapPrefix, arrivals, cut)
                 == if r.Success? then Success((sessionPrefix.value, Ahead())) else Failure(r.error)
      ensures r.Failure? && IsTimeout(r.error) ==> Late(arrivals, r.error)
      ensures cut.Some? ==> TwoSeconds(clock, wait, cut.value, heardAt, log)
    {
      hide From, ParseStream, ArrivalsOf, AvOf, BytesOf, RequestBytes, GrantedIn, Accepted, SyncsOf, Heard, Logged;
      hide BuildLanAuthRequest, AuthOutcome, VideoOutcome, RequestsIn, Spoke, GoesOn, Late, Placed, SyncedFirst;
      hide AwaitAnswer, AwaitSyncs, BeatsIn, AnsweredIn, Paced, TwoSeconds, ConnectOutcome, AheadAt;
      hide Queued, Valid;
      ghost var was := Here();
      cut, wait := None, was;
      var prefix := Authenticate(arrivals);
      if prefix.Failure? {
        if !IsTimeout(prefix.error) {
          AuthStops(suite, bootstrapPrefix, arrivals, cut);
        }
        return Failure(prefix.error), cut, wait;
      }
      Adopt(prefix.value);
      ghost var mid := Here();
      AuthConnects(suite, bootstrapPrefix, arrivals, prefix.value, mid.ahead);
      r, cut, wait := BeginVideo(arrivals);
      SpokeTrans(was, mid, Here());
      if r.Success? || r == Failure(Blocked) {
        GoesOnSees(suite, bootstrapPrefix, mid, Here());
        GoesOnTrans(suite, bootstrapPrefix, was, mid, Here());
      }
      if r.Success? {
        StillThere(prefix.value, mid.seen, seen);
      }
    }

    lemma StillThere(prefix: bytes, before: seq<Packet>, after: seq<Packet>)
      requires GrantedIn(prefix, before) && Accepted(1, LAN_AUTH_COMMAND, before) && before <= after
      ensures GrantedIn(prefix, after) && Accepted(1, LAN_AUTH_COMMAND, after)
    {
      StillGranted(prefix, before, after);
      StillAccepted(before, after);
    }

    /** Closes what was open and starts afresh on the inbox. */
    method Open()
      requires Valid()
      modifies `connected, `sessionPrefix, `buffer, `pending, `nextSequence, `stream, `seen, `heardAt, `earlier, `log
      ensures Queued() && stream == [] && seen == [] && heardAt == [] && buffer == [] && pending == [] && log == []
      ensures nextSequence == 5 && sessionPrefix == None && earlier == sent
    {
      Close();
      connected, buffer, pending, nextSequence := true, [], [], 5;
      stream, seen, heardAt, earlier, log := [], [], [], sent, [];
    }

    lemma NothingSentYet(tick: nat)
      ensures Paced(tick, [], [])
    {
    }

    /** Opens a connection whose input is the inbox, authenticates and starts the video. */
    method Connect() returns (r: Result<(), Stop>, ghost cut: Option<nat>, ghost wait: Place)
      requires Valid()
      modifies this
      ensures Valid() && ticks > old(ticks) && earlier == old(sent)
      ensures Within(log, 0, old(ticks), ticks) && BeatsIn(log) == [] && Paced(ticks, heardAt, log)
      ensures Placed(ArrivalsOf([], old(inbox)), cut, RequestsIn(log)) && 1 <= |RequestsIn(log)| <= 3
      ensures r.Success? || r == Failure(Blocked) ==>
                && Queued() && At(ArrivalsOf([], old(inbox))) && stream + BytesOf(inbox) == BytesOf(old(inbox))
                && (forall i | 0 <= i < |heardAt| :: old(ticks) < heardAt[i] <= ticks)
                && seen + Heard(suite, bootstrapPrefix, Ahead())
                   == Heard(suite, bootstrapPrefix, ArrivalsOf([], old(inbox)))
      ensures r == Failure(Blocked) ==> inbox == []
      ensures r.Success? ==>
                && sessionPrefix.Some? && GrantedIn(sessionPrefix.value, seen) && ConnectAccepted(seen)
                && |RequestsIn(log)| == 3 && (cut == None ==> SyncedFirst(log))
      ensures nextSequence == 5
      ensures r.Failure? && r != Failure(Blocked) ==> !connected && pending == [] && sessionPrefix == None
      ensures (r.Failure? && IsTimeout(r.error))
              || ConnectOutcome(suite, bootstrapPrefix, ArrivalsOf([], old(inbox)), cut)
                 == if r.Success? then Success((sessionPrefix.value, Ahead())) else Failure(r.error)
      ensures r.Failure? && IsTimeout(r.error) ==> Late(ArrivalsOf([], old(inbox)), r.error)
      ensures cut.Some? ==> TwoSeconds(clock, wait, cut.value, heardAt, log)
    {
      hide From, HeardBefore;
      hide ParseStream, ArrivalsOf, AvOf, SyncsOf, BytesOf, ConnectAccepted, GrantedIn, Heard, Logged, SyncedFirst;
      hide ConnectOutcome, Placed, Late, RequestsIn, BeatsIn, Paced, TwoSeconds;
      Open();
      NoLines();
      assert [] + BytesOf(inbox) == BytesOf(inbox);
      assert [] + Heard(suite, bootstrapPrefix, Ahead()) == Heard(suite, bootstrapPrefix, Ahead());
      ghost var arrivals := Ahead();
      NothingTaken(arrivals);
      NothingSentYet(ticks);
      r, cut, wait := Handshake(arrivals);
      if r.Failure? && r.error.Raised? {
        Close();
      }
    }

    /** The format check of an audio answer, field by field. */
    method CheckAudio(response: RPCPacket) returns (r: Result<(), ClientError>)
      ensures r == AudioOffer(suite, bootstrapPrefix, response)
      ensures r.Failure? ==> !IsTimeout(Raised(r.error))
    {
      hide DecryptRpcPayload, FirstVarintField;
      var payload := DecryptRpcPayload(suite, response, bootstrapPrefix);
      if payload.Failure? {
        return Failure(BadRpc(payload.error));
      }
      var format := ReadFirstVarint(payload.value, 5);
      if format.Failure? {
        return Failure(BadField(format.error));
      }
      var rate := ReadFirstVarint(payload.value, 6);
      if rate.Failure? {
        return Failure(BadField(rate.error));
      }
      if format.value != G711_ALAW_FORMAT || rate.value != G711_ALAW_SAMPLE_RATE {
        return Failure(BadAudioFormat);
      }
      return Success(());
    }

    /** Requests the microphone stream and checks its format. */
    method StartAudio(ghost arrivals: Arrivals, ghost cut: Option<nat>) returns (r: Result<(), Stop>)
      requires Valid()
      requires connected ==>
                 && Queued() && At(arrivals) && AheadAt(suite, bootstrapPrefix, arrivals, cut, 3) == Some(Ahead())
                 && Placed(arrivals, cut, RequestsIn(log)) && |RequestsIn(log)| == 3 && Paced(ticks, heardAt, log)
      modifies `ticks, `inbox, `buffer, `stream, `seen, `heardAt, `pending, `sent, `log
      ensures Valid() && ticks >= old(ticks)
      ensures !old(connected) ==> r == Failure(Raised(NotConnected)) && log == old(log)
      ensures old(connected) ==>
                && Spoke(old(Here()), Here()) && Placed(arrivals, cut, RequestsIn(log)) && |RequestsIn(log)| == 4
                && Paced(ticks, heardAt, log) && RequestsIn(old(log)) <= RequestsIn(log) && ticks > old(ticks)
                && (r.Success? || r == Failure(Blocked) ==>
                      Queued() && At(arrivals) && GoesOn(suite, bootstrapPrefix, old(Here()), Here()))
      ensures r == Failure(Blocked) ==> inbox == []
      ensures r.Success? ==> AudioAgreed(seen)
      ensures old(connected) ==>
                || (r.Failure? && IsTimeout(r.error))
                || AudioOutcome(suite, bootstrapPrefix, old(Ahead()))
                   == if r.Success? then Success(Ahead()) else Failure(r.error)
      ensures r.Failure? && IsTimeout(r.error) ==>
                Late(arrivals, r.error) && r.error == Raised(NoAnswer(AUDIO_START_COMMAND))
    {
      hide From, ParseStream, ArrivalsOf, AvOf, BytesOf, Answers, RequestBytes, SyncsOf, AudioOffer, AwaitAnswer, Heard;
      hide HeardBefore;
      hide Logged, RequestsIn, Spoke, GoesOn, Late, Placed, AheadAt, Paced;
      if !connected {
        return Failure(Raised(NotConnected));
      }
      var response := Exchange(4, AUDIO_START_COMMAND, [], 3, arrivals, cut);
      if response.Failure? {
        return Failure(response.error);
      }
      var checked := CheckAudio(response.value);
      if checked.Failure? {
        return Failure(Raised(checked.error));
      }
      return Success(());
    }

    // ----- the media loop -----

    /** The loop runs on this client's clock, keys and timeout. */
    ghost predicate Hosts(loop: Loop) {
      && loop.clock == clock && loop.timeout == frameTimeout
      && loop.suite == suite && loop.bootstrap == bootstrapPrefix
    }

    /** One AV packet of the frame loop: the greatest sequence, the audio callback, the reassembler. A frame moves the
        frame deadline by the reading that follows it. */
    method ProcessAv(
        av: AVPacket, reassembler: MJPEGReassembler, withAudio: bool, state: LoopState, ghost loop: Loop)
      returns (next: LoopState)
      requires reassembler.Valid() && Hosts(loop) && loop.context == reassembler.context
      requires LoopOk(loop, withAudio, reassembler.history, state)
      modifies `ticks, reassembler
      ensures reassembler.Valid() && ticks >= old(ticks)
      ensures reassembler.history == old(reassembler.history) + [av]
      ensures LoopOk(loop, withAudio, reassembler.history, next)
      ensures next.trace.passed == state.trace.passed
      ensures next.trace.last == state.trace.last.(shown := state.trace.last.shown + ReadingsFrom(old(ticks), ticks))
    {
      hide FramesOf, AudioOf, MaxSequence, OutputFor, ExtractAlaw, MJPEGReassembler.Valid, Shown;
      ghost var before := reassembler.history;
      Appended(reassembler.context, before, av);
      next := state;
      if next.latest.None? || av.sequence > next.latest.value {
        next := next.(latest := Some(av.sequence));
      }
      if withAudio {
        var chunk := ExtractAlaw(av);
        if chunk.Some? {
          next := next.(trace := next.trace.(audio := next.trace.audio + [chunk.value]));
        }
      }
      var frame := reassembler.Push(av);
      var last := state.trace.last;
      if frame.Some? {
        last := last.(shown := last.shown + [ticks]);
        var now := Now();
        next := next.(frameDeadline := now + frameTimeout,
                      trace := next.trace.(frames := next.trace.frames + [frame.value], last := last));
      } else {
        assert last.shown + [] == last.shown;
      }
    }

    /** One packet of the frame loop: answers RPC requests, feeds AV packets on. Whether an RPC response resolves
        a pending command makes no difference to the media. */
    method ProcessPacket(
        packet: Packet, reassembler: MJPEGReassembler, withAudio: bool, state: LoopState, ghost loop: Loop)
      returns (r: Result<LoopState, ClientError>)
      requires Valid() && connected && reassembler.Valid() && Hosts(loop) && loop.context == reassembler.context
      requires LoopOk(loop, withAudio, reassembler.history, state)
      modifies `ticks, `sent, `log, reassembler
      ensures Valid() && reassembler.Valid() && ticks >= old(ticks)
      ensures r.Success? ==>
                && reassembler.history == old(reassembler.history) + AvOf([packet])
                && LoopOk(loop, withAudio, reassembler.history, r.value) && r.value.trace.passed == state.trace.passed
                && Adds(state.trace.last, r.value.trace.last, packet, old(ticks), ticks)
                && log == old(log) + r.value.trace.last.replies[|state.trace.last.replies|..]
      ensures r.Failure? ==>
                && reassembler.history == old(reassembler.history) && log == old(log)
                && packet.Rpc? && (r.error.BadRpc? || r.error.BadField?)
      ensures FaultOf(suite, bootstrapPrefix, packet) == if r.Failure? then Some(r.error) else None
    {
      hide ParseStream, DecryptRpcPayload, BuildTimeSyncResponse, PackRpc, Logged, LoopOk, MJPEGReassembler.Valid;
      AvOfSnoc([], packet);
      NoAv();
      assert [] + [packet] == [packet];
      var next, last := state, state.trace.last;
      match packet {
        case Rpc(rpc) =>
          ghost var tick := ticks;
          var handled := HandleRpcRequest(rpc);
          if handled.Failure? {
            return Failure(handled.error);
          }
          if handled.value {
            last := last.(replies := last.replies + [Reply(rpc, ticks - 1)]);
          } else {
            assert last.shown + ReadingsFrom(tick, ticks) == last.shown;
          }
        case Av(av) =>
          next := ProcessAv(av, reassembler, withAudio, state, loop);
          last := next.trace.last;
        case Raw(_) =>
          assert last.shown + ReadingsFrom(ticks, ticks) == last.shown;
      }
      last := last.(done := last.done + [packet]);
      DoingKeeps(loop, withAudio, reassembler.history, next, last);
      return Success(next.(trace := next.trace.(last := last)));
    }

    /** What was done and replied does not touch media and deadlines. */
    lemma DoingKeeps(loop: Loop, withAudio: bool, processed: seq<AVPacket>, state: LoopState, last: Turn)
      requires LoopOk(loop, withAudio, processed, state)
      requires last == state.trace.last.(done := last.done, replies := last.replies)
      ensures LoopOk(loop, withAudio, processed, state.(trace := state.trace.(last := last)))
    {
      hide FramesOf, AudioOf, MaxSequence, Shown, Active, LastShown, NextBeat;
    }

    /** A turn after processing some packets between two readings. */
    ghost predicate Batched(was: Turn, t: Turn, lo: nat, hi: nat) {
      && t == was.(done := t.done, replies := t.replies, shown := t.shown)
      && AnsweredIn(t.replies) == SyncsOf(t.done) && OnlyReplies(t.replies)
      && Within(t.replies, 0, lo, hi) && Rising(t.shown, lo, hi)
    }

    /** What one packet adds to a turn. */
    ghost predicate Adds(was: Turn, t: Turn, packet: Packet, before: nat, after: nat) {
      && before <= after && t == was.(done := was.done + [packet], replies := t.replies, shown := t.shown)
      && if IsTimeSync(packet) then
           after == before + 1 && t.shown == was.shown && t.replies == was.replies + [Reply(packet.rpc, before)]
         else
           t.shown == was.shown + ReadingsFrom(before, after) && t.replies == was.replies
    }

    lemma BatchedOn(first: Turn, was: Turn, t: Turn, packet: Packet, lo: nat, before: nat, after: nat)
      requires Batched(first, was, lo, before) && Adds(was, t, packet, before, after) && lo <= before
      ensures Batched(first, t, lo, after)
    {
      hide AnsweredIn, SyncsOf;
      SyncsOfSnoc(was.done, packet);
      if IsTimeSync(packet) {
        LineSnoc(was.replies, Reply(packet.rpc, before));
      }
      RisingOn(was.shown, lo, before, after);
    }

    lemma NothingBatched(t: Turn, tick: nat)
      requires t.done == [] && t.replies == [] && t.shown == []
      ensures Batched(t, t, tick, tick)
    {
      NoLines();
      NoSyncs();
    }

    lemma BatchedLater(was: Turn, t: Turn, lo: nat, before: nat, after: nat)
      requires Batched(was, t, lo, before) && before <= after
      ensures Batched(was, t, lo, after)
    {
    }

    /** How far a batch has been processed: what was done of it gave these media and these replies. */
    ghost predicate Midway(
        loop: Loop, withAudio: bool, first: LoopState, now: LoopState, lo: nat, hi: nat, said: seq<Line>,
        log: seq<Line>, before: seq<AVPacket>, history: seq<AVPacket>)
    {
      && lo <= hi && LoopOk(loop, withAudio, history, now) && now.trace.passed == first.trace.passed
      && Batched(first.trace.last, now.trace.last, lo, hi) && log == said + now.trace.last.replies
      && history == before + AvOf(now.trace.last.done)
      && SyncFault(suite, bootstrapPrefix, now.trace.last.done) == None
    }

    lemma MidwayOn(
        loop: Loop, withAudio: bool, first: LoopState, was: LoopState, now: LoopState, packet: Packet, lo: nat,
        mid: nat, hi: nat, said: seq<Line>, log: seq<Line>, later: seq<Line>, before: seq<AVPacket>,
        history: seq<AVPacket>, after: seq<AVPacket>)
      requires Midway(loop, withAudio, first, was, lo, mid, said, log, before, history)
      requires LoopOk(loop, withAudio, after, now) && now.trace.passed == was.trace.passed
      requires Adds(was.trace.last, now.trace.last, packet, mid, hi) && after == history + AvOf([packet])
      requires later == log + now.trace.last.replies[|was.trace.last.replies|..]
      requires FaultOf(suite, bootstrapPrefix, packet) == None
      ensures Midway(loop, withAudio, first, now, lo, hi, said, later, before, after)
      ensures now.trace.last.done == was.trace.last.done + [packet]
    {
      hide LoopOk, Batched, SyncFault, AvOf, FaultOf;
      SyncFaultSnoc(suite, bootstrapPrefix, was.trace.last.done, packet);
      AvOfAppend(was.trace.last.done, [packet]);
      BatchedOn(first.trace.last, was.trace.last, now.trace.last, packet, lo, mid, hi);
    }

    /** One batch of packets, in order. */
    method ProcessBatch(
        packets: seq<Packet>, reassembler: MJPEGReassembler, withAudio: bool, state: LoopState, ghost loop: Loop)
      returns (next: LoopState, error: Option<ClientError>)
      requires Valid() && connected && reassembler.Valid() && Hosts(loop) && loop.context == reassembler.context
      requires LoopOk(loop, withAudio, reassembler.history, state)
      requires state.trace.last.done == [] && state.trace.last.replies == [] && state.trace.last.shown == []
      modifies `ticks, `sent, `log, reassembler
      ensures Valid() && reassembler.Valid() && ticks >= old(ticks)
      ensures LoopOk(loop, withAudio, reassembler.history, next) && next.trace.passed == state.trace.passed
      ensures Batched(state.trace.last, next.trace.last, old(ticks), ticks)
      ensures next.trace.last.done == BeforeFault(suite, bootstrapPrefix, packets)
      ensures error == None ==> next.trace.last.done == packets
      ensures reassembler.history == old(reassembler.history) + AvOf(next.trace.last.done)
      ensures log == old(log) + next.trace.last.replies
      ensures SyncFault(suite, bootstrapPrefix, packets) == error
      ensures error.Some? ==> error.value.BadRpc? || error.value.BadField?
      ensures packets == [] ==> next == state && ticks == old(ticks)
    {
      hide ParseStream, LoopOk, AvOf, SyncsOf, FaultOf, SyncFault, BeforeFault, MJPEGReassembler.Valid, Logged;
      hide AnsweredIn, Batched, Midway, Adds;
      ghost var base, said, before := ticks, log, reassembler.history;
      next, error := state, None;
      StartsMidway(loop, withAudio, state, ticks, log, reassembler.history);
      assert packets[..0] == [];
      for i := 0 to |packets|
        invariant Valid() && connected && reassembler.Valid()
        invariant Midway(loop, withAudio, state, next, base, ticks, said, log, before, reassembler.history)
        invariant next.trace.last.done == packets[..i]
        invariant i == 0 ==> next == state && ticks == base
      {
        ghost var tick, was, lines, history := ticks, next, log, reassembler.history;
        EndsMidway(loop, withAudio, state, next, base, ticks, said, log, before, reassembler.history);
        var processed := ProcessPacket(packets[i], reassembler, withAudio, next, loop);
        if processed.Failure? {
          FaultIsFirst(suite, bootstrapPrefix, packets, i);
          BatchedLater(state.trace.last, was.trace.last, base, tick, ticks);
          return next, Some(processed.error);
        }
        next := processed.value;
        MidwayOn(loop, withAudio, state, was, next, packets[i], base, tick, ticks, said, lines, log, before, history,
                 reassembler.history);
        assert packets[..i + 1] == packets[..i] + [packets[i]];
      }
      EndsMidway(loop, withAudio, state, next, base, ticks, said, log, before, reassembler.history);
      assert packets[..|packets|] == packets;
      NoFaultAllBefore(suite, bootstrapPrefix, packets);
    }

    lemma StartsMidway(
        loop: Loop, withAudio: bool, first: LoopState, tick: nat, log: seq<Line>, history: seq<AVPacket>)
      requires LoopOk(loop, withAudio, history, first)
      requires first.trace.last.done == [] && first.trace.last.replies == [] && first.trace.last.shown == []
      ensures Midway(loop, withAudio, first, first, tick, tick, log, log, history, history)
    {
      hide LoopOk, Batched;
      NothingBatched(first.trace.last, tick);
      NoAv();
      NoFaultInNothing(suite, bootstrapPrefix);
      assert log + [] == log && history + [] == history;
    }

    lemma EndsMidway(
        loop: Loop, withAudio: bool, first: LoopState, now: LoopState, lo: nat, hi: nat, said: seq<Line>,
        log: seq<Line>, before: seq<AVPacket>, history: seq<AVPacket>)
      requires Midway(loop, withAudio, first, now, lo, hi, said, log, before, history)
      ensures lo <= hi && LoopOk(loop, withAudio, history, now) && now.trace.passed == first.trace.passed
      ensures Batched(first.trace.last, now.trace.last, lo, hi) && log == said + now.trace.last.replies
      ensures history == before + AvOf(now.trace.last.done)
      ensures SyncFault(suite, bootstrapPrefix, now.trace.last.done) == None
    {
    }

    /** Sends a heartbeat that acknowledges the greatest AV sequence so far. */
    method SendBeat(tick: nat, ack: Option<nat>) returns (beat: Heartbeat)
      requires Valid() && connected
      modifies `ticks, `sent, `log, `nextSequence
      ensures Valid() && ticks == old(ticks) + 1 && nextSequence == old(nextSequence) + 1
      ensures beat == Heartbeat(tick, old(nextSequence), old(ticks), ack) && log == old(log) + [Beat(beat)]
    {
      hide ParseStream, Logged;
      var sequence := AllocateSequence();
      beat := Heartbeat(tick, sequence, ticks, ack);
      var payload := BuildTimeRequest(wall(ticks), ack);
      ticks := ticks + 1;
      var _ := SendRequest(sequence, TIME_SYNC_COMMAND, payload.value, Beat(beat));
    }

    /** What the media loop has done so far is what its turns say: the frames, audio and deadlines, the lines sent, the
        queue, the packets read and what lies ahead after the batch in hand. */
    ghost predicate Streaming(loop: Loop, withAudio: bool, state: LoopState, inHand: seq<Packet>, tick: nat)
      reads `connected, `stream, `seen, `buffer, `sessionPrefix, `sent, `earlier, `log, `pending, `inbox, `nextSequence,
            `heardAt
    {
      && Valid() && connected && Hosts(loop)
      && sessionPrefix.Some? && loop.context == StreamContext(suite, sessionPrefix.value)
      && LoopOk(loop, withAudio, AvOf(Taken(state.trace.All())), state)
      && Turns(loop, state.trace.passed)
      && log == loop.said + Lines(state.trace.All())
      && nextSequence == loop.firstSequence + |Beats(state.trace.All())|
      && Keeps(loop, state.trace.passed, inHand, tick, pending, seen, Ahead(), heardAt)
    }

    /** Between two turns. */
    ghost predicate Rests(loop: Loop, withAudio: bool, state: LoopState)
      reads `connected, `stream, `seen, `buffer, `sessionPrefix, `sent, `earlier, `log, `pending, `inbox, `nextSequence,
            `heardAt, `ticks
    {
      && Streaming(loop, withAudio, state, [], ticks) && state.trace.last == NO_TURN
      && ticks == Settled(loop, state.trace.passed) + 1
    }

    /** In a turn that has read the clock, sent its heartbeat, and taken these packets or not yet any. */
    ghost predicate Wakes(loop: Loop, withAudio: bool, state: LoopState, inHand: seq<Packet>)
      reads `connected, `stream, `seen, `buffer, `sessionPrefix, `sent, `earlier, `log, `pending, `inbox, `nextSequence,
            `heardAt, `ticks
    {
      var last := state.trace.last;
      && Streaming(loop, withAudio, state, inHand, ticks) && Woken(loop, state.trace.passed, last) && ticks > last.woke
      && last == NO_TURN.(woke := last.woke, beat := last.beat)
    }

    /** In a turn that has processed its packets and comes to its check. */
    ghost predicate Checks(loop: Loop, withAudio: bool, state: LoopState)
      reads `connected, `stream, `seen, `buffer, `sessionPrefix, `sent, `earlier, `log, `pending, `inbox, `nextSequence,
            `heardAt, `ticks
    {
      && Streaming(loop, withAudio, state, state.trace.last.batch, state.trace.last.heard)
      && Runs(loop, state.trace.passed, state.trace.last) && state.trace.last.check == ticks
    }

    /** What every end of the media loop guarantees. */
    ghost predicate Ended(loop: Loop, withAudio: bool, trace: Trace, stop: Stop)
      reads `connected, `stream, `seen, `buffer, `sessionPrefix, `sent, `earlier, `log, `inbox, `heardAt, `ticks
    {
      && Valid() && Hosts(loop) && sessionPrefix.Some? && loop.context == StreamContext(suite, sessionPrefix.value)
      && TraceOf(loop.context, withAudio, AvOf(Taken(trace.All())), trace)
      && Turns(loop, trace.passed) && Ends(loop, trace.passed, trace.last, stop)
      && log == loop.said + Lines(trace.All()) && heardAt == loop.heardAt + ReadAt(loop, trace.All())
      && trace.last.check <= ticks
      && (stop == Blocked ==> connected && inbox == [] && seen == loop.seen + Fresh(loop, trace.passed))
    }

    /** With nothing in hand the time does not matter. */
    lemma KeepsAnyTime(
        loop: Loop, turns: seq<Turn>, tick: nat, other: nat, queue: seq<Packet>, seen: seq<Packet>, ahead: Arrivals,
        heardAt: seq<nat>)
      requires Keeps(loop, turns, [], tick, queue, seen, ahead, heardAt)
      ensures Keeps(loop, turns, [], other, queue, seen, ahead, heardAt)
    {
    }

    lemma KeepsNothing(
        loop: Loop, turns: seq<Turn>, tick: nat, queue: seq<Packet>, seen: seq<Packet>, ahead: Arrivals,
        heardAt: seq<nat>)
      requires Keeps(loop, turns, [], tick, queue, seen, ahead, heardAt)
      ensures (queue, ahead) == Left(loop, turns)
      ensures seen == loop.seen + Fresh(loop, turns) && heardAt == loop.heardAt + ReadAt(loop, turns)
    {
      assert seen == loop.seen + Fresh(loop, turns) + [];
      assert heardAt == loop.heardAt + ReadAt(loop, turns) + [];
    }

    /** Taking a batch. */
    lemma KeepsTaking(
        loop: Loop, turns: seq<Turn>, before: nat, left: (seq<Packet>, Arrivals), seen: seq<Packet>,
        heardAt: seq<nat>, batch: seq<Packet>, tick: nat)
      requires Keeps(loop, turns, [], before, left.0, seen, left.1, heardAt)
      ensures Keeps(loop, turns, batch, tick, AfterTaking(left, batch).0, seen + FreshIn(left, batch),
                    AfterTaking(left, batch).1, heardAt + ReadIn(left, batch, tick))
    {
      KeepsNothing(loop, turns, before, left.0, seen, left.1, heardAt);
    }

    /** A turn that is over has nothing in hand. */
    lemma KeepsAll(
        loop: Loop, trace: Trace, queue: seq<Packet>, seen: seq<Packet>, ahead: Arrivals, heardAt: seq<nat>, tick: nat)
      requires Keeps(loop, trace.passed, trace.last.batch, trace.last.heard, queue, seen, ahead, heardAt)
      ensures Keeps(loop, trace.All(), [], tick, queue, seen, ahead, heardAt)
      ensures heardAt == loop.heardAt + ReadAt(loop, trace.All())
    {
      hide Left, Fresh, ReadAt, Taken, Lines, Beats, Shown, Active, LastShown, NextBeat, Settled;
      TurnSnoc(loop, trace.passed, trace.last);
      assert seen + [] == seen && heardAt + [] == heardAt;
    }

    lemma RestingFacts(loop: Loop, withAudio: bool, state: LoopState)
      requires LoopOk(loop, withAudio, AvOf(Taken(state.trace.All())), state) && state.trace.last == NO_TURN
      ensures Taken(state.trace.All()) == Taken(state.trace.passed)
      ensures Lines(state.trace.All()) == Lines(state.trace.passed)
      ensures Beats(state.trace.All()) == Beats(state.trace.passed)
      ensures state.latest == MaxSequence(AvOf(Taken(state.trace.passed)))
      ensures state.nextHeartbeat == NextBeat(loop, state.trace.passed)
    {
      hide Taken, Lines, Beats, Shown, FramesOf, AudioOf, MaxSequence, AvOf, Active, LastShown, NextBeat;
      BlankTurn(loop, state.trace.passed);
    }

    /** Waking changes neither media nor deadlines. */
    lemma WakingKeeps(loop: Loop, withAudio: bool, processed: seq<AVPacket>, state: LoopState, next: LoopState)
      requires LoopOk(loop, withAudio, processed, state) && state.trace.last == NO_TURN
      requires next == state.(trace := next.trace, nextHeartbeat := next.nextHeartbeat)
      requires next.trace == state.trace.(last := next.trace.last)
      requires next.trace.last == NO_TURN.(woke := next.trace.last.woke, beat := next.trace.last.beat)
      requires next.nextHeartbeat == NextBeatIn(loop, next.trace.passed, next.trace.last)
      ensures LoopOk(loop, withAudio, processed, next)
    {
      hide FramesOf, AudioOf, MaxSequence, Shown, NextBeatIn, Active, LastShown;
    }

    /** What the last turn adds to media and lines. */
    lemma AllParts(trace: Trace)
      ensures Taken(trace.All()) == Taken(trace.passed) + trace.last.done
      ensures Lines(trace.All()) == Lines(trace.passed) + trace.last.Lines()
      ensures Beats(trace.All()) == Beats(trace.passed) + trace.last.Beats()
    {
      assert trace.All()[..|trace.passed|] == trace.passed;
    }

    /** Starts a turn: the reading, and a heartbeat when one is due. */
    method Wake(withAudio: bool, state: LoopState, ghost loop: Loop) returns (now: int, next: LoopState)
      requires Rests(loop, withAudio, state)
      modifies `ticks, `sent, `log, `nextSequence
      ensures Wakes(loop, withAudio, next, []) && ticks > old(ticks)
      ensures ticks == next.trace.last.woke + 1 + |next.trace.last.Beats()|
      ensures next.trace.passed == state.trace.passed && now == clock(old(ticks)) < next.nextHeartbeat
      ensures next.activityDeadline == state.activityDeadline
    {
      hide ParseStream, ArrivalsOf, AvOf, MaxSequence, LoopOk, Logged, Turns, Keeps, Streaming, Rests, Wakes, Woken;
      hide Taken, Lines, Beats, StreamContext, Settled, NextBeat, Left, Fresh, ReadAt, Active, LastShown;
      hide NewTurn, Awake;
      var woke, due := ticks, state.nextHeartbeat;
      var beat: Option<Heartbeat> := None;
      RestingParts(loop, withAudio, state);
      now := Now();
      if now >= state.nextHeartbeat {
        var sent := SendBeat(woke, state.latest);
        beat, due := Some(sent), now + HEARTBEAT_INTERVAL;
      }
      next := Awake(state, NewTurn(woke, beat), due);
      KeepsAnyTime(loop, state.trace.passed, woke, ticks, pending, seen, Ahead(), heardAt);
      ComesAwake(loop, withAudio, state, woke, beat, due);
    }

    /** The state of a turn that has begun. */
    function Awake(state: LoopState, turn: Turn, due: int): LoopState {
      state.(nextHeartbeat := due, trace := state.trace.(last := turn))
    }

    lemma RestingParts(loop: Loop, withAudio: bool, state: LoopState)
      requires Rests(loop, withAudio, state)
      ensures Valid() && connected && Hosts(loop)
      ensures sessionPrefix.Some? && loop.context == StreamContext(suite, sessionPrefix.value)
      ensures LoopOk(loop, withAudio, AvOf(Taken(state.trace.passed)), state) && Turns(loop, state.trace.passed)
      ensures log == loop.said + Lines(state.trace.passed)
      ensures nextSequence == loop.firstSequence + |Beats(state.trace.passed)|
      ensures Keeps(loop, state.trace.passed, [], ticks, pending, seen, Ahead(), heardAt)
      ensures state.trace.last == NO_TURN && ticks == Settled(loop, state.trace.passed) + 1
      ensures state.latest == MaxSequence(AvOf(Taken(state.trace.passed)))
      ensures state.nextHeartbeat == NextBeat(loop, state.trace.passed)
    {
      hide Taken, Lines, Beats, LoopOk, Turns, Keeps, StreamContext, Valid, MaxSequence, AvOf, Settled, NextBeat;
      RestingFacts(loop, withAudio, state);
    }

    /** A turn that has read the clock, and sent a heartbeat if one was due. */
    lemma ComesAwake(
        loop: Loop, withAudio: bool, state: LoopState, woke: nat, beat: Option<Heartbeat>, due: int)
      requires Valid() && connected && Hosts(loop)
      requires sessionPrefix.Some? && loop.context == StreamContext(suite, sessionPrefix.value)
      requires LoopOk(loop, withAudio, AvOf(Taken(state.trace.passed)), state) && Turns(loop, state.trace.passed)
      requires state.trace.last == NO_TURN && state.nextHeartbeat == NextBeat(loop, state.trace.passed)
      requires woke == Settled(loop, state.trace.passed) + 1 < ticks
      requires log == loop.said + Lines(state.trace.passed) + (if beat.Some? then [Beat(beat.value)] else [])
      requires nextSequence == loop.firstSequence + |Beats(state.trace.passed)| + (if beat.Some? then 1 else 0)
      requires if loop.clock(woke) < state.nextHeartbeat then beat == None && due == state.nextHeartbeat
               else
                 && beat == Some(Heartbeat(woke, loop.firstSequence + |Beats(state.trace.passed)|, woke + 1,
                                           MaxSequence(AvOf(Taken(state.trace.passed)))))
                 && due == loop.clock(woke) + HEARTBEAT_INTERVAL
      requires Keeps(loop, state.trace.passed, [], ticks, pending, seen, Ahead(), heardAt)
      ensures var next := Awake(state, NewTurn(woke, beat), due);
              && Wakes(loop, withAudio, next, []) && next.trace.last.woke == woke
              && |next.trace.last.Beats()| == (if beat.Some? then 1 else 0)
              && next.trace.passed == state.trace.passed && next.activityDeadline == state.activityDeadline
              && next.nextHeartbeat == due
    {
      hide ParseStream, ArrivalsOf, AvOf, MaxSequence, LoopOk, Logged, Turns, Keeps, Valid, StreamContext;
      hide Taken, Lines, Beats, Settled, NextBeat, Left, Fresh, ReadAt, Active, LastShown;
      var next := Awake(state, NewTurn(woke, beat), due);
      WakesSays(next.trace.last);
      AllParts(next.trace);
      assert Taken(state.trace.passed) + [] == Taken(state.trace.passed);
      assert loop.said + Lines(state.trace.passed) + next.trace.last.Lines()
          == loop.said + (Lines(state.trace.passed) + next.trace.last.Lines());
      WakingKeeps(loop, withAudio, AvOf(Taken(state.trace.passed)), state, next);
    }

    lemma WakesSays(last: Turn)
      requires last == NO_TURN.(woke := last.woke, beat := last.beat)
      ensures last.Lines() == if last.beat.Some? then [Beat(last.beat.value)] else []
      ensures |last.Beats()| == if last.beat.Some? then 1 else 0
    {
    }

    /** The next packets: one queued packet, or whatever arrives before the earliest deadline. */
    method NextPackets(activityDeadline: int, nextHeartbeat: int) returns (r: Result<seq<Packet>, Stop>)
      requires Valid() && connected
      modifies `ticks, `inbox, `buffer, `stream, `seen, `heardAt, `pending
      ensures Valid() && ticks >= old(ticks) && |inbox| <= |old(inbox)|
      ensures r.Success? ==>
                && connected && stream + BytesOf(inbox) == old(stream) + BytesOf(old(inbox))
                && (pending, Ahead()) == AfterTaking((old(pending), old(Ahead())), r.value)
                && seen == old(seen) + FreshIn((old(pending), old(Ahead())), r.value)
                && (r.value != [] ==> |inbox| < |old(inbox)| || (inbox == old(inbox) && |pending| < |old(pending)|))
                && heardAt == old(heardAt) + ReadIn((old(pending), old(Ahead())), r.value, ticks)
      ensures r.Success? ==>
                if old(pending) != [] then r.value == [old(pending)[0]] && ticks == old(ticks)
                else if r.value != [] then
                  && old(Ahead()).batches != [] && r.value == old(Ahead()).batches[0] && ticks > old(ticks) + 2
                  && clock(ticks - 2) < activityDeadline && clock(ticks - 2) < nextHeartbeat
                  && clock(ticks - 2) < clock(old(ticks)) + 2000
                else
                  && ticks > old(ticks) + 1 && pending == []
                  && (clock(ticks - 1) >= activityDeadline || clock(ticks - 1) >= nextHeartbeat
                      || clock(ticks - 1) >= clock(old(ticks)) + 2000)
      ensures r.Failure? ==>
                && seen == old(seen) && heardAt == old(heardAt) && old(pending) == []
                && old(Ahead()).batches == [] && r.error == StopOf(old(Ahead()).ending)
      ensures r == Failure(Blocked) ==>
                connected && inbox == [] && stream == old(stream) + BytesOf(old(inbox))
    {
      hide ParseStream, ArrivalsOf, BytesOf, Logged;
      if pending != [] {
        var first := pending[0];
        pending := pending[1..];
        assert seen + [] == seen && heardAt + [] == heardAt;
        return Success([first]);
      }
      var now := Now();
      var deadline := now + 2000;
      if activityDeadline < deadline {
        deadline := activityDeadline;
      }
      if nextHeartbeat < deadline {
        deadline := nextHeartbeat;
      }
      ghost var was := Ahead();
      r := Receive(deadline);
      if r.Success? && r.value != [] {
        assert was.Tail() == Ahead();
      }
    }

    lemma WokenDeadlines(loop: Loop, withAudio: bool, processed: seq<AVPacket>, state: LoopState)
      requires LoopOk(loop, withAudio, processed, state) && state.trace.last.batch == []
      ensures state.activityDeadline == loop.clock(Active(loop, state.trace.passed)) + loop.timeout
      ensures state.nextHeartbeat == NextBeatIn(loop, state.trace.passed, state.trace.last)
    {
      hide FramesOf, AudioOf, MaxSequence, Shown, Active, LastShown, LastShownIn, NextBeat, NextBeatIn, TraceOf;
    }

    lemma WokenTakes(loop: Loop, withAudio: bool, state: LoopState, t: Turn)
      requires LoopOk(loop, withAudio, AvOf(Taken(state.trace.All())), state)
      requires state.trace.last == NO_TURN.(woke := t.woke, beat := t.beat)
      requires t == state.trace.last.(batch := t.batch, heard := t.heard, check := t.check)
      requires var (queue, ahead) := Left(loop, state.trace.passed);
               if queue != [] then t.batch == [queue[0]] && t.heard == t.woke + 1 + |t.Beats()|
               else if t.batch != [] then
                 && ahead.batches != [] && t.batch == ahead.batches[0] && t.heard >= 2
                 && loop.clock(t.heard - 2) < state.activityDeadline && loop.clock(t.heard - 2) < state.nextHeartbeat
                 && loop.clock(t.heard - 2) < loop.clock(t.woke + 1 + |t.Beats()|) + 2000
               else
                 && t.woke + 1 < t.check
                 && (|| loop.clock(t.check - 1) >= state.activityDeadline
                     || loop.clock(t.check - 1) >= state.nextHeartbeat
                     || loop.clock(t.check - 1) >= loop.clock(t.woke) + 2000)
      ensures Takes(loop, state.trace.passed, t)
    {
      hide LoopOk, Left, Active, LastShown, NextBeat, NextBeatIn, Taken, AvOf;
      WokenDeadlines(loop, withAudio, AvOf(Taken(state.trace.All())), state);
      SameBeat(loop, state.trace.passed, state.trace.last, t);
    }

    lemma SameBeat(loop: Loop, front: seq<Turn>, one: Turn, other: Turn)
      requires one.woke == other.woke && one.beat == other.beat
      ensures NextBeatIn(loop, front, one) == NextBeatIn(loop, front, other) && |one.Beats()| == |other.Beats()|
    {
      hide NextBeat;
    }

    /** Since `was`, batches were read later than reading `lo`. */
    predicate HeardLater(was: seq<nat>, now: seq<nat>, lo: nat) {
      was <= now && forall i | |was| <= i < |now| :: now[i] > lo
    }

    /** Takes the next packets from the queue or the socket. */
    method Take(withAudio: bool, state: LoopState, ghost loop: Loop) returns (r: Result<seq<Packet>, Stop>)
      requires Wakes(loop, withAudio, state, [])
      requires ticks == state.trace.last.woke + 1 + |state.trace.last.Beats()|
      modifies `ticks, `inbox, `buffer, `stream, `seen, `heardAt, `pending
      ensures ticks >= old(ticks) && |inbox| <= |old(inbox)| && HeardLater(old(heardAt), heardAt, old(ticks))
      ensures r.Success? ==>
                && Wakes(loop, withAudio, state, r.value)
                && Takes(loop, state.trace.passed, Taking(state.trace.last, r.value, ticks))
                && stream + BytesOf(inbox) == old(stream) + BytesOf(old(inbox))
                && (r.value != [] ==> |inbox| < |old(inbox)| || (inbox == old(inbox) && |pending| < |old(pending)|))
                && (r.value == [] ==>
                      && ticks > old(ticks) && pending == old(pending)
                      && (|| clock(ticks - 1) >= state.activityDeadline || clock(ticks - 1) >= state.nextHeartbeat
                          || clock(ticks - 1) >= clock(old(ticks)) + 2000))
      ensures r.Failure? ==>
                Ended(loop, withAudio, state.trace.(last := state.trace.last.(check := ticks)), r.error)
      ensures r == Failure(Blocked) ==> stream == old(stream) + BytesOf(old(inbox))
    {
      hide ParseStream, ArrivalsOf, BytesOf, AvOf, LoopOk, Logged, Turns, Woken, Takes, Lines, Taken, Beats, TraceOf;
      hide StreamContext, Keeps, Left, Fresh, ReadAt, Ends, Streaming, Wakes, Settled, Active, LastShown, NextBeat;
      ghost var passed, last := state.trace.passed, state.trace.last;
      ghost var left, was, times, tick := (pending, Ahead()), seen, heardAt, ticks;
      assert Monotone(clock) && Wakes(loop, withAudio, state, []) by {
        WakesOn(loop, withAudio, state, []);
      }
      WakingParts(loop, withAudio, state, []);
      KeepsNothing(loop, passed, ticks, pending, seen, Ahead(), heardAt);
      r := NextPackets(state.activityDeadline, state.nextHeartbeat);
      if r.Failure? {
        FetchEnds(loop, withAudio, state, last.(check := ticks), r.error);
        return;
      }
      KeepsTaking(loop, passed, tick, left, was, times, r.value, ticks);
      WokenTakes(loop, withAudio, state, Taking(last, r.value, ticks));
      StaysAwake(loop, withAudio, state, r.value);
    }

    lemma WakesOn(loop: Loop, withAudio: bool, state: LoopState, inHand: seq<Packet>)
      requires Wakes(loop, withAudio, state, inHand)
      ensures Monotone(clock)
    {
    }

    lemma StaysAwake(loop: Loop, withAudio: bool, state: LoopState, inHand: seq<Packet>)
      requires Valid() && connected && Hosts(loop)
      requires sessionPrefix.Some? && loop.context == StreamContext(suite, sessionPrefix.value)
      requires LoopOk(loop, withAudio, AvOf(Taken(state.trace.All())), state) && Turns(loop, state.trace.passed)
      requires log == loop.said + Lines(state.trace.All())
      requires nextSequence == loop.firstSequence + |Beats(state.trace.All())|
      requires Keeps(loop, state.trace.passed, inHand, ticks, pending, seen, Ahead(), heardAt)
      requires Woken(loop, state.trace.passed, state.trace.last) && ticks > state.trace.last.woke
      requires state.trace.last == NO_TURN.(woke := state.trace.last.woke, beat := state.trace.last.beat)
      ensures Wakes(loop, withAudio, state, inHand)
    {
      hide Taken, Lines, Beats, LoopOk, Turns, Woken, Keeps, StreamContext, Valid;
    }

    /** A wait that finds the input at its end ends the loop. */
    lemma FetchEnds(loop: Loop, withAudio: bool, state: LoopState, t: Turn, stop: Stop)
      requires LoopOk(loop, withAudio, AvOf(Taken(state.trace.All())), state)
      requires Woken(loop, state.trace.passed, state.trace.last)
      requires state.trace.last == NO_TURN.(woke := t.woke, beat := t.beat) && t == state.trace.last.(check := t.check)
      requires var (queue, ahead) := Left(loop, state.trace.passed);
               queue == [] && ahead.batches == [] && stop == StopOf(ahead.ending)
      ensures Ends(loop, state.trace.passed, t, stop)
      ensures var trace := state.trace.(last := t);
              && Lines(trace.All()) == Lines(state.trace.All())
              && ReadAt(loop, trace.All()) == ReadAt(loop, trace.passed)
              && TraceOf(loop.context, withAudio, AvOf(Taken(trace.All())), trace)
    {
      hide FramesOf, AudioOf, MaxSequence, Shown, Left, Active, LastShown, NextBeat, Lines, Taken, Beats, AvOf, Fresh;
      hide ReadAt, Settled, AfterTaking, FreshIn, ActiveIn, LastShownIn, NextBeatIn, Woken, Works, Shows, Takes;
      hide SyncFault, BeforeFault, Runs, NoPacketInTime, NoFrameInTime;
      var trace := state.trace.(last := t);
      TurnSnoc(loop, trace.passed, trace.last);
      TurnSnoc(loop, state.trace.passed, state.trace.last);
      assert ReadAt(loop, trace.passed) + [] == ReadAt(loop, trace.passed);
      assert Taken(trace.passed) + [] == Taken(trace.passed);
      IdleEnds(loop, withAudio, state, t);
    }

    lemma IdleEnds(loop: Loop, withAudio: bool, state: LoopState, t: Turn)
      requires LoopOk(loop, withAudio, AvOf(Taken(state.trace.passed)), state)
      requires Woken(loop, state.trace.passed, state.trace.last)
      requires state.trace.last == NO_TURN.(woke := t.woke, beat := t.beat) && t == state.trace.last.(check := t.check)
      ensures Woken(loop, state.trace.passed, t) && Works(t) && Shows(loop, state.trace.passed, t)
    {
      hide FramesOf, AudioOf, MaxSequence, Shown, Left, Active, LastShown, NextBeat, Lines, Taken, Beats, AvOf, Settled;
      NoLines();
      NoSyncs();
      assert Taken(state.trace.passed) + [] == Taken(state.trace.passed);
    }

    /** Taking packets moves the activity deadline and nothing else. */
    lemma TakingKeeps(loop: Loop, withAudio: bool, processed: seq<AVPacket>, state: LoopState, next: LoopState)
      requires LoopOk(loop, withAudio, processed, state)
      requires next == state.(trace := next.trace, activityDeadline := next.activityDeadline)
      requires next.trace == state.trace.(last := next.trace.last)
      requires next.trace.last == state.trace.last.(batch := next.trace.last.batch, heard := next.trace.last.heard)
      requires next.trace.last.batch != []
      requires next.activityDeadline == loop.clock(next.trace.last.heard) + loop.timeout
      ensures LoopOk(loop, withAudio, processed, next)
    {
      hide FramesOf, AudioOf, MaxSequence, Shown, Active, LastShown, NextBeat;
    }

    /** Coming to the check moves nothing but the reading of the check. */
    lemma CheckingKeeps(loop: Loop, withAudio: bool, processed: seq<AVPacket>, state: LoopState, next: LoopState)
      requires LoopOk(loop, withAudio, processed, state)
      requires next == state.(trace := state.trace.(last := state.trace.last.(check := next.trace.last.check)))
      ensures LoopOk(loop, withAudio, processed, next)
    {
      hide FramesOf, AudioOf, MaxSequence, Shown, Active, LastShown, NextBeat;
    }

    /** What a turn has done when it has processed its packets. */
    ghost predicate Worked(loop: Loop, was: Turn, t: Turn, tick: nat) {
      && was == NO_TURN.(woke := was.woke, beat := was.beat) && was.woke < tick <= t.check
      && t == was.(batch := t.batch, done := t.done, heard := t.heard, replies := t.replies, shown := t.shown,
                   check := t.check)
      && t.done == BeforeFault(suite, bootstrapPrefix, t.batch)
      && AnsweredIn(t.replies) == SyncsOf(t.done) && OnlyReplies(t.replies)
      && (if t.batch == [] then t.heard == 0 && t.replies == [] && t.shown == [] && t.check == tick
          else t.heard == tick < t.check
               && Within(t.replies, 0, tick + 1, t.check) && Rising(t.shown, tick + 1, t.check))
    }

    lemma WorkedWell(loop: Loop, front: seq<Turn>, was: Turn, t: Turn, tick: nat, frames: seq<bytes>)
      requires Hosts(loop) && Worked(loop, was, t, tick) && Woken(loop, front, was)
      requires Takes(loop, front, Taking(was, t.batch, tick))
      requires frames == FramesOf(loop.context, AvOf(Taken(front) + t.done))
      requires |Shown(front)| + |t.shown| == |frames|
      ensures Woken(loop, front, t) && Takes(loop, front, t) && Works(t) && Shows(loop, front, t)
      ensures t.batch == [] ==> t.done == []
      ensures SyncFault(suite, bootstrapPrefix, t.batch) == None ==> t.done == t.batch && Runs(loop, front, t)
      ensures var fault := SyncFault(suite, bootstrapPrefix, t.batch);
              fault.Some? && t.batch != [] && (fault.value.BadRpc? || fault.value.BadField?) ==>
                Ends(loop, front, t, Raised(fault.value))
    {
      hide FramesOf, MaxSequence, AvOf, Left, Shown, Taken, NextBeat, Active, SyncsOf, AnsweredIn, Beats;
      NoFaultInNothing(suite, bootstrapPrefix);
      if SyncFault(suite, bootstrapPrefix, t.batch) == None {
        NoFaultAllBefore(suite, bootstrapPrefix, t.batch);
      }
      hide SyncFault, BeforeFault;
    }

    /** Notes the time when there are packets, and processes them. */
    method Handle(
        packets: seq<Packet>, reassembler: MJPEGReassembler, withAudio: bool, state: LoopState, ghost loop: Loop)
      returns (error: Option<ClientError>, next: LoopState)
      requires Valid() && connected && Hosts(loop) && reassembler.Valid() && reassembler.context == loop.context
      requires LoopOk(loop, withAudio, reassembler.history, state)
      requires state.trace.last == NO_TURN.(woke := state.trace.last.woke, beat := state.trace.last.beat)
      requires ticks > state.trace.last.woke
      modifies `ticks, `sent, `log, reassembler
      ensures Valid() && reassembler.Valid() && LoopOk(loop, withAudio, reassembler.history, next)
      ensures reassembler.history == old(reassembler.history) + AvOf(next.trace.last.done)
      ensures Worked(loop, state.trace.last, next.trace.last, old(ticks)) && next.trace.last.batch == packets
      ensures next.trace.passed == state.trace.passed && next.trace.last.check == ticks
      ensures log == old(log) + next.trace.last.replies
      ensures error == SyncFault(suite, bootstrapPrefix, packets)
      ensures error.Some? ==> error.value.BadRpc? || error.value.BadField?
      ensures packets == [] ==> next.activityDeadline == state.activityDeadline
    {
      hide ParseStream, AvOf, SyncsOf, LoopOk, SyncFault, BeforeFault, MJPEGReassembler.Valid, Logged, AnsweredIn;
      next := state;
      if packets != [] {
        var heard := ticks;
        var now := Now();
        next := state.(activityDeadline := now + frameTimeout,
                       trace := state.trace.(last := state.trace.last.(batch := packets, heard := heard)));
        TakingKeeps(loop, withAudio, reassembler.history, state, next);
      } else {
        EmptyBatch();
      }
      next, error := ProcessBatch(packets, reassembler, withAudio, next, loop);
      ghost var processed := next;
      next := next.(trace := next.trace.(last := next.trace.last.(check := ticks)));
      CheckingKeeps(loop, withAudio, reassembler.history, processed, next);
    }

    /** Processes the packets in hand. */
    method Process(
        packets: seq<Packet>, reassembler: MJPEGReassembler, withAudio: bool, state: LoopState, ghost loop: Loop)
      returns (error: Option<ClientError>, next: LoopState)
      requires reassembler.Valid() && reassembler.context == loop.context
      requires reassembler.history == AvOf(Taken(state.trace.All()))
      requires Wakes(loop, withAudio, state, packets)
      requires Takes(loop, state.trace.passed, Taking(state.trace.last, packets, ticks))
      modifies `ticks, `sent, `log, reassembler
      ensures reassembler.Valid() && next.trace.passed == state.trace.passed
      ensures error.None? ==>
                Checks(loop, withAudio, next) && reassembler.history == AvOf(Taken(next.trace.All()))
      ensures error.Some? ==> Ended(loop, withAudio, next.trace, Raised(error.value))
      ensures if packets == [] then ticks == old(ticks) && next.activityDeadline == state.activityDeadline
              else ticks > old(ticks)
    {
      hide ParseStream, ArrivalsOf, AvOf, SyncsOf, LoopOk, SyncFault, FramesOf, Turns, Woken, Wakes, Streaming, Checks;
      hide Ended, MJPEGReassembler.Valid, StreamContext, Taken, Lines, Beats, Takes, Logged, Keeps, AnsweredIn, Worked;
      hide Left, Fresh, ReadAt, Active, LastShown, NextBeat, Settled;
      ghost var passed, was, tick := state.trace.passed, state.trace.last, ticks;
      WakingParts(loop, withAudio, state, packets);
      error, next := Handle(packets, reassembler, withAudio, state, loop);
      AllParts(next.trace);
      AvOfAppend(Taken(passed), next.trace.last.done);
      ComesToCheck(loop, withAudio, state, next, tick, error);
      if packets == [] {
        WorkedAtOnce(loop, was, next.trace.last, tick);
      } else {
        WorkedLater(loop, was, next.trace.last, tick);
      }
    }

    lemma WorkedParts(loop: Loop, was: Turn, t: Turn, tick: nat)
      requires Worked(loop, was, t, tick)
      ensures t.Lines() == was.Lines() + t.replies && t.Beats() == was.Beats() && was.done == []
      ensures t.batch != [] ==> t.heard == tick
    {
      hide BeforeFault, AnsweredIn, SyncsOf, OnlyReplies, Within, Rising;
    }

    lemma WorkedAtOnce(loop: Loop, was: Turn, t: Turn, tick: nat)
      requires Worked(loop, was, t, tick) && t.batch == []
      ensures t.check == tick
    {
    }

    lemma WorkedLater(loop: Loop, was: Turn, t: Turn, tick: nat)
      requires Worked(loop, was, t, tick) && t.batch != []
      ensures t.check > tick
    {
    }

    lemma WakingParts(loop: Loop, withAudio: bool, state: LoopState, inHand: seq<Packet>)
      requires Wakes(loop, withAudio, state, inHand)
      ensures Valid() && connected && Hosts(loop)
      ensures sessionPrefix.Some? && loop.context == StreamContext(suite, sessionPrefix.value)
      ensures LoopOk(loop, withAudio, AvOf(Taken(state.trace.All())), state) && Turns(loop, state.trace.passed)
      ensures log == loop.said + Lines(state.trace.All())
      ensures nextSequence == loop.firstSequence + |Beats(state.trace.All())|
      ensures Keeps(loop, state.trace.passed, inHand, ticks, pending, seen, Ahead(), heardAt)
      ensures Woken(loop, state.trace.passed, state.trace.last) && ticks > state.trace.last.woke
      ensures state.trace.last == NO_TURN.(woke := state.trace.last.woke, beat := state.trace.last.beat)
      ensures Taken(state.trace.All()) == Taken(state.trace.passed)
    {
      hide Taken, Lines, Beats, LoopOk, Turns, Woken, Keeps, StreamContext, Valid;
      AllParts(state.trace);
      assert Taken(state.trace.passed) + [] == Taken(state.trace.passed);
    }

    /** A turn that has processed its packets comes to its check, or ends the loop. */
    lemma ComesToCheck(
        loop: Loop, withAudio: bool, state: LoopState, next: LoopState, tick: nat, error: Option<ClientError>)
      requires Valid() && connected && Hosts(loop)
      requires sessionPrefix.Some? && loop.context == StreamContext(suite, sessionPrefix.value)
      requires LoopOk(loop, withAudio, AvOf(Taken(next.trace.All())), next) && Turns(loop, state.trace.passed)
      requires log == loop.said + Lines(state.trace.All()) + next.trace.last.replies
      requires nextSequence == loop.firstSequence + |Beats(state.trace.All())|
      requires next.trace.passed == state.trace.passed && next.trace.last.check == ticks
      requires Worked(loop, state.trace.last, next.trace.last, tick)
      requires Woken(loop, state.trace.passed, state.trace.last)
      requires var packets := next.trace.last.batch;
               && Takes(loop, state.trace.passed, Taking(state.trace.last, packets, tick))
               && Keeps(loop, state.trace.passed, packets, tick, pending, seen, Ahead(), heardAt)
               && error == SyncFault(suite, bootstrapPrefix, packets)
      requires error.Some? ==> error.value.BadRpc? || error.value.BadField?
      ensures error.None? ==> Checks(loop, withAudio, next)
      ensures error.Some? ==> Ended(loop, withAudio, next.trace, Raised(error.value))
    {
      hide ParseStream, ArrivalsOf, AvOf, LoopOk, SyncFault, FramesOf, Turns, Woken, Works, Shows, AudioOf, TraceOf;
      hide StreamContext, Taken, Lines, Beats, Takes, Logged, Keeps, AnsweredIn, Valid, Runs, Ends, Shown;
      hide Left, Fresh, ReadAt, Active, LastShown, NextBeat, Settled, SyncsOf, BeforeFault, AfterTaking, FreshIn;
      hide ReadIn, ActiveIn, LastShownIn, NextBeatIn, Worked, Taking, MaxSequence;
      ghost var passed, was, last := state.trace.passed, state.trace.last, next.trace.last;
      WorkedParts(loop, was, last, tick);
      AllParts(state.trace);
      AllParts(next.trace);
      LoopMedia(loop, withAudio, AvOf(Taken(next.trace.All())), next);
      KeepsOn(loop, passed, last.batch, tick, last.heard, pending, seen, Ahead(), heardAt);
      KeepsAll(loop, next.trace, pending, seen, Ahead(), heardAt, ticks);
      EmptyBatch();
      WorkedWell(loop, passed, was, last, tick, next.trace.frames);
      assert loop.said + (Lines(passed) + was.Lines()) + last.replies
          == loop.said + (Lines(passed) + last.Lines());
    }

    lemma KeepsOn(
        loop: Loop, turns: seq<Turn>, batch: seq<Packet>, tick: nat, heard: nat, queue: seq<Packet>,
        seen: seq<Packet>, ahead: Arrivals, heardAt: seq<nat>)
      requires Keeps(loop, turns, batch, tick, queue, seen, ahead, heardAt) && (batch != [] ==> heard == tick)
      ensures Keeps(loop, turns, batch, heard, queue, seen, ahead, heardAt)
    {
      hide Left, Fresh, ReadAt;
    }

    lemma LoopMedia(loop: Loop, withAudio: bool, processed: seq<AVPacket>, state: LoopState)
      requires LoopOk(loop, withAudio, processed, state)
      ensures TraceOf(loop.context, withAudio, processed, state.trace)
      ensures state.trace.frames == FramesOf(loop.context, processed)
      ensures |Shown(state.trace.passed)| + |state.trace.last.shown| == |state.trace.frames|
    {
    }

    lemma EmptyBatch()
      ensures SyncsOf([]) == [] && SyncFault(suite, bootstrapPrefix, []) == None
      ensures BeforeFault(suite, bootstrapPrefix, []) == []
    {
    }

    lemma DeadlinesAre(loop: Loop, withAudio: bool, processed: seq<AVPacket>, state: LoopState)
      requires LoopOk(loop, withAudio, processed, state)
      ensures NoPacketInTime(loop, state.trace.passed, state.trace.last)
              <==> loop.clock(state.trace.last.check) >= state.activityDeadline
      ensures NoFrameInTime(loop, state.trace.passed, state.trace.last)
              <==> loop.clock(state.trace.last.check) >= state.frameDeadline
    {
    }

    /** A passed check closes the turn. */
    lemma PassingKeeps(loop: Loop, withAudio: bool, state: LoopState, next: LoopState)
      requires LoopOk(loop, withAudio, AvOf(Taken(state.trace.All())), state) && Turns(loop, state.trace.passed)
      requires Passes(loop, state.trace.passed, state.trace.last)
      requires next == state.(trace := state.trace.(passed := state.trace.All(), last := NO_TURN))
      ensures LoopOk(loop, withAudio, AvOf(Taken(next.trace.All())), next) && Turns(loop, next.trace.passed)
      ensures Taken(next.trace.All()) == Taken(state.trace.All())
      ensures Lines(next.trace.All()) == Lines(state.trace.All())
      ensures Beats(next.trace.All()) == Beats(state.trace.All())
      ensures Settled(loop, next.trace.passed) == state.trace.last.check
    {
      hide FramesOf, AudioOf, MaxSequence, AvOf, Passes, Taken, Lines, Beats, Shown, Active, LastShown, NextBeat;
      hide Settled, ActiveIn, LastShownIn, NextBeatIn, Left, Fresh, ReadAt, AfterTaking, FreshIn, ReadIn;
      hide Turns;
      TurnSnoc(loop, state.trace.passed, state.trace.last);
      TurnsSnoc(loop, state.trace.passed, state.trace.last);
      BlankTurn(loop, state.trace.All());
    }

    /** The two timeout checks of a turn, activity first. */
    method CheckDeadlines(withAudio: bool, state: LoopState, ghost loop: Loop)
      returns (error: Option<ClientError>, next: LoopState)
      requires Checks(loop, withAudio, state)
      modifies `ticks
      ensures ticks == old(ticks) + 1
      ensures error == if clock(old(ticks)) >= state.activityDeadline then Some(NoActivity)
                       else if clock(old(ticks)) >= state.frameDeadline then Some(NoFrame) else None
      ensures error.None? ==>
                && Rests(loop, withAudio, next)
                && next == state.(trace := state.trace.(passed := state.trace.All(), last := NO_TURN))
      ensures error.Some? ==> next == state && Ended(loop, withAudio, next.trace, Raised(error.value))
    {
      hide ParseStream, ArrivalsOf, AvOf, LoopOk, FramesOf, AudioOf, Turns, StreamContext, Taken, Lines, Beats, Logged;
      hide Runs, Keeps, NoPacketInTime, NoFrameInTime, TraceOf, Left, Settled;
      DeadlinesAre(loop, withAudio, AvOf(Taken(state.trace.All())), state);
      LoopMedia(loop, withAudio, AvOf(Taken(state.trace.All())), state);
      next := state;
      var now := Now();
      KeepsAll(loop, state.trace, pending, seen, Ahead(), heardAt, ticks);
      if now >= state.activityDeadline {
        return Some(NoActivity), next;
      }
      if now >= state.frameDeadline {
        return Some(NoFrame), next;
      }
      next := state.(trace := state.trace.(passed := state.trace.passed + [state.trace.last], last := NO_TURN));
      PassingKeeps(loop, withAudio, state, next);
      return None, next;
    }

    /** One turn of the media loop: the heartbeat, the next packets, and the two timeout checks. */
    method TakeTurn(reassembler: MJPEGReassembler, withAudio: bool, state: LoopState, ghost loop: Loop)
      returns (stop: Option<Stop>, next: LoopState)
      requires reassembler.Valid() && reassembler.context == loop.context
      requires reassembler.history == AvOf(Taken(state.trace.All())) && Rests(loop, withAudio, state)
      modifies `ticks, `inbox, `buffer, `stream, `seen, `heardAt, `pending, `sent, `log, `nextSequence, reassembler
      ensures reassembler.Valid() && ticks > old(ticks) && HeardLater(old(heardAt), heardAt, old(ticks))
      ensures stop.None? ==>
                && Rests(loop, withAudio, next) && reassembler.history == AvOf(Taken(next.trace.All()))
                && stream + BytesOf(inbox) == old(stream) + BytesOf(old(inbox))
      ensures stop.Some? ==> Ended(loop, withAudio, next.trace, stop.value)
      ensures stop == Some(Blocked) ==> stream == old(stream) + BytesOf(old(inbox))
      ensures stop.None? ==>
                || |inbox| < |old(inbox)|
                || (inbox == old(inbox) && |pending| < |old(pending)|)
                || (&& |inbox| <= |old(inbox)| && pending == old(pending)
                    && next.activityDeadline == state.activityDeadline
                    && clock(old(ticks)) < clock(ticks - 1) < state.activityDeadline)
    {
      hide ParseStream, ArrivalsOf, BytesOf, AvOf, SyncsOf, LoopOk, FramesOf, AudioOf, Turns, Woken, Takes, Lines;
      hide Taken, Beats, MJPEGReassembler.Valid, StreamContext, Logged, Keeps, Ended, TraceOf, Settled, Streaming;
      hide Wakes, Checks, Rests;
      assert Monotone(clock) by {
        RestsOn(loop, withAudio, state);
      }
      WasTurn(loop, withAudio, state);
      var now;
      now, next := Wake(withAudio, state, loop);
      IsTurn(loop, withAudio, next, []);
      StillTaken(loop, state, next);
      var fetched := Take(withAudio, next, loop);
      if fetched.Failure? {
        next := next.(trace := next.trace.(last := next.trace.last.(check := ticks)));
        return Some(fetched.error), next;
      }
      var error;
      error, next := Process(fetched.value, reassembler, withAudio, next, loop);
      if error.Some? {
        return Some(Raised(error.value)), next;
      }
      ghost var worked := next;
      error, next := CheckDeadlines(withAudio, next, loop);
      StillTaken(loop, worked, next);
      return if error.Some? then Some(Raised(error.value)) else None, next;
    }

    lemma WasTurn(loop: Loop, withAudio: bool, state: LoopState)
      requires Rests(loop, withAudio, state)
      ensures state.trace.last.done == []
    {
    }

    lemma IsTurn(loop: Loop, withAudio: bool, state: LoopState, inHand: seq<Packet>)
      requires Wakes(loop, withAudio, state, inHand)
      ensures state.trace.last.done == []
    {
    }

    lemma StillTaken(loop: Loop, state: LoopState, next: LoopState)
      ensures next.trace.last.done == [] && state.trace.last.done == [] && next.trace.passed == state.trace.passed ==>
                Taken(next.trace.All()) == Taken(state.trace.All())
      ensures next.trace.passed == state.trace.All() && next.trace.last.done == [] ==>
                Taken(next.trace.All()) == Taken(state.trace.All())
    {
      hide Left, Lines, Beats, Shown, Active, LastShown, NextBeat, Settled, Taken, Fresh;
      TurnSnoc(loop, state.trace.passed, state.trace.last);
      TurnSnoc(loop, next.trace.passed, next.trace.last);
      assert Taken(state.trace.All()) + [] == Taken(state.trace.All());
    }

    /** Turns until one of them stops. */
    method TakeTurns(reassembler: MJPEGReassembler, withAudio: bool, first: LoopState, ghost loop: Loop)
      returns (stop: Stop, state: LoopState)
      requires reassembler.Valid() && reassembler.context == loop.context
      requires reassembler.history == AvOf(Taken(first.trace.All())) && Rests(loop, withAudio, first)
      requires ticks > 0
      modifies `ticks, `inbox, `buffer, `stream, `seen, `heardAt, `pending, `sent, `log, `nextSequence, reassembler
      ensures Ended(loop, withAudio, state.trace, stop)
      ensures ticks > old(ticks) && HeardLater(old(heardAt), heardAt, old(ticks))
      ensures stop == Blocked ==> stream == old(stream) + BytesOf(old(inbox))
    {
      hide ParseStream, ArrivalsOf, BytesOf, AvOf, Taken, MJPEGReassembler.Valid, Ended, Rests;
      state := first;
      ghost var was, start := heardAt, ticks;
      assert Monotone(clock) by {
        RestsOn(loop, withAudio, first);
      }
      while true
        invariant reassembler.Valid() && reassembler.context == loop.context
        invariant reassembler.history == AvOf(Taken(state.trace.All())) && Rests(loop, withAudio, state)
        invariant ticks >= start > 0 && HeardLater(was, heardAt, start)
        invariant stream + BytesOf(inbox) == old(stream) + BytesOf(old(inbox))
        decreases |inbox|, |pending|,
                  if state.activityDeadline > clock(ticks - 1) then state.activityDeadline - clock(ticks - 1) else 0
      {
        var ended;
        ended, state := TakeTurn(reassembler, withAudio, state, loop);
        if ended.Some? {
          return ended.value, state;
        }
      }
    }

    lemma RestsOn(loop: Loop, withAudio: bool, state: LoopState)
      requires Rests(loop, withAudio, state)
      ensures Monotone(clock)
    {
    }

    lemma EndedValid(loop: Loop, withAudio: bool, trace: Trace, stop: Stop)
      requires Ended(loop, withAudio, trace, stop)
      ensures Valid()
    {
    }

    /** A loop that starts. */
    lemma StartOk(loop: Loop, withAudio: bool, state: LoopState)
      requires state == LoopState(NO_TRACE, None, loop.clock(loop.start) + loop.timeout,
                                  loop.clock(loop.start) + loop.timeout,
                                  loop.clock(loop.start + 1) + HEARTBEAT_INTERVAL)
      ensures LoopOk(loop, withAudio, AvOf(Taken(state.trace.All())), state) && Turns(loop, state.trace.passed)
      ensures Taken(state.trace.All()) == [] && Lines(state.trace.All()) == [] && Beats(state.trace.All()) == []
      ensures AvOf(Taken(state.trace.All())) == []
      ensures forall tick :: Keeps(loop, [], [], tick, loop.queue, loop.seen, loop.ahead, loop.heardAt)
      ensures Settled(loop, []) == loop.start + 1
    {
      TurnSnoc(loop, state.trace.passed, state.trace.last);
    }

    lemma StartsResting(loop: Loop, withAudio: bool, state: LoopState)
      requires Valid() && connected && sessionPrefix.Some?
      requires loop == Loop(clock, frameTimeout, suite, bootstrapPrefix, StreamContext(suite, sessionPrefix.value),
                            loop.start, nextSequence, log, seen, heardAt, pending, Ahead())
      requires state == LoopState(NO_TRACE, None, clock(loop.start) + frameTimeout, clock(loop.start) + frameTimeout,
                                  clock(loop.start + 1) + HEARTBEAT_INTERVAL)
      requires ticks == loop.start + 2
      ensures Rests(loop, withAudio, state) && AvOf(Taken(state.trace.All())) == []
    {
      hide ParseStream, ArrivalsOf, AvOf, Taken, Lines, Beats, LoopOk, Turns, Keeps, Settled, Logged, StreamContext;
      StartOk(loop, withAudio, state);
      assert loop.said + [] == log;
    }

    /** The media loop that begins here. */
    ghost function LoopHere(): Loop
      requires sessionPrefix.Some?
      reads `sessionPrefix, `ticks, `nextSequence, `log, `seen, `heardAt, `pending, `inbox, `buffer
    {
      Loop(clock, frameTimeout, suite, bootstrapPrefix, StreamContext(suite, sessionPrefix.value), ticks, nextSequence,
           log, seen, heardAt, pending, Ahead())
    }

    /** The media loop: heartbeats, queued and fresh packets, audio callbacks, complete frames, and two timeouts.

        Its turns say what it did and at which readings of the clock; they obey the loop's rules one by one, the last
        one ends it as `stop` says, and the frames and audio delivered and the lines sent are those of its turns. */
    method Frames(withAudio: bool) returns (stop: Stop, trace: Trace, ghost loop: Loop)
      requires Valid()
      modifies this
      ensures Valid()
      ensures !old(connected) || old(sessionPrefix).None? ==> stop == Raised(NotConnected)
      ensures old(connected) && old(sessionPrefix).Some? ==>
                && sessionPrefix == old(sessionPrefix)
                && loop == old(LoopHere()) && Ended(loop, withAudio, trace, stop)
      ensures earlier == old(earlier) && HeardLater(old(heardAt), heardAt, old(ticks)) && ticks >= old(ticks)
      ensures stop == Blocked ==> stream == old(stream) + BytesOf(old(inbox))
    {
      hide ParseStream, ArrivalsOf, BytesOf, AvOf, Taken, Lines, Beats, LoopOk, Turns, Keeps, Settled, Logged;
      hide MJPEGReassembler.Valid, Ended, StreamContext, Rests, Streaming;
      if !connected || sessionPrefix.None? {
        return Raised(NotConnected), NO_TRACE,
               Loop(clock, frameTimeout, suite, bootstrapPrefix, StreamContext(suite, []), ticks, nextSequence, log,
                    seen, heardAt, pending, Ahead());
      }
      var reassembler := new MJPEGReassembler(StreamContext(suite, sessionPrefix.value));
      loop := LoopHere();
      var now := Now();
      var deadline := now + frameTimeout;
      now := Now();
      var state := LoopState(NO_TRACE, None, deadline, deadline, now + HEARTBEAT_INTERVAL);
      StartsResting(loop, withAudio, state);
      stop, state := TakeTurns(reassembler, withAudio, state, loop);
      EndedValid(loop, withAudio, state.trace, stop);
      return stop, state.trace, loop;
    }
  }
}
