/** One connection of the session's reader: connect, start audio, stream frames; and what it delivers. */
module Session {
  import opened Basics
  import opened Pprpc
  import opened Framing
  import opened Reassembler
  import opened ReassemblyLaws
  import opened Sender
  import opened Messages
  import opened Handshake
  import opened HandshakeLaws
  import opened HandshakeErrors
  import opened Timeline
  import opened LoopLaws
  import opened Client
  import Crypto

  // ----- the media of a byte stream -----

  /** The packets of a stream that parses. */
  function StreamPackets(stream: bytes): seq<Packet> {
    match ParseStream(stream)
    case Success(parsed) => parsed.0
    case Failure(_) => []
  }

  /** A packet that grants a session prefix. */
  predicate IsGrant(suite: Crypto.Suite, bootstrap: bytes, packet: Packet) {
    Answers(packet, 1, LAN_AUTH_COMMAND) && GrantedPrefix(suite, bootstrap, packet.rpc).Success?
  }

  /** The prefix of the first grant in a list of packets. */
  function FirstGrant(suite: Crypto.Suite, bootstrap: bytes, packets: seq<Packet>): Option<bytes>
    decreases |packets|
  {
    if packets == [] then None
    else if IsGrant(suite, bootstrap, packets[0]) then
      Some(GrantedPrefix(suite, bootstrap, packets[0].rpc).value)
    else FirstGrant(suite, bootstrap, packets[1..])
  }

  /** All grants in a list of packets grant the same prefix, as when the camera answers once. */
  predicate GrantsAgree(suite: Crypto.Suite, bootstrap: bytes, packets: seq<Packet>) {
    forall i, j | 0 <= i < |packets| && 0 <= j < |packets|
                  && IsGrant(suite, bootstrap, packets[i]) && IsGrant(suite, bootstrap, packets[j]) ::
      GrantedPrefix(suite, bootstrap, packets[i].rpc) == GrantedPrefix(suite, bootstrap, packets[j].rpc)
  }

  /** The frames and audio chunks of a stream, parsed whole and fed to a fresh reassembler. */
  function StreamFrames(suite: Crypto.Suite, prefix: bytes, stream: bytes): seq<bytes> {
    FramesOf(StreamContext(suite, prefix), AvOf(StreamPackets(stream)))
  }

  function StreamAudio(stream: bytes): seq<bytes> {
    AudioOf(AvOf(StreamPackets(stream)))
  }

  /** Frames of a stream have at least the four bytes of their markers and at most two million. */
  lemma {:induction false} FramesFit(suite: Crypto.Suite, prefix: bytes, packets: seq<AVPacket>)
    ensures StreamContext(suite, prefix) == Context(suite, prefix, 2_000_000)
    ensures forall frame | frame in FramesOf(StreamContext(suite, prefix), packets) :: 4 <= |frame| <= 2_000_000
    decreases |packets|
  {
    hide OutputFor;
    if packets != [] {
      var context, front, last := StreamContext(suite, prefix), packets[..|packets| - 1], packets[|packets| - 1];
      FramesFit(suite, prefix, front);
      var output := OutputFor(context, front, last);
      if output.Some? {
        var _ := DeliveredBounds(context, front, last, output.value);
      }
    }
  }

  lemma {:induction false} GrantIsFirst(suite: Crypto.Suite, bootstrap: bytes, packets: seq<Packet>, auth: RPCPacket)
    requires GrantsAgree(suite, bootstrap, packets)
    requires Rpc(auth) in packets && IsGrant(suite, bootstrap, Rpc(auth))
    ensures FirstGrant(suite, bootstrap, packets) == Some(GrantedPrefix(suite, bootstrap, auth).value)
    decreases |packets|
  {
    hide GrantedPrefix, IsGrant;
    var k :| 0 <= k < |packets| && packets[k] == Rpc(auth);
    if !IsGrant(suite, bootstrap, packets[0]) {
      assert k > 0;
      assert packets[1..][k - 1] == Rpc(auth);
      assert forall i | 0 <= i < |packets| - 1 :: packets[1..][i] == packets[i + 1];
      GrantIsFirst(suite, bootstrap, packets[1..], auth);
    }
  }

  /** The media of more packets extend the media of fewer. */
  lemma {:induction false} MediaGrows(context: Context, processed: seq<AVPacket>, more: seq<AVPacket>)
    requires processed <= more
    ensures FramesOf(context, processed) <= FramesOf(context, more)
    ensures AudioOf(processed) <= AudioOf(more)
    decreases |more|
  {
    hide OutputFor, ExtractAlaw;
    if processed == more {
    } else {
      var front, last := more[..|more| - 1], more[|more| - 1];
      MediaGrows(context, processed, front);
      assert more == front + [last];
      Appended(context, front, last);
    }
  }

  // ----- what a division of the stream into chunks delivers -----

  /** The frames of a run over these chunks in which no answer, packet or frame is late; `cut` is where two seconds
      end the wait for the initial time syncs, if they do. */
  function Delivered(
      suite: Crypto.Suite, bootstrap: bytes, events: seq<RecvEvent>, startAudio: bool, cut: Option<nat>): seq<bytes>
  {
    var arrivals := ArrivalsOf([], events);
    match StartOutcome(suite, bootstrap, arrivals, startAudio, cut)
    case Failure(_) => []
    case Success(start) => FramesOf(StreamContext(suite, start.0), AvOf(Heard(suite, bootstrap, arrivals)))
  }

  /** The chunks of a stream that parses, from a camera that stays and whose time syncs can be read. */
  ghost predicate Readable(suite: Crypto.Suite, bootstrap: bytes, events: seq<RecvEvent>) {
    && Data([]) !in events && ParseStream(BytesOf(events)).Success?
    && SyncFault(suite, bootstrap, StreamPackets(BytesOf(events))) == None
  }

  /** The batches of a readable stream hold its packets, all of which are heard. */
  lemma ReadableIsHeard(suite: Crypto.Suite, bootstrap: bytes, events: seq<RecvEvent>)
    requires Readable(suite, bootstrap, events)
    ensures var arrivals := ArrivalsOf([], events);
            && arrivals.ending == Waiting && Concat(arrivals.batches) == StreamPackets(BytesOf(events))
            && Heard(suite, bootstrap, arrivals) == StreamPackets(BytesOf(events))
            && MediaStop(suite, bootstrap, arrivals) == Blocked
  {
    hide ParseStream, SyncFault, ArrivalsOf;
    OpenArrivals(events);
    AllIsHeard(suite, bootstrap, ArrivalsOf([], events));
  }

  /** Over a readable stream a division into chunks delivers the whole stream's frames, under the prefix its batches
      grant, exactly when its batches start the connection; otherwise it delivers nothing. */
  lemma DeliveredIs(
      suite: Crypto.Suite, bootstrap: bytes, events: seq<RecvEvent>, startAudio: bool, prefix: bytes,
      cut: Option<nat>)
    requires Readable(suite, bootstrap, events)
    ensures var batches := ArrivalsOf([], events).batches;
            && (Starts(suite, bootstrap, batches, startAudio, prefix, cut) ==>
                  Delivered(suite, bootstrap, events, startAudio, cut)
                  == StreamFrames(suite, prefix, BytesOf(events)))
            && ((forall p :: !Starts(suite, bootstrap, batches, startAudio, p, cut)) ==>
                  Delivered(suite, bootstrap, events, startAudio, cut) == [])
  {
    hide ParseStream, SyncFault, ArrivalsOf, StartOutcome, Starts, FramesOf, AvOf, Readable;
    ReadableIsHeard(suite, bootstrap, events);
    var arrivals := ArrivalsOf([], events);
    StartsIff(suite, bootstrap, arrivals.batches, arrivals.ending, startAudio, prefix, cut);
    var start := StartOutcome(suite, bootstrap, arrivals, startAudio, cut);
    if start.Success? {
      StartsIff(suite, bootstrap, arrivals.batches, arrivals.ending, startAudio, start.value.0, cut);
    }
  }

  /** The prefix of a start was granted by one of the packets. */
  lemma StartIsGranted(
      suite: Crypto.Suite, bootstrap: bytes, batches: seq<seq<Packet>>, startAudio: bool, prefix: bytes,
      cut: Option<nat>)
    requires Starts(suite, bootstrap, batches, startAudio, prefix, cut)
    requires GrantsAgree(suite, bootstrap, Concat(batches))
    ensures FirstGrant(suite, bootstrap, Concat(batches)) == Some(prefix)
  {
    hide GrantedPrefix, GrantsAgree, FirstGrant, SyncFault, AnsweredAfterSyncs, HearsAudio;
    var i: nat, j: nat, k: nat, l: nat :|
      && Connects(suite, bootstrap, batches, prefix, i, j, k, cut)
      && HearsAudio(suite, bootstrap, batches, startAudio, k, l);
    var auth := LastAnswer(batches[i], 1, LAN_AUTH_COMMAND).value;
    InBatch(batches, i, Rpc(auth));
    GrantIsFirst(suite, bootstrap, Concat(batches), auth);
  }

  lemma {:induction false} InBatch(batches: seq<seq<Packet>>, i: nat, packet: Packet)
    requires i < |batches| && packet in batches[i]
    ensures packet in Concat(batches)
    decreases i
  {
    if i > 0 {
      InBatch(batches[1..], i - 1, packet);
    }
  }

  /** Which runs over one readable stream, divided in one way and in another, deliver the same frames, when all grants
      agree and there are frames: those whose batches both start the connection, or both do not. */
  lemma SameFramesIff(
      suite: Crypto.Suite, bootstrap: bytes, one: seq<RecvEvent>, oneCut: Option<nat>, other: seq<RecvEvent>,
      otherCut: Option<nat>, startAudio: bool, prefix: bytes)
    requires BytesOf(one) == BytesOf(other)
    requires Readable(suite, bootstrap, one) && Readable(suite, bootstrap, other)
    requires GrantsAgree(suite, bootstrap, StreamPackets(BytesOf(one)))
    requires FirstGrant(suite, bootstrap, StreamPackets(BytesOf(one))) == Some(prefix)
    requires StreamFrames(suite, prefix, BytesOf(one)) != []
    ensures Delivered(suite, bootstrap, one, startAudio, oneCut)
            == Delivered(suite, bootstrap, other, startAudio, otherCut)
            <==>
            (Starts(suite, bootstrap, ArrivalsOf([], one).batches, startAudio, prefix, oneCut) <==>
             Starts(suite, bootstrap, ArrivalsOf([], other).batches, startAudio, prefix, otherCut))
  {
    hide ArrivalsOf, Starts, Delivered, GrantsAgree, FirstGrant, StreamFrames, StreamPackets, Readable;
    StartsOnlyWithGrant(suite, bootstrap, one, startAudio, prefix, oneCut);
    StartsOnlyWithGrant(suite, bootstrap, other, startAudio, prefix, otherCut);
    DeliveredIs(suite, bootstrap, one, startAudio, prefix, oneCut);
    DeliveredIs(suite, bootstrap, other, startAudio, prefix, otherCut);
  }

  lemma StartsOnlyWithGrant(
      suite: Crypto.Suite, bootstrap: bytes, events: seq<RecvEvent>, startAudio: bool, prefix: bytes,
      cut: Option<nat>)
    requires Readable(suite, bootstrap, events)
    requires GrantsAgree(suite, bootstrap, StreamPackets(BytesOf(events)))
    requires FirstGrant(suite, bootstrap, StreamPackets(BytesOf(events))) == Some(prefix)
    ensures forall p | Starts(suite, bootstrap, ArrivalsOf([], events).batches, startAudio, p, cut) :: p == prefix
  {
    hide ArrivalsOf, Starts, GrantsAgree, FirstGrant, StreamPackets, Readable;
    ReadableIsHeard(suite, bootstrap, events);
    forall p | Starts(suite, bootstrap, ArrivalsOf([], events).batches, startAudio, p, cut)
      ensures p == prefix
    {
      StartIsGranted(suite, bootstrap, ArrivalsOf([], events).batches, startAudio, p, cut);
    }
  }

  // ----- one connection -----

  lemma NothingLeft(stream: bytes)
    ensures stream + BytesOf([]) == stream
  {
  }

  lemma {:induction false} AwaitKeepsStop(
      suite: Crypto.Suite, bootstrap: bytes, ahead: Arrivals, sequence: nat, commandId: nat)
    ensures var r := AwaitAnswer(suite, bootstrap, ahead, sequence, commandId);
            r.Success? ==> MediaStop(suite, bootstrap, r.value.1) == MediaStop(suite, bootstrap, ahead)
    decreases |ahead.batches|
  {
    hide SyncFault, LastAnswer;
    if ahead.batches != [] {
      AwaitKeepsStop(suite, bootstrap, ahead.Tail(), sequence, commandId);
    }
  }

  lemma {:induction false} SyncsKeepStop(
      suite: Crypto.Suite, bootstrap: bytes, ahead: Arrivals, replies: nat, cut: Option<nat>)
    ensures var r := AwaitSyncs(suite, bootstrap, ahead, replies, cut);
            r.Success? ==> MediaStop(suite, bootstrap, r.value) == MediaStop(suite, bootstrap, ahead)
    decreases |ahead.batches|
  {
    hide SyncFault;
    if ahead.batches != [] && replies < 2 && cut != Some(0) {
      SyncsKeepStop(suite, bootstrap, ahead.Tail(), replies + |SyncsOf(ahead.batches[0])|,
                    if cut.None? then None else Some(cut.value - 1));
    }
  }

  /** The steps before the media loop take batches without faults only, so the stop ahead stays the same. */
  lemma StartKeepsStop(
      suite: Crypto.Suite, bootstrap: bytes, ahead: Arrivals, startAudio: bool, cut: Option<nat>)
    ensures var start := StartOutcome(suite, bootstrap, ahead, startAudio, cut);
            start.Success? ==> MediaStop(suite, bootstrap, start.value.1) == MediaStop(suite, bootstrap, ahead)
  {
    hide AwaitAnswer, AwaitSyncs, MediaStop, GrantedPrefix, AudioOffer;
    var auth := AwaitAnswer(suite, bootstrap, ahead, 1, LAN_AUTH_COMMAND);
    AwaitKeepsStop(suite, bootstrap, ahead, 1, LAN_AUTH_COMMAND);
    if auth.Success? {
      AwaitKeepsStop(suite, bootstrap, auth.value.1, 2, SYNC_COMMAND);
      var sync := AwaitAnswer(suite, bootstrap, auth.value.1, 2, SYNC_COMMAND);
      if sync.Success? {
        SyncsKeepStop(suite, bootstrap, sync.value.1, 0, cut);
        var synced := AwaitSyncs(suite, bootstrap, sync.value.1, 0, cut);
        if synced.Success? {
          AwaitKeepsStop(suite, bootstrap, synced.value, 3, VIDEO_START_COMMAND);
          var video := AwaitAnswer(suite, bootstrap, synced.value, 3, VIDEO_START_COMMAND);
          if video.Success? {
            AwaitKeepsStop(suite, bootstrap, video.value.1, 4, AUDIO_START_COMMAND);
          }
        }
      }
    }
  }

  /** Connects and, when asked to, starts the audio: everything before the media loop. */
  method StartUp(client: CameraClient, startAudio: bool)
    returns (phase: Phase, r: Result<(), Stop>, ghost cut: Option<nat>, ghost wait: Place)
    requires client.Valid()
    modifies client
    ensures client.Valid() && client.ticks > old(client.ticks) && client.earlier == old(client.sent)
    ensures phase == Media <==> r.Success?
    ensures phase == StartingAudio ==> startAudio
    ensures client.Placed(ArrivalsOf([], old(client.inbox)), cut, RequestsIn(client.log))
    ensures 1 <= |RequestsIn(client.log)|
    ensures phase == Connecting ==> |RequestsIn(client.log)| <= 3
    ensures phase == StartingAudio ==> |RequestsIn(client.log)| == 4
    ensures phase == Media ==> |RequestsIn(client.log)| == if startAudio then 4 else 3
    ensures Within(client.log, 0, old(client.ticks), client.ticks) && BeatsIn(client.log) == []
    ensures r.Success? || r == Failure(Blocked) ==>
              && client.Queued() && client.At(ArrivalsOf([], old(client.inbox)))
              && client.stream + BytesOf(client.inbox) == BytesOf(old(client.inbox))
              && (forall i | 0 <= i < |client.heardAt| :: old(client.ticks) < client.heardAt[i] <= client.ticks)
    ensures r == Failure(Blocked) ==> client.inbox == [] && client.stream == BytesOf(old(client.inbox))
    ensures r.Success? ==>
              && client.seen + Heard(client.suite, client.bootstrapPrefix, client.Ahead())
                 == Heard(client.suite, client.bootstrapPrefix, ArrivalsOf([], old(client.inbox)))
              && client.sessionPrefix.Some? && client.GrantedIn(client.sessionPrefix.value, client.seen)
              && client.ConnectAccepted(client.seen) && (startAudio ==> client.AudioAgreed(client.seen))
              && client.nextSequence == 5 && (cut == None ==> client.SyncedFirst(client.log))
    ensures (r.Failure? && IsTimeout(r.error))
            || StartOutcome(client.suite, client.bootstrapPrefix, ArrivalsOf([], old(client.inbox)), startAudio, cut)
               == if r.Success? then Success((client.sessionPrefix.value, client.Ahead()))
                  else Failure((phase, r.error))
    ensures r.Failure? && IsTimeout(r.error) ==> client.Late(ArrivalsOf([], old(client.inbox)), r.error)
    ensures cut.Some? ==> TwoSeconds(client.clock, wait, cut.value, client.heardAt, client.log)
    ensures Paced(client.ticks, client.heardAt, client.log)
  {
    hide ParseStream, ArrivalsOf, AvOf, BytesOf, GrantedPrefix, Answers, SyncsOf, Heard, ConnectOutcome, AudioOutcome;
    hide AnsweredIn, BeatsIn, RequestsIn, CameraClient.Accepted, CameraClient.AudioAgreed, CameraClient.GrantedIn;
    hide CameraClient.Placed, CameraClient.Late, CameraClient.Logged, CameraClient.SyncedFirst, AheadAt, GoesOn, Spoke;
    hide Paced, TwoSeconds, From, Within;
    ghost var arrivals, base := ArrivalsOf([], client.inbox), client.ticks;
    var connection;
    connection, cut, wait := client.Connect();
    NothingLeft(client.stream);
    if connection.Failure? {
      return Connecting, Failure(connection.error), cut, wait;
    }
    ghost var was := client.Here();
    if startAudio {
      AheadConnected(client.suite, client.bootstrapPrefix, arrivals, cut);
      var audio := client.StartAudio(arrivals, cut);
      NothingLeft(client.stream);
      SpokeFrom(was, client.Here(), base);
      if cut.Some? {
        SpokeOn(was, client.Here());
        TwoSecondsStay(client.clock, wait, cut.value, was.heardAt, was.log, client.heardAt, client.log);
      }
      if audio.Failure? {
        if audio.error == Blocked {
          GoesOnFrom(client.suite, client.bootstrapPrefix, was, client.Here(), base);
        }
        return StartingAudio, Failure(audio.error), cut, wait;
      }
      GoesOnFrom(client.suite, client.bootstrapPrefix, was, client.Here(), base);
      client.StillGranted(client.sessionPrefix.value, was.seen, client.seen);
      client.StillAccepted(was.seen, client.seen);
      if cut == None {
        client.StillSynced(was.log, client.log);
      }
    }
    return Media, Success(()), cut, wait;
  }

  /** What was sent since the start was sent between readings taken since. */
  lemma SpokeFrom(was: Place, now: Place, base: nat)
    requires Spoke(was, now) && Within(was.log, 0, base, was.ticks) && base <= was.ticks
    ensures Within(now.log, 0, base, now.ticks) && BeatsIn(now.log) == BeatsIn(was.log) && was.log <= now.log
  {
    hide BeatsIn;
  }

  lemma GoesOnFrom(suite: Crypto.Suite, bootstrap: bytes, was: Place, now: Place, base: nat)
    requires GoesOn(suite, bootstrap, was, now) && base <= was.ticks
    requires forall i | 0 <= i < |was.heardAt| :: base < was.heardAt[i] <= was.ticks
    ensures forall i | 0 <= i < |now.heardAt| :: base < now.heardAt[i] <= now.ticks
    ensures was.seen <= now.seen && now.input == was.input
    ensures now.seen + Heard(suite, bootstrap, now.ahead) == was.seen + Heard(suite, bootstrap, was.ahead)
  {
    hide Heard;
  }

  /** The media loop begins where the start-up ends: with what the start-up left of the arrivals and of the queue, after
      all its readings, the batches it read and the lines it sent. */
  ghost predicate Begins(
      client: CameraClient, loop: Loop, arrivals: Arrivals, base: nat, prefix: bytes, rest: Arrivals)
  {
    && client.Hosts(loop) && loop.context == StreamContext(client.suite, prefix) && loop.firstSequence == 5
    && Sound(loop) && loop.ahead == rest && |loop.heardAt| <= |arrivals.batches|
    && rest == From(arrivals.batches, arrivals.ending, |loop.heardAt|)
    && loop.AllHeard() == Heard(client.suite, client.bootstrapPrefix, arrivals)
    && base < loop.start && (forall i | 0 <= i < |loop.heardAt| :: base < loop.heardAt[i] <= loop.start)
    && Within(loop.said, 0, base, loop.start) && BeatsIn(loop.said) == []
    && Paced(loop.start, loop.heardAt, loop.said)
  }

  /** A connection that is up begins its media loop soundly. */
  lemma BeginsHere(client: CameraClient, arrivals: Arrivals, base: nat)
    requires client.Queued() && client.At(arrivals) && client.sessionPrefix.Some? && client.nextSequence == 5
    requires client.seen + Heard(client.suite, client.bootstrapPrefix, client.Ahead())
             == Heard(client.suite, client.bootstrapPrefix, arrivals)
    requires base < client.ticks && forall i | 0 <= i < |client.heardAt| :: base < client.heardAt[i] <= client.ticks
    requires Within(client.log, 0, base, client.ticks) && BeatsIn(client.log) == []
    requires Paced(client.ticks, client.heardAt, client.log)
    ensures Begins(client, client.LoopHere(), arrivals, base, client.sessionPrefix.value, client.Ahead())
  {
    hide ParseStream, ArrivalsOf, AvOf, SyncsOf, AnsweredIn, BeatsIn, Heard, From, Within, Paced, StreamContext;
    hide CameraClient.Logged;
  }

  lemma GrantFound(client: CameraClient, prefix: bytes, seen: seq<Packet>, packets: seq<Packet>)
    requires client.GrantedIn(prefix, seen) && seen <= packets
    requires GrantsAgree(client.suite, client.bootstrapPrefix, packets)
    ensures FirstGrant(client.suite, client.bootstrapPrefix, packets) == Some(prefix)
  {
    hide GrantedPrefix;
    client.StillGranted(prefix, seen, packets);
    var auth: RPCPacket :|
      && Rpc(auth) in packets && Answers(Rpc(auth), 1, LAN_AUTH_COMMAND)
      && GrantedPrefix(client.suite, client.bootstrapPrefix, auth) == Success(prefix);
    GrantIsFirst(client.suite, client.bootstrapPrefix, packets, auth);
  }

  /** What a connection in the media phase has delivered and said. */
  ghost predicate Delivers(
      loop: Loop, heard: seq<Packet>, final: Stop, withAudio: bool, trace: Trace, stop: Stop, log: seq<Line>)
  {
    var media := AvOf(heard);
    && trace.frames <= FramesOf(loop.context, media) && trace.audio <= AudioOf(media)
    && AnsweredIn(log) <= SyncsOf(heard) && BeatsIn(log) == Beats(trace.All())
    && RequestsIn(log) == RequestsIn(loop.said)
    && (!IsTimeout(stop) ==>
          && stop == final && trace.frames == FramesOf(loop.context, media)
          && trace.audio == (if withAudio then AudioOf(media) else []) && AnsweredIn(log) == SyncsOf(heard))
  }

  lemma MediaDelivers(client: CameraClient, loop: Loop, withAudio: bool, trace: Trace, stop: Stop)
    requires client.Ended(loop, withAudio, trace, stop) && Sound(loop) && BeatsIn(loop.said) == []
    ensures Delivers(loop, loop.AllHeard(), loop.Final(), withAudio, trace, stop, client.log)
    ensures IsTimeout(stop) <==> stop in {Raised(NoActivity), Raised(NoFrame)}
    ensures loop.said <= client.log && loop.heardAt <= client.heardAt
    ensures stop == Blocked ==>
              client.seen == loop.AllHeard() && client.connected && client.inbox == [] && client.Valid()
  {
    hide Ends, Turns, Taken, Lines, Beats, AvOf, SyncsOf, AnsweredIn, BeatsIn, RequestsIn, FramesOf, AudioOf, Fresh;
    hide ReadAt, Heard, MediaStop, CameraClient.Logged, ParseStream, StreamContext;
    LoopDelivers(loop, trace.passed, trace.last, stop);
    MediaGrows(loop.context, AvOf(Taken(trace.All())), AvOf(loop.AllHeard()));
    assert [] + Beats(trace.All()) == Beats(trace.All());
  }

  /** Runs one connection over an inbox, however it is divided into chunks and wherever the deadlines fall.

      How far it comes, under which prefix, and how it ends are functions of the batches, of the point `cut` at which
      two seconds ended the wait for time syncs, if they did, and of nothing else, unless a deadline passes. A late
      answer is one that no batch read since its request holds, when the timeout has passed on the clock since that
      request was sent, after the batches before it were read; the two seconds are counted from the beginning of the
      wait that they end. In the media phase the turns of the loop, which begins where the start-up ends, say what was
      delivered and sent and at which readings of the clock; the frames and audio are those of all packets heard, and
      the replies on the wire are those to all time-sync requests heard, once and in order. */
  method RunConnection(client: CameraClient, startAudio: bool, withAudio: bool)
    returns (phase: Phase, stop: Stop, trace: Trace, ghost cut: Option<nat>, ghost wait: Place, ghost loop: Loop)
    requires client.Valid()
    modifies client
    ensures client.Valid() && client.earlier == old(client.sent) && client.ticks > old(client.ticks)
    ensures var arrivals := ArrivalsOf([], old(client.inbox));
            var start := StartOutcome(client.suite, client.bootstrapPrefix, arrivals, startAudio, cut);
            || (phase != Media && client.Late(arrivals, stop))
            || (start.Failure? && (phase, stop) == start.error)
            || (&& start.Success? && phase == Media && client.sessionPrefix == Some(start.value.0)
                && Begins(client, loop, arrivals, old(client.ticks), start.value.0, start.value.1)
                && client.Ended(loop, withAudio, trace, stop))
    ensures phase == Media ==>
              var arrivals := ArrivalsOf([], old(client.inbox));
              Delivers(loop, Heard(client.suite, client.bootstrapPrefix, arrivals),
                       MediaStop(client.suite, client.bootstrapPrefix, arrivals), withAudio, trace, stop, client.log)
    ensures phase != Media ==>
              && trace == NO_TRACE && BeatsIn(client.log) == []
              && Within(client.log, 0, old(client.ticks), client.ticks)
              && Paced(client.ticks, client.heardAt, client.log)
    ensures client.Placed(ArrivalsOf([], old(client.inbox)), cut, RequestsIn(client.log))
    ensures match phase
            case Connecting => 1 <= |RequestsIn(client.log)| <= 3
            case StartingAudio => startAudio && |RequestsIn(client.log)| == 4
            case Media => |RequestsIn(client.log)| == if startAudio then 4 else 3
    ensures IsTimeout(stop) <==>
            (phase != Media && client.Late(ArrivalsOf([], old(client.inbox)), stop))
            || (phase == Media && stop in {Raised(NoActivity), Raised(NoFrame)})
    ensures !IsTimeout(stop) ==>
              trace.frames == Delivered(client.suite, client.bootstrapPrefix, old(client.inbox), startAudio, cut)
    ensures cut.Some? ==> TwoSeconds(client.clock, wait, cut.value, client.heardAt, client.log)
    ensures stop == Blocked ==>
              var stream := BytesOf(old(client.inbox));
              && Data([]) !in old(client.inbox) && client.inbox == []
              && ParseStream(stream) == Success((client.seen, client.buffer))
              && client.stream == stream && client.Answered() == SyncsOf(StreamPackets(stream))
    ensures stop == Blocked && phase == Media ==>
              var stream := BytesOf(old(client.inbox));
              && trace.frames == StreamFrames(client.suite, client.sessionPrefix.value, stream)
              && trace.audio == (if withAudio then StreamAudio(stream) else [])
              && (GrantsAgree(client.suite, client.bootstrapPrefix, StreamPackets(stream)) ==>
                    client.sessionPrefix == FirstGrant(client.suite, client.bootstrapPrefix, StreamPackets(stream)))
    ensures phase == Media ==>
              && client.ConnectAccepted(loop.seen) && (startAudio ==> client.AudioAgreed(loop.seen))
              && (cut == None ==> client.SyncedFirst(client.log))
    ensures stop.Raised? && !IsTimeout(stop) ==>
              Justified(client.suite, client.bootstrapPrefix, stop.error, old(client.inbox))
  {
    hide ParseStream, ArrivalsOf, FramesOf, AudioOf, AvOf, BytesOf, GrantedPrefix, GrantsAgree, Ends, Turns, Lines;
    hide FirstGrant, MaxSequence, Answers, SyncsOf, Heard, MediaStop, StartOutcome, Justified, Explained, IsGrant;
    hide AnsweredIn, BeatsIn, RequestsIn, Beats, Taken, Fresh, ReadAt, StreamContext, CameraClient.Logged;
    hide CameraClient.Accepted, CameraClient.AudioAgreed, CameraClient.Placed, CameraClient.Late;
    hide CameraClient.SyncedFirst, CameraClient.GrantedIn, CameraClient.Ended, Paced, TwoSeconds, From;
    ghost var suite, bootstrap, events, arrivals, base :=
      client.suite, client.bootstrapPrefix, client.inbox, ArrivalsOf([], client.inbox), client.ticks;
    trace := NO_TRACE;
    loop := Loop(client.clock, 0, suite, bootstrap, StreamContext(suite, []), 0, 0, [], [], [], [], arrivals);
    var started;
    phase, started, cut, wait := StartUp(client, startAudio);
    if started.Failure? {
      client.LateIsTimeout(arrivals, started.error);
      StartFailureIsExplained(suite, bootstrap, arrivals.batches, arrivals.ending, startAudio, cut);
      if !IsTimeout(started.error) && started.error.Raised? {
        ExplainedIsJustified(suite, bootstrap, events, started.error.error);
      }
      if started.error == Blocked {
        WaitingIsOpen(suite, bootstrap, events);
      }
      return phase, started.error, trace, cut, wait, loop;
    }
    StartKeepsStop(suite, bootstrap, arrivals, startAudio, cut);
    ghost var prefix, granted, heardAt, said := client.sessionPrefix.value, client.seen, client.heardAt, client.log;
    BeginsHere(client, arrivals, base);
    stop, trace, loop := client.Frames(withAudio);
    MediaDelivers(client, loop, withAudio, trace, stop);
    MediaStopIsExplained(suite, bootstrap, arrivals);
    MediaStopIsNoTimeout(suite, bootstrap, arrivals);
    if cut == None {
      client.StillSynced(said, client.log);
    } else {
      TwoSecondsStay(client.clock, wait, cut.value, heardAt, said, client.heardAt, client.log);
    }
    if !IsTimeout(stop) && stop.Raised? {
      ExplainedIsJustified(suite, bootstrap, events, stop.error);
    }
    if stop == Blocked {
      WaitingIsOpen(suite, bootstrap, events);
    }
    if stop == Blocked && GrantsAgree(suite, bootstrap, client.seen) {
      GrantFound(client, prefix, granted, client.seen);
    }
  }
}
