/** The handshake as a function of the batches of packets that arrive.

    One `recv` after another is parsed behind the carried remainder; a batch is what one of them completes. A wait
    takes whole batches, so which packets share a batch decides what each wait sees. */
module Handshake {
  import opened Basics
  import opened Pprpc
  import opened Framing
  import opened Messages
  import Crypto

  // ----- arrivals -----

  /** What comes after the last batch: nothing yet, the end of the connection, or bytes that do not parse. */
  datatype Ending = Waiting | PeerLeft | Malformed(error: PacketError)

  datatype Arrivals = Arrivals(batches: seq<seq<Packet>>, ending: Ending) {
    function Tail(): Arrivals
      requires batches != []
    {
      Arrivals(batches[1..], ending)
    }
  }

  /** The batches that a list of `recv` outcomes completes behind a remainder. */
  function ArrivalsOf(rest: bytes, events: seq<RecvEvent>): Arrivals
    decreases |events|
  {
    if events == [] then Arrivals([], Waiting)
    else if events[0].Quiet? then ArrivalsOf(rest, events[1..])
    else if events[0].data == [] then Arrivals([], PeerLeft)
    else
      match ParseStream(rest + events[0].data)
      case Failure(e) => Arrivals([], Malformed(e))
      case Success(parsed) =>
        var later := ArrivalsOf(parsed.1, events[1..]);
        if parsed.0 == [] then later else Arrivals([parsed.0] + later.batches, later.ending)
  }

  /** What is left when the first `n` batches are taken. */
  function From(batches: seq<seq<Packet>>, ending: Ending, n: nat): Arrivals
    requires n <= |batches|
  {
    Arrivals(batches[n..], ending)
  }

  function StopOf(ending: Ending): Stop {
    match ending
    case Waiting => Blocked
    case PeerLeft => Raised(PeerClosed)
    case Malformed(e) => Raised(BadPacket(e))
  }

  /** An error that only a deadline raises. */
  predicate IsTimeout(stop: Stop) {
    stop.Raised? && (stop.error.NoAnswer? || stop.error.NoActivity? || stop.error.NoFrame?)
  }

  // ----- time-sync requests that cannot be answered -----

  function FaultOf(suite: Crypto.Suite, bootstrap: bytes, packet: Packet): Option<ClientError> {
    if !IsTimeSync(packet) then None
    else
      match TimeSyncReply(suite, bootstrap, packet.rpc, 0)
      case Success(_) => None
      case Failure(e) => Some(e)
  }

  /** The error of the first time-sync request that cannot be answered. */
  function SyncFault(suite: Crypto.Suite, bootstrap: bytes, packets: seq<Packet>): Option<ClientError> {
    if packets == [] then None
    else
      match SyncFault(suite, bootstrap, packets[..|packets| - 1])
      case Some(e) => Some(e)
      case None => FaultOf(suite, bootstrap, packets[|packets| - 1])
  }

  /** The packets before that request, or all when there is none. */
  function BeforeFault(suite: Crypto.Suite, bootstrap: bytes, packets: seq<Packet>): seq<Packet> {
    if packets == [] then []
    else
      var front := packets[..|packets| - 1];
      if SyncFault(suite, bootstrap, packets).None? then packets
      else if SyncFault(suite, bootstrap, front).None? then front
      else BeforeFault(suite, bootstrap, front)
  }

  lemma SyncFaultSnoc(suite: Crypto.Suite, bootstrap: bytes, packets: seq<Packet>, last: Packet)
    ensures SyncFault(suite, bootstrap, packets + [last])
         == if SyncFault(suite, bootstrap, packets).Some? then SyncFault(suite, bootstrap, packets)
            else FaultOf(suite, bootstrap, last)
    ensures BeforeFault(suite, bootstrap, packets + [last])
         == if SyncFault(suite, bootstrap, packets).Some? then BeforeFault(suite, bootstrap, packets)
            else if FaultOf(suite, bootstrap, last).Some? then packets else packets + [last]
  {
    hide FaultOf;
    assert (packets + [last])[..|packets|] == packets;
  }

  /** The first fault of two lists is that of the first list, or else that of the second. */
  lemma {:induction false} SyncFaultAppend(suite: Crypto.Suite, bootstrap: bytes, one: seq<Packet>, other: seq<Packet>)
    ensures SyncFault(suite, bootstrap, one + other)
         == if SyncFault(suite, bootstrap, one).Some? then SyncFault(suite, bootstrap, one)
            else SyncFault(suite, bootstrap, other)
    ensures BeforeFault(suite, bootstrap, one + other)
         == if SyncFault(suite, bootstrap, one).Some? then BeforeFault(suite, bootstrap, one)
            else one + BeforeFault(suite, bootstrap, other)
    decreases |other|
  {
    hide FaultOf;
    if other == [] {
      assert one + other == one;
    } else {
      var front, last := other[..|other| - 1], other[|other| - 1];
      SyncFaultAppend(suite, bootstrap, one, front);
      assert other == front + [last];
      SyncFaultSnoc(suite, bootstrap, front, last);
      hide SyncFault, BeforeFault;
      assert one + other == one + front + [last];
      SyncFaultSnoc(suite, bootstrap, one + front, last);
    }
  }

  lemma {:induction false} NoSyncsNoFault(suite: Crypto.Suite, bootstrap: bytes, packets: seq<Packet>)
    requires SyncsOf(packets) == []
    ensures SyncFault(suite, bootstrap, packets) == None
  {
    hide TimeSyncReply;
    if packets != [] {
      NoSyncsNoFault(suite, bootstrap, packets[..|packets| - 1]);
    }
  }

  lemma OthersAreNoFault(suite: Crypto.Suite, bootstrap: bytes, packet: Packet)
    ensures !IsTimeSync(packet) ==> FaultOf(suite, bootstrap, packet) == None
  {
  }

  lemma AnswersAreNoFault(suite: Crypto.Suite, bootstrap: bytes, packet: Packet, sequence: nat, commandId: nat)
    ensures Answers(packet, sequence, commandId) ==> FaultOf(suite, bootstrap, packet) == None
  {
    hide TimeSyncReply;
  }

  lemma NoFaultAllBefore(suite: Crypto.Suite, bootstrap: bytes, packets: seq<Packet>)
    requires SyncFault(suite, bootstrap, packets) == None
    ensures BeforeFault(suite, bootstrap, packets) == packets
  {
    hide FaultOf;
  }

  lemma NoFaultInNothing(suite: Crypto.Suite, bootstrap: bytes)
    ensures SyncFault(suite, bootstrap, []) == None && BeforeFault(suite, bootstrap, []) == []
  {
  }

  lemma FaultIsFirst(suite: Crypto.Suite, bootstrap: bytes, packets: seq<Packet>, i: nat)
    requires i < |packets| && SyncFault(suite, bootstrap, packets[..i]) == None
    requires FaultOf(suite, bootstrap, packets[i]).Some?
    ensures SyncFault(suite, bootstrap, packets) == FaultOf(suite, bootstrap, packets[i])
    ensures BeforeFault(suite, bootstrap, packets) == packets[..i]
  {
    hide FaultOf, SyncFault, BeforeFault;
    SyncFaultSnoc(suite, bootstrap, packets[..i], packets[i]);
    assert packets == (packets[..i] + [packets[i]]) + packets[i + 1..];
    SyncFaultAppend(suite, bootstrap, packets[..i] + [packets[i]], packets[i + 1..]);
  }

  /** Only time-sync requests have faults, and those are unreadable payloads. */
  lemma {:induction false} FaultKinds(suite: Crypto.Suite, bootstrap: bytes, packets: seq<Packet>)
    ensures SyncFault(suite, bootstrap, packets).Some? ==>
              var e := SyncFault(suite, bootstrap, packets).value; e.BadRpc? || e.BadField?
  {
    if packets != [] {
      FaultKinds(suite, bootstrap, packets[..|packets| - 1]);
    }
  }

  // ----- the steps of the handshake -----

  /** Waits for the answer to a request: the first batch that holds one decides, and its last answer counts. */
  function AwaitAnswer(suite: Crypto.Suite, bootstrap: bytes, ahead: Arrivals, sequence: nat, commandId: nat)
    : Result<(RPCPacket, Arrivals), Stop>
    decreases |ahead.batches|
  {
    if ahead.batches == [] then Failure(StopOf(ahead.ending))
    else if SyncFault(suite, bootstrap, ahead.batches[0]).Some? then
      Failure(Raised(SyncFault(suite, bootstrap, ahead.batches[0]).value))
    else
      match LastAnswer(ahead.batches[0], sequence, commandId)
      case None => AwaitAnswer(suite, bootstrap, ahead.Tail(), sequence, commandId)
      case Some(answer) =>
        if answer.responseCode == Some(0) then Success((answer, ahead.Tail()))
        else Failure(Raised(BadCode(commandId, answer.responseCode)))
  }

  /** Reads whole batches until two time syncs were answered, or until `cut` further batches were read when the two
      seconds end the wait there. */
  function AwaitSyncs(suite: Crypto.Suite, bootstrap: bytes, ahead: Arrivals, replies: nat, cut: Option<nat>)
    : Result<Arrivals, Stop>
    decreases |ahead.batches|
  {
    if replies >= 2 || cut == Some(0) then Success(ahead)
    else if ahead.batches == [] then Failure(StopOf(ahead.ending))
    else if SyncFault(suite, bootstrap, ahead.batches[0]).Some? then
      Failure(Raised(SyncFault(suite, bootstrap, ahead.batches[0]).value))
    else
      AwaitSyncs(suite, bootstrap, ahead.Tail(), replies + |SyncsOf(ahead.batches[0])|,
                 if cut.None? then None else Some(cut.value - 1))
  }

  /** None of these batches holds an answer to the request. */
  predicate Unanswered(batches: seq<seq<Packet>>, lo: nat, hi: nat, sequence: nat, commandId: nat) {
    hi <= |batches| && forall h | lo <= h < hi :: LastAnswer(batches[h], sequence, commandId).None?
  }

  lemma AwaitNothing(suite: Crypto.Suite, bootstrap: bytes, ahead: Arrivals, sequence: nat, commandId: nat)
    requires ahead.batches == []
    ensures AwaitAnswer(suite, bootstrap, ahead, sequence, commandId) == Failure(StopOf(ahead.ending))
    ensures !IsTimeout(StopOf(ahead.ending))
  {
  }

  lemma SyncNothing(suite: Crypto.Suite, bootstrap: bytes, ahead: Arrivals)
    requires ahead.batches == []
    ensures AwaitSyncs(suite, bootstrap, ahead, 0, None) == Failure(StopOf(ahead.ending))
    ensures AwaitSyncs(suite, bootstrap, ahead, 1, None) == Failure(StopOf(ahead.ending))
    ensures !IsTimeout(StopOf(ahead.ending))
  {
  }

  lemma SyncFaulty(suite: Crypto.Suite, bootstrap: bytes, ahead: Arrivals)
    requires ahead.batches != [] && SyncFault(suite, bootstrap, ahead.batches[0]).Some?
    ensures var error := SyncFault(suite, bootstrap, ahead.batches[0]).value;
            && AwaitSyncs(suite, bootstrap, ahead, 0, None) == Failure(Raised(error))
            && AwaitSyncs(suite, bootstrap, ahead, 1, None) == Failure(Raised(error))
  {
  }

  lemma NothingArrives(rest: bytes)
    ensures ArrivalsOf(rest, []) == Arrivals([], Waiting)
  {
  }

  /** One batch of a wait for an answer; an empty batch changes nothing. */
  lemma AwaitBatch(
      suite: Crypto.Suite, bootstrap: bytes, was: Arrivals, now: Arrivals, batch: seq<Packet>,
      sequence: nat, commandId: nat)
    requires was == if batch == [] then now else Arrivals([batch] + now.batches, now.ending)
    ensures AwaitAnswer(suite, bootstrap, was, sequence, commandId)
         == if SyncFault(suite, bootstrap, batch).Some? then
              Failure(Raised(SyncFault(suite, bootstrap, batch).value))
            else if LastAnswer(batch, sequence, commandId).None? then
              AwaitAnswer(suite, bootstrap, now, sequence, commandId)
            else if LastAnswer(batch, sequence, commandId).value.responseCode == Some(0) then
              Success((LastAnswer(batch, sequence, commandId).value, now))
            else
              Failure(Raised(BadCode(commandId, LastAnswer(batch, sequence, commandId).value.responseCode)))
  {
    hide FaultOf;
    assert batch != [] ==> was.Tail() == now;
  }

  function Later(n: nat, cut: Option<nat>): Option<nat> {
    if cut.None? then None else Some(n + cut.value)
  }

  /** After `n` batches and `replies` answers the wait for time syncs stands at `now`, wherever it will be cut. */
  ghost predicate SyncsGoOn(
      suite: Crypto.Suite, bootstrap: bytes, was: Arrivals, n: nat, now: Arrivals, replies: nat)
  {
    forall cut: Option<nat> ::
      AwaitSyncs(suite, bootstrap, was, 0, Later(n, cut)) == AwaitSyncs(suite, bootstrap, now, replies, cut)
  }

  lemma SyncsStart(suite: Crypto.Suite, bootstrap: bytes, was: Arrivals)
    ensures SyncsGoOn(suite, bootstrap, was, 0, was, 0)
  {
    assert forall cut :: Later(0, cut) == cut;
  }

  /** One batch of the wait for time syncs. */
  lemma SyncBatch(
      suite: Crypto.Suite, bootstrap: bytes, was: Arrivals, n: nat, before: Arrivals, now: Arrivals,
      batch: seq<Packet>, replies: nat)
    requires SyncsGoOn(suite, bootstrap, was, n, before, replies) && replies < 2
    requires before == if batch == [] then now else Arrivals([batch] + now.batches, now.ending)
    requires SyncFault(suite, bootstrap, batch) == None
    ensures SyncsGoOn(suite, bootstrap, was, if batch == [] then n else n + 1, now, replies + |SyncsOf(batch)|)
  {
    hide SyncFault;
    if batch != [] {
      var m, more := n + 1, replies + |SyncsOf(batch)|;
      forall cut: Option<nat>
        ensures AwaitSyncs(suite, bootstrap, was, 0, Later(m, cut)) == AwaitSyncs(suite, bootstrap, now, more, cut)
      {
        assert Later(m, cut) == Later(n, Later(1, cut));
        assert before.Tail() == now;
      }
    }
  }

  lemma AwaitSyncsDone(
      suite: Crypto.Suite, bootstrap: bytes, was: Arrivals, n: nat, now: Arrivals, replies: nat)
    requires SyncsGoOn(suite, bootstrap, was, n, now, replies)
    ensures AwaitSyncs(suite, bootstrap, was, 0, Some(n)) == Success(now)
    ensures replies >= 2 ==> AwaitSyncs(suite, bootstrap, was, 0, None) == Success(now)
  {
    assert Later(n, Some(0)) == Some(n) && Later(n, None) == None;
  }

  lemma AwaitSyncsStops(
      suite: Crypto.Suite, bootstrap: bytes, was: Arrivals, n: nat, now: Arrivals, replies: nat)
    requires SyncsGoOn(suite, bootstrap, was, n, now, replies)
    ensures AwaitSyncs(suite, bootstrap, was, 0, None) == AwaitSyncs(suite, bootstrap, now, replies, None)
  {
    assert Later(n, None) == None;
  }

  /** Authentication: the session prefix and the arrivals left, or how it ends otherwise. */
  function AuthOutcome(suite: Crypto.Suite, bootstrap: bytes, ahead: Arrivals): Result<(bytes, Arrivals), Stop> {
    var (auth, after) :- AwaitAnswer(suite, bootstrap, ahead, 1, LAN_AUTH_COMMAND);
    match GrantedPrefix(suite, bootstrap, auth)
    case Failure(e) => Failure(Raised(e))
    case Success(prefix) => Success((prefix, after))
  }

  /** The rest of connecting: synchronising, the initial time syncs, and starting the video. */
  function VideoOutcome(suite: Crypto.Suite, bootstrap: bytes, ahead: Arrivals, cut: Option<nat>)
    : Result<Arrivals, Stop>
  {
    var (_, afterSync) :- AwaitAnswer(suite, bootstrap, ahead, 2, SYNC_COMMAND);
    var synced :- AwaitSyncs(suite, bootstrap, afterSync, 0, cut);
    var (_, afterVideo) :- AwaitAnswer(suite, bootstrap, synced, 3, VIDEO_START_COMMAND);
    Success(afterVideo)
  }

  function ConnectOutcome(suite: Crypto.Suite, bootstrap: bytes, ahead: Arrivals, cut: Option<nat>)
    : Result<(bytes, Arrivals), Stop>
  {
    var (prefix, afterAuth) :- AuthOutcome(suite, bootstrap, ahead);
    var afterVideo :- VideoOutcome(suite, bootstrap, afterAuth, cut);
    Success((prefix, afterVideo))
  }

  /** Connecting after the authentication. */
  lemma AuthConnects(suite: Crypto.Suite, bootstrap: bytes, ahead: Arrivals, prefix: bytes, afterAuth: Arrivals)
    requires AuthOutcome(suite, bootstrap, ahead) == Success((prefix, afterAuth))
    ensures AheadAt(suite, bootstrap, ahead, None, 1) == Some(afterAuth)
    ensures forall cut :: ConnectOutcome(suite, bootstrap, ahead, cut)
                       == match VideoOutcome(suite, bootstrap, afterAuth, cut)
                          case Success(rest) => Success((prefix, rest))
                          case Failure(stop) => Failure(stop)
  {
    hide AuthOutcome, VideoOutcome;
  }

  lemma AuthStops(suite: Crypto.Suite, bootstrap: bytes, ahead: Arrivals, cut: Option<nat>)
    requires AuthOutcome(suite, bootstrap, ahead).Failure?
    ensures ConnectOutcome(suite, bootstrap, ahead, cut) == Failure(AuthOutcome(suite, bootstrap, ahead).error)
  {
    hide AuthOutcome, VideoOutcome;
  }

  /** The start-up commands in the order in which they are requested, under the sequence numbers 1 to 4. */
  function CommandAt(n: nat): nat {
    if n == 0 then LAN_AUTH_COMMAND else if n == 1 then SYNC_COMMAND else if n == 2 then VIDEO_START_COMMAND
    else AUDIO_START_COMMAND
  }

  /** What lies ahead when request `n` is sent, if it comes to that. */
  function AheadAt(suite: Crypto.Suite, bootstrap: bytes, arrivals: Arrivals, cut: Option<nat>, n: nat)
    : Option<Arrivals>
  {
    if n == 0 then Some(arrivals)
    else
      match AuthOutcome(suite, bootstrap, arrivals)
      case Failure(_) => None
      case Success((_, afterAuth)) =>
        if n == 1 then Some(afterAuth)
        else
          match AwaitAnswer(suite, bootstrap, afterAuth, 2, SYNC_COMMAND)
          case Failure(_) => None
          case Success((_, afterSync)) =>
            match AwaitSyncs(suite, bootstrap, afterSync, 0, cut)
            case Failure(_) => None
            case Success(synced) =>
              if n == 2 then Some(synced)
              else
                match AwaitAnswer(suite, bootstrap, synced, 3, VIDEO_START_COMMAND)
                case Failure(_) => None
                case Success((_, afterVideo)) => Some(afterVideo)
  }

  lemma AheadConnected(suite: Crypto.Suite, bootstrap: bytes, arrivals: Arrivals, cut: Option<nat>)
    requires ConnectOutcome(suite, bootstrap, arrivals, cut).Success?
    ensures AheadAt(suite, bootstrap, arrivals, cut, 3)
         == Some(ConnectOutcome(suite, bootstrap, arrivals, cut).value.1)
  {
    hide AwaitAnswer, AwaitSyncs, AuthOutcome;
  }

  function AudioOutcome(suite: Crypto.Suite, bootstrap: bytes, ahead: Arrivals): Result<Arrivals, Stop> {
    var (answer, after) :- AwaitAnswer(suite, bootstrap, ahead, 4, AUDIO_START_COMMAND);
    match AudioOffer(suite, bootstrap, answer)
    case Failure(e) => Failure(Raised(e))
    case Success(_) => Success(after)
  }

  /** How far a connection has come. */
  datatype Phase = Connecting | StartingAudio | Media

  /** Everything before the media loop. */
  function StartOutcome(
      suite: Crypto.Suite, bootstrap: bytes, ahead: Arrivals, startAudio: bool, cut: Option<nat>)
    : Result<(bytes, Arrivals), (Phase, Stop)>
  {
    match ConnectOutcome(suite, bootstrap, ahead, cut)
    case Failure(stop) => Failure((Connecting, stop))
    case Success(connection) =>
      if !startAudio then Success(connection)
      else
        match AudioOutcome(suite, bootstrap, connection.1)
        case Failure(stop) => Failure((StartingAudio, stop))
        case Success(after) => Success((connection.0, after))
  }

  // ----- what the media loop hears -----

  /** All packets up to the first time-sync request that cannot be answered. */
  function Heard(suite: Crypto.Suite, bootstrap: bytes, ahead: Arrivals): seq<Packet>
    decreases |ahead.batches|
  {
    if ahead.batches == [] then []
    else if SyncFault(suite, bootstrap, ahead.batches[0]).Some? then
      BeforeFault(suite, bootstrap, ahead.batches[0])
    else ahead.batches[0] + Heard(suite, bootstrap, ahead.Tail())
  }

  /** How the media loop stops when no deadline passes. */
  function MediaStop(suite: Crypto.Suite, bootstrap: bytes, ahead: Arrivals): Stop
    decreases |ahead.batches|
  {
    if ahead.batches == [] then StopOf(ahead.ending)
    else if SyncFault(suite, bootstrap, ahead.batches[0]).Some? then
      Raised(SyncFault(suite, bootstrap, ahead.batches[0]).value)
    else MediaStop(suite, bootstrap, ahead.Tail())
  }

  /** One batch of what is heard, and of how it stops; an empty batch changes nothing. */
  lemma HearBatch(suite: Crypto.Suite, bootstrap: bytes, was: Arrivals, now: Arrivals, batch: seq<Packet>)
    requires was == if batch == [] then now else Arrivals([batch] + now.batches, now.ending)
    ensures Heard(suite, bootstrap, was)
         == if SyncFault(suite, bootstrap, batch).Some? then BeforeFault(suite, bootstrap, batch)
            else batch + Heard(suite, bootstrap, now)
    ensures MediaStop(suite, bootstrap, was)
         == if SyncFault(suite, bootstrap, batch).Some? then Raised(SyncFault(suite, bootstrap, batch).value)
            else MediaStop(suite, bootstrap, now)
  {
    NoFaultInNothing(suite, bootstrap);
    hide SyncFault, BeforeFault;
    if batch == [] {
      assert batch + Heard(suite, bootstrap, now) == Heard(suite, bootstrap, now);
    } else {
      assert was.Tail() == now;
    }
  }

  /** A batch without a fault moves from what lies ahead to what was seen. */
  lemma BatchHeard(
      suite: Crypto.Suite, bootstrap: bytes, before: seq<Packet>, was: Arrivals, now: Arrivals, batch: seq<Packet>)
    requires was == if batch == [] then now else Arrivals([batch] + now.batches, now.ending)
    requires SyncFault(suite, bootstrap, batch) == None
    ensures before + batch + Heard(suite, bootstrap, now) == before + Heard(suite, bootstrap, was)
    ensures MediaStop(suite, bootstrap, now) == MediaStop(suite, bootstrap, was)
  {
    hide SyncFault, Heard, MediaStop;
    HearBatch(suite, bootstrap, was, now, batch);
    assert before + batch + Heard(suite, bootstrap, now) == before + (batch + Heard(suite, bootstrap, now));
  }

  /** With nothing ahead, what was seen is all that is heard. */
  lemma StopsAtEnd(suite: Crypto.Suite, bootstrap: bytes, seen: seq<Packet>, ahead: Arrivals)
    requires ahead.batches == []
    ensures seen + Heard(suite, bootstrap, ahead) == seen
    ensures MediaStop(suite, bootstrap, ahead) == StopOf(ahead.ending)
  {
  }

  lemma {:induction false} MediaStopIsNoTimeout(suite: Crypto.Suite, bootstrap: bytes, ahead: Arrivals)
    ensures !IsTimeout(MediaStop(suite, bootstrap, ahead))
    decreases |ahead.batches|
  {
    hide SyncFault;
    if ahead.batches != [] {
      FaultKinds(suite, bootstrap, ahead.batches[0]);
      MediaStopIsNoTimeout(suite, bootstrap, ahead.Tail());
    }
  }
}
