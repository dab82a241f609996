/** How a start, or the media loop behind it, ends when it fails: which packet of which batch decides, and with which
    error. */
module HandshakeFailures {
  import opened Basics
  import opened Pprpc
  import opened Rpc
  import opened Protobuf
  import opened Messages
  import opened Handshake
  import opened HandshakeLaws
  import Crypto

  // ----- faults -----

  /** A time-sync request, and no other packet, has a fault: its payload does not open, or its first field 1 is not a
      varint behind varints only. */
  lemma FaultIff(suite: Crypto.Suite, bootstrap: bytes, packet: Packet, error: ClientError)
    ensures FaultOf(suite, bootstrap, packet) == Some(error) <==>
              && packet.Rpc? && packet.rpc.rpcType == 0 && packet.rpc.commandId == 107
              && match DecryptRpcPayload(suite, packet.rpc, bootstrap)
                 case Failure(e) => error == BadRpc(e)
                 case Success(payload) => FirstVarintField(payload, 1).Failure?
                                          && error == BadField(FirstVarintField(payload, 1).error)
  {
    hide DecryptRpcPayload, FirstVarintField, PackRpc, EncodeProtobufVarint;
  }

  /** Whether a reply can be made does not depend on the clock. */
  lemma FaultIgnoresClock(suite: Crypto.Suite, bootstrap: bytes, packet: Packet, wallMs: nat)
    requires IsTimeSync(packet)
    ensures match TimeSyncReply(suite, bootstrap, packet.rpc, wallMs)
            case Success(_) => FaultOf(suite, bootstrap, packet) == None
            case Failure(e) => FaultOf(suite, bootstrap, packet) == Some(e)
  {
    hide DecryptRpcPayload, FirstVarintField, PackRpc, EncodeProtobufVarint;
  }

  /** The fault of a list of packets is that of the first one with a fault, and the packets before it are those before
      the fault. */
  lemma FirstFault(suite: Crypto.Suite, bootstrap: bytes, packets: seq<Packet>, i: nat)
    requires i <= |packets| && forall j | 0 <= j < i :: FaultOf(suite, bootstrap, packets[j]) == None
    requires i < |packets| ==> FaultOf(suite, bootstrap, packets[i]).Some?
    ensures SyncFault(suite, bootstrap, packets)
         == if i < |packets| then FaultOf(suite, bootstrap, packets[i]) else None
    ensures BeforeFault(suite, bootstrap, packets) == packets[..i]
  {
    hide FaultOf, SyncFault, BeforeFault;
    NoneFaulty(suite, bootstrap, packets[..i]);
    if i < |packets| {
      FaultIsFirst(suite, bootstrap, packets, i);
    } else {
      assert packets[..i] == packets;
      NoFaultAllBefore(suite, bootstrap, packets);
    }
  }

  lemma {:induction false} NoneFaulty(suite: Crypto.Suite, bootstrap: bytes, packets: seq<Packet>)
    requires forall j | 0 <= j < |packets| :: FaultOf(suite, bootstrap, packets[j]) == None
    ensures SyncFault(suite, bootstrap, packets) == None
    decreases |packets|
  {
    hide FaultOf;
    if packets != [] {
      NoneFaulty(suite, bootstrap, packets[..|packets| - 1]);
    }
  }

  // ----- each wait, by the first batch that decides it -----

  /** Batch `h` is the first one, from `from` on, with a fault or an answer to the request; there is none when it is
      beyond the last. */
  predicate Decides(
      suite: Crypto.Suite, bootstrap: bytes, batches: seq<seq<Packet>>, from: nat, h: nat, sequence: nat,
      commandId: nat)
  {
    && from <= h <= |batches| && Clean(suite, bootstrap, batches, from, h)
    && (forall g | from <= g < h :: !Replies(batches[g], sequence, commandId))
    && (h < |batches| ==>
          SyncFault(suite, bootstrap, batches[h]).Some? || Replies(batches[h], sequence, commandId))
  }

  /** The wait for an answer ends at the batch that decides it: at a fault with its error, else as the batch's last
      answer says, and without such a batch as the arrivals end. */
  lemma {:induction false} AwaitIs(
      suite: Crypto.Suite, bootstrap: bytes, batches: seq<seq<Packet>>, ending: Ending, from: nat, h: nat,
      sequence: nat, commandId: nat)
    requires Decides(suite, bootstrap, batches, from, h, sequence, commandId)
    ensures AwaitAnswer(suite, bootstrap, From(batches, ending, from), sequence, commandId)
         == if h == |batches| then Failure(StopOf(ending))
            else if SyncFault(suite, bootstrap, batches[h]).Some? then
              Failure(Raised(SyncFault(suite, bootstrap, batches[h]).value))
            else
              var answer := LastAnswer(batches[h], sequence, commandId).value;
              if answer.responseCode == Some(0) then Success((answer, From(batches, ending, h + 1)))
              else Failure(Raised(BadCode(commandId, answer.responseCode)))
    decreases h - from
  {
    hide SyncFault, LastAnswer;
    if from < |batches| {
      assert From(batches, ending, from).Tail() == From(batches, ending, from + 1);
    }
    if from < h {
      assert SyncFault(suite, bootstrap, batches[from]) == None;
      assert !Replies(batches[from], sequence, commandId);
      AwaitIs(suite, bootstrap, batches, ending, from + 1, h, sequence, commandId);
    }
  }

  /** Some batch decides, or none does. */
  lemma {:induction false} OneDecides(
      suite: Crypto.Suite, bootstrap: bytes, batches: seq<seq<Packet>>, from: nat, sequence: nat, commandId: nat)
    returns (h: nat)
    requires from <= |batches|
    ensures Decides(suite, bootstrap, batches, from, h, sequence, commandId)
    decreases |batches| - from
  {
    hide SyncFault, LastAnswer;
    h := from;
    if from < |batches| && SyncFault(suite, bootstrap, batches[from]) == None
       && !Replies(batches[from], sequence, commandId) {
      h := OneDecides(suite, bootstrap, batches, from + 1, sequence, commandId);
    }
  }

  /** Before batch `m` the wait for time syncs is over, or `m` is the first batch with a fault, or none is left. */
  predicate SyncsDecided(
      suite: Crypto.Suite, bootstrap: bytes, batches: seq<seq<Packet>>, from: nat, m: nat, replies: nat,
      cut: Option<nat>)
  {
    && from <= m <= |batches| && Clean(suite, bootstrap, batches, from, m)
    && (forall h | from <= h < m :: !SyncsOver(batches, from, h, replies, cut))
    && (SyncsOver(batches, from, m, replies, cut) || m == |batches|
        || SyncFault(suite, bootstrap, batches[m]).Some?)
  }

  /** The wait for time syncs ends there: it is over, or fails with the fault, or as the arrivals end. */
  lemma {:induction false} SyncsAre(
      suite: Crypto.Suite, bootstrap: bytes, batches: seq<seq<Packet>>, ending: Ending, from: nat, m: nat,
      replies: nat, cut: Option<nat>)
    requires SyncsDecided(suite, bootstrap, batches, from, m, replies, cut)
    ensures AwaitSyncs(suite, bootstrap, From(batches, ending, from), replies, cut)
         == if SyncsOver(batches, from, m, replies, cut) then Success(From(batches, ending, m))
            else if m == |batches| then Failure(StopOf(ending))
            else Failure(Raised(SyncFault(suite, bootstrap, batches[m]).value))
    decreases m - from
  {
    hide SyncFault;
    if from < |batches| {
      assert From(batches, ending, from).Tail() == From(batches, ending, from + 1);
    }
    if from < m {
      assert !SyncsOver(batches, from, from, replies, cut);
      assert SyncFault(suite, bootstrap, batches[from]) == None;
      var next, more, less := from + 1, replies + |SyncsOf(batches[from])|, OneLess(cut);
      forall h | next <= h <= m
        ensures SyncsOver(batches, next, h, more, less) <==> SyncsOver(batches, from, h, replies, cut)
      {
        SyncsOverNext(batches, from, h, replies, cut);
      }
      SyncsAre(suite, bootstrap, batches, ending, next, m, more, less);
    }
  }

  // ----- the first wait that fails -----

  /** Wait `n` of a start: the answers to the authentication and to the synchronisation, the initial time syncs, and the
      answers to the video start and to the audio start. */
  function Wait(suite: Crypto.Suite, bootstrap: bytes, ahead: Arrivals, cut: Option<nat>, n: nat)
    : Result<Arrivals, Stop>
  {
    if n == 0 then
      var (auth, rest) :- AwaitAnswer(suite, bootstrap, ahead, 1, 2650);
      match GrantedPrefix(suite, bootstrap, auth)
      case Failure(e) => Failure(Raised(e))
      case Success(_) => Success(rest)
    else if n == 1 then
      var (_, rest) :- AwaitAnswer(suite, bootstrap, ahead, 2, 106);
      Success(rest)
    else if n == 2 then AwaitSyncs(suite, bootstrap, ahead, 0, cut)
    else if n == 3 then
      var (_, rest) :- AwaitAnswer(suite, bootstrap, ahead, 3, 2610);
      Success(rest)
    else
      var (answer, rest) :- AwaitAnswer(suite, bootstrap, ahead, 4, 2614);
      match AudioOffer(suite, bootstrap, answer)
      case Failure(e) => Failure(Raised(e))
      case Success(_) => Success(rest)
  }

  /** What lies ahead after the first `n` waits, or the first of them that fails and how. */
  function AfterWaits(suite: Crypto.Suite, bootstrap: bytes, all: Arrivals, cut: Option<nat>, n: nat)
    : Result<Arrivals, (nat, Stop)>
  {
    if n == 0 then Success(all)
    else
      var ahead :- AfterWaits(suite, bootstrap, all, cut, n - 1);
      match Wait(suite, bootstrap, ahead, cut, n - 1)
      case Success(rest) => Success(rest)
      case Failure(stop) => Failure((n - 1, stop))
  }

  /** A start goes through its waits one by one and fails exactly as the first of them that fails, while connecting or,
      at the last one, while starting the audio. */
  lemma StartIsItsWaits(
      suite: Crypto.Suite, bootstrap: bytes, all: Arrivals, startAudio: bool, cut: Option<nat>)
    ensures var start := StartOutcome(suite, bootstrap, all, startAudio, cut);
            match AfterWaits(suite, bootstrap, all, cut, if startAudio then 5 else 4)
            case Success(rest) => start.Success? && start.value.1 == rest
            case Failure((n, stop)) => start == Failure((if n == 4 then StartingAudio else Connecting, stop))
  {
    hide AwaitAnswer, AwaitSyncs, GrantedPrefix, AudioOffer;
    assert AfterWaits(suite, bootstrap, all, cut, 0) == Success(all);
    WaitsGoOn(suite, bootstrap, all, cut, 1);
    WaitsGoOn(suite, bootstrap, all, cut, 2);
    WaitsGoOn(suite, bootstrap, all, cut, 3);
    WaitsGoOn(suite, bootstrap, all, cut, 4);
    WaitsGoOn(suite, bootstrap, all, cut, 5);
    hide AfterWaits;
  }

  lemma WaitsGoOn(suite: Crypto.Suite, bootstrap: bytes, all: Arrivals, cut: Option<nat>, n: nat)
    requires n > 0
    ensures AfterWaits(suite, bootstrap, all, cut, n)
         == match AfterWaits(suite, bootstrap, all, cut, n - 1)
            case Failure(end) => Failure(end)
            case Success(ahead) =>
              match Wait(suite, bootstrap, ahead, cut, n - 1)
              case Success(rest) => Success(rest)
              case Failure(stop) => Failure((n - 1, stop))
  {
    hide Wait;
  }

  // ----- the media loop -----

  /** What is heard ends before the first fault of the first batch that has one, and the loop stops with that fault;
      without a fault everything is heard, and the loop stops as the arrivals end. */
  lemma {:induction false} HeardIs(
      suite: Crypto.Suite, bootstrap: bytes, batches: seq<seq<Packet>>, ending: Ending, from: nat, h: nat)
    requires from <= h <= |batches| && Clean(suite, bootstrap, batches, from, h)
    requires h < |batches| ==> SyncFault(suite, bootstrap, batches[h]).Some?
    ensures Heard(suite, bootstrap, From(batches, ending, from))
         == Concat(batches[from..h]) + if h < |batches| then BeforeFault(suite, bootstrap, batches[h]) else []
    ensures MediaStop(suite, bootstrap, From(batches, ending, from))
         == if h < |batches| then Raised(SyncFault(suite, bootstrap, batches[h]).value) else StopOf(ending)
    decreases h - from
  {
    hide SyncFault, BeforeFault;
    if from < |batches| {
      assert From(batches, ending, from).Tail() == From(batches, ending, from + 1);
    }
    if from < h {
      assert SyncFault(suite, bootstrap, batches[from]) == None;
      HeardIs(suite, bootstrap, batches, ending, from + 1, h);
      assert batches[from..h] == [batches[from]] + batches[from + 1..h];
      ConcatCons(batches[from], batches[from + 1..h]);
    } else {
      assert batches[from..h] == [];
    }
  }
}
