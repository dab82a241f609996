/** Every error that no deadline raises has its cause in what arrived. */
module HandshakeErrors {
  import opened Basics
  import opened Pprpc
  import opened Framing
  import opened Protobuf
  import opened Rpc
  import opened Messages
  import opened Handshake
  import opened HandshakeLaws
  import Crypto

  /** The sequence number under which a start-up command is sent. */
  function SequenceOf(commandId: nat): nat {
    if commandId == LAN_AUTH_COMMAND then 1
    else if commandId == SYNC_COMMAND then 2
    else if commandId == VIDEO_START_COMMAND then 3
    else 4
  }

  /** A packet that makes the client raise: a command was refused with the code reported, or a time-sync request, an
      authentication answer or an audio answer cannot be read or is not acceptable. */
  predicate Faulty(suite: Crypto.Suite, bootstrap: bytes, packet: Packet, error: ClientError) {
    || (error.BadCode? && Answers(packet, SequenceOf(error.commandId), error.commandId)
        && packet.rpc.responseCode == error.code != Some(0))
    || FaultOf(suite, bootstrap, packet) == Some(error)
    || (Answers(packet, 1, LAN_AUTH_COMMAND) && GrantedPrefix(suite, bootstrap, packet.rpc) == Failure(error))
    || (Answers(packet, 4, AUDIO_START_COMMAND) && AudioOffer(suite, bootstrap, packet.rpc) == Failure(error))
  }

  /** A stop that the arrivals explain: they end that way, or one of their packets is faulty. */
  ghost predicate Explained(suite: Crypto.Suite, bootstrap: bytes, ahead: Arrivals, stop: Stop) {
    || stop == StopOf(ahead.ending)
    || (stop.Raised? && exists p :: p in Concat(ahead.batches) && Faulty(suite, bootstrap, p, stop.error))
  }

  lemma {:induction false} FaultIsFaulty(suite: Crypto.Suite, bootstrap: bytes, packets: seq<Packet>)
    requires SyncFault(suite, bootstrap, packets).Some?
    ensures exists p :: p in packets && Faulty(suite, bootstrap, p, SyncFault(suite, bootstrap, packets).value)
  {
    hide FaultOf, GrantedPrefix, AudioOffer;
    var front, last := packets[..|packets| - 1], packets[|packets| - 1];
    if SyncFault(suite, bootstrap, front).Some? {
      FaultIsFaulty(suite, bootstrap, front);
      var p :| p in front && Faulty(suite, bootstrap, p, SyncFault(suite, bootstrap, front).value);
      assert p in packets;
    } else {
      assert last in packets && Faulty(suite, bootstrap, last, SyncFault(suite, bootstrap, packets).value);
    }
  }

  lemma FirstBatchExplains(suite: Crypto.Suite, bootstrap: bytes, ahead: Arrivals, packet: Packet, error: ClientError)
    requires ahead.batches != [] && packet in ahead.batches[0] && Faulty(suite, bootstrap, packet, error)
    ensures Explained(suite, bootstrap, ahead, Raised(error))
  {
    hide Faulty;
    assert packet in Concat(ahead.batches);
  }

  lemma TailExplains(suite: Crypto.Suite, bootstrap: bytes, ahead: Arrivals, stop: Stop)
    requires ahead.batches != [] && Explained(suite, bootstrap, ahead.Tail(), stop)
    ensures Explained(suite, bootstrap, ahead, stop)
  {
    hide Faulty;
    assert forall p | p in Concat(ahead.batches[1..]) :: p in Concat(ahead.batches);
  }

  lemma {:induction false} LaterExplains(
      suite: Crypto.Suite, bootstrap: bytes, batches: seq<seq<Packet>>, ending: Ending, n: nat, stop: Stop)
    requires n <= |batches| && Explained(suite, bootstrap, From(batches, ending, n), stop)
    ensures Explained(suite, bootstrap, Arrivals(batches, ending), stop)
    decreases n
  {
    hide Explained;
    if n == 0 {
      assert From(batches, ending, 0) == Arrivals(batches, ending);
    } else {
      assert From(batches, ending, n - 1).Tail() == From(batches, ending, n);
      TailExplains(suite, bootstrap, From(batches, ending, n - 1), stop);
      LaterExplains(suite, bootstrap, batches, ending, n - 1, stop);
    }
  }

  lemma EndExplains(suite: Crypto.Suite, bootstrap: bytes, ahead: Arrivals)
    ensures Explained(suite, bootstrap, ahead, StopOf(ahead.ending))
  {
  }

  lemma TailFrom(ahead: Arrivals, n: nat)
    requires n < |ahead.batches|
    ensures From(ahead.Tail().batches, ahead.ending, n) == From(ahead.batches, ahead.ending, n + 1)
  {
  }

  lemma FaultExplains(suite: Crypto.Suite, bootstrap: bytes, ahead: Arrivals)
    requires ahead.batches != [] && SyncFault(suite, bootstrap, ahead.batches[0]).Some?
    ensures Explained(suite, bootstrap, ahead, Raised(SyncFault(suite, bootstrap, ahead.batches[0]).value))
  {
    hide Faulty, SyncFault, Explained;
    var e := SyncFault(suite, bootstrap, ahead.batches[0]).value;
    FaultIsFaulty(suite, bootstrap, ahead.batches[0]);
    var p :| p in ahead.batches[0] && Faulty(suite, bootstrap, p, e);
    FirstBatchExplains(suite, bootstrap, ahead, p, e);
  }

  lemma {:induction false} AwaitExplained(
      suite: Crypto.Suite, bootstrap: bytes, ahead: Arrivals, sequence: nat, commandId: nat)
    requires sequence == SequenceOf(commandId)
    ensures var r := AwaitAnswer(suite, bootstrap, ahead, sequence, commandId);
            r.Failure? ==> Explained(suite, bootstrap, ahead, r.error)
    ensures var r := AwaitAnswer(suite, bootstrap, ahead, sequence, commandId);
            r.Success? ==> Rpc(r.value.0) in Concat(ahead.batches) && Answers(Rpc(r.value.0), sequence, commandId)
    decreases |ahead.batches|
  {
    hide SyncFault, Faulty, LastAnswer;
    if ahead.batches == [] {
    } else if SyncFault(suite, bootstrap, ahead.batches[0]).Some? {
      FaultExplains(suite, bootstrap, ahead);
    } else {
      var found := LastAnswer(ahead.batches[0], sequence, commandId);
      if found.None? {
        AwaitExplained(suite, bootstrap, ahead.Tail(), sequence, commandId);
        if AwaitAnswer(suite, bootstrap, ahead, sequence, commandId).Failure? {
          TailExplains(suite, bootstrap, ahead, AwaitAnswer(suite, bootstrap, ahead, sequence, commandId).error);
        }
      } else if found.value.responseCode != Some(0) {
        RefusedIsFaulty(suite, bootstrap, found.value, sequence, commandId);
        FirstBatchExplains(suite, bootstrap, ahead, Rpc(found.value), BadCode(commandId, found.value.responseCode));
      }
    }
  }

  lemma RefusedIsFaulty(
      suite: Crypto.Suite, bootstrap: bytes, answer: RPCPacket, sequence: nat, commandId: nat)
    requires Answers(Rpc(answer), sequence, commandId) && sequence == SequenceOf(commandId)
    requires answer.responseCode != Some(0)
    ensures Faulty(suite, bootstrap, Rpc(answer), BadCode(commandId, answer.responseCode))
  {
    hide FaultOf, GrantedPrefix, AudioOffer;
  }

  lemma {:induction false} SyncsExplained(
      suite: Crypto.Suite, bootstrap: bytes, ahead: Arrivals, replies: nat, cut: Option<nat>)
    ensures var r := AwaitSyncs(suite, bootstrap, ahead, replies, cut);
            && (r.Failure? ==> Explained(suite, bootstrap, ahead, r.error))
            && (r.Success? ==> exists n: nat | n <= |ahead.batches| :: r.value == From(ahead.batches, ahead.ending, n))
    decreases |ahead.batches|
  {
    hide SyncFault, SyncsOf, Explained;
    assert ahead == From(ahead.batches, ahead.ending, 0);
    hide From;
    EndExplains(suite, bootstrap, ahead);
    if replies < 2 && cut != Some(0) && ahead.batches != [] {
      if SyncFault(suite, bootstrap, ahead.batches[0]).Some? {
        FaultExplains(suite, bootstrap, ahead);
      } else {
        var more, less := replies + |SyncsOf(ahead.batches[0])|, if cut.None? then None else Some(cut.value - 1);
        SyncsExplained(suite, bootstrap, ahead.Tail(), more, less);
        var r := AwaitSyncs(suite, bootstrap, ahead.Tail(), more, less);
        if r.Failure? {
          TailExplains(suite, bootstrap, ahead, r.error);
        } else {
          var n: nat :| n <= |ahead.Tail().batches| && r.value == From(ahead.Tail().batches, ahead.ending, n);
          TailFrom(ahead, n);
        }
      }
    }
  }

  lemma AwaitLeaves(
      suite: Crypto.Suite, bootstrap: bytes, batches: seq<seq<Packet>>, ending: Ending, from: nat,
      sequence: nat, commandId: nat) returns (n: nat)
    requires from <= |batches| && sequence == SequenceOf(commandId)
    requires AwaitAnswer(suite, bootstrap, From(batches, ending, from), sequence, commandId).Success?
    ensures n <= |batches|
    ensures AwaitAnswer(suite, bootstrap, From(batches, ending, from), sequence, commandId).value.1
         == From(batches, ending, n)
  {
    hide SyncFault, LastAnswer, AwaitAnswer;
    var i := AwaitFinds(suite, bootstrap, batches, ending, from, sequence, commandId);
    n := i + 1;
  }

  lemma StepExplained(
      suite: Crypto.Suite, bootstrap: bytes, batches: seq<seq<Packet>>, ending: Ending, from: nat,
      sequence: nat, commandId: nat)
    requires from <= |batches| && sequence == SequenceOf(commandId)
    ensures var r := AwaitAnswer(suite, bootstrap, From(batches, ending, from), sequence, commandId);
            r.Failure? ==> Explained(suite, bootstrap, Arrivals(batches, ending), r.error)
  {
    hide AwaitAnswer, Explained;
    AwaitExplained(suite, bootstrap, From(batches, ending, from), sequence, commandId);
    var r := AwaitAnswer(suite, bootstrap, From(batches, ending, from), sequence, commandId);
    if r.Failure? {
      LaterExplains(suite, bootstrap, batches, ending, from, r.error);
    }
  }

  /** An answer that is not acceptable explains its error. */
  lemma AnswerExplained(
      suite: Crypto.Suite, bootstrap: bytes, batches: seq<seq<Packet>>, ending: Ending, from: nat,
      packet: Packet, error: ClientError)
    requires from <= |batches| && packet in Concat(batches[from..]) && Faulty(suite, bootstrap, packet, error)
    ensures Explained(suite, bootstrap, Arrivals(batches, ending), Raised(error))
  {
    hide Faulty;
    assert Explained(suite, bootstrap, From(batches, ending, from), Raised(error));
    LaterExplains(suite, bootstrap, batches, ending, from, Raised(error));
  }

  lemma AuthExplained(suite: Crypto.Suite, bootstrap: bytes, batches: seq<seq<Packet>>, ending: Ending)
    returns (n: nat)
    ensures n <= |batches|
    ensures var r := AuthOutcome(suite, bootstrap, Arrivals(batches, ending));
            if r.Failure? then Explained(suite, bootstrap, Arrivals(batches, ending), r.error)
            else r.value.1 == From(batches, ending, n)
  {
    hide AwaitAnswer, Explained, GrantedPrefix, FaultOf, AudioOffer;
    assert From(batches, ending, 0) == Arrivals(batches, ending);
    StepExplained(suite, bootstrap, batches, ending, 0, 1, LAN_AUTH_COMMAND);
    n := 0;
    var r := AwaitAnswer(suite, bootstrap, Arrivals(batches, ending), 1, LAN_AUTH_COMMAND);
    if r.Success? {
      AwaitExplained(suite, bootstrap, From(batches, ending, 0), 1, LAN_AUTH_COMMAND);
      var prefix := GrantedPrefix(suite, bootstrap, r.value.0);
      if prefix.Failure? {
        AnswerExplained(suite, bootstrap, batches, ending, 0, Rpc(r.value.0), prefix.error);
      }
      n := AwaitLeaves(suite, bootstrap, batches, ending, 0, 1, LAN_AUTH_COMMAND);
    }
  }

  lemma VideoExplained(
      suite: Crypto.Suite, bootstrap: bytes, batches: seq<seq<Packet>>, ending: Ending, from: nat, cut: Option<nat>)
    returns (n: nat)
    requires from <= |batches|
    ensures n <= |batches|
    ensures var r := VideoOutcome(suite, bootstrap, From(batches, ending, from), cut);
            if r.Failure? then Explained(suite, bootstrap, Arrivals(batches, ending), r.error)
            else r.value == From(batches, ending, n)
  {
    hide AwaitAnswer, AwaitSyncs, Explained;
    n := 0;
    StepExplained(suite, bootstrap, batches, ending, from, 2, SYNC_COMMAND);
    if AwaitAnswer(suite, bootstrap, From(batches, ending, from), 2, SYNC_COMMAND).Success? {
      var j := AwaitLeaves(suite, bootstrap, batches, ending, from, 2, SYNC_COMMAND);
      SyncsExplained(suite, bootstrap, From(batches, ending, j), 0, cut);
      var synced := AwaitSyncs(suite, bootstrap, From(batches, ending, j), 0, cut);
      if synced.Failure? {
        LaterExplains(suite, bootstrap, batches, ending, j, synced.error);
      } else {
        var m: nat :| m <= |batches[j..]| && synced.value == From(batches[j..], ending, m);
        assert synced.value == From(batches, ending, j + m);
        StepExplained(suite, bootstrap, batches, ending, j + m, 3, VIDEO_START_COMMAND);
        if AwaitAnswer(suite, bootstrap, synced.value, 3, VIDEO_START_COMMAND).Success? {
          n := AwaitLeaves(suite, bootstrap, batches, ending, j + m, 3, VIDEO_START_COMMAND);
        }
      }
    }
  }

  /** However a start fails without a deadline, the arrivals explain it. */
  lemma StartFailureIsExplained(
      suite: Crypto.Suite, bootstrap: bytes, batches: seq<seq<Packet>>, ending: Ending, startAudio: bool,
      cut: Option<nat>)
    ensures var start := StartOutcome(suite, bootstrap, Arrivals(batches, ending), startAudio, cut);
            start.Failure? ==> Explained(suite, bootstrap, Arrivals(batches, ending), start.error.1)
  {
    hide AwaitAnswer, AuthOutcome, VideoOutcome, Explained, GrantedPrefix, FaultOf, AudioOffer;
    var i := AuthExplained(suite, bootstrap, batches, ending);
    var k := VideoExplained(suite, bootstrap, batches, ending, i, cut);
    StepExplained(suite, bootstrap, batches, ending, k, 4, AUDIO_START_COMMAND);
    AwaitExplained(suite, bootstrap, From(batches, ending, k), 4, AUDIO_START_COMMAND);
    var r := AwaitAnswer(suite, bootstrap, From(batches, ending, k), 4, AUDIO_START_COMMAND);
    if r.Success? {
      var offer := AudioOffer(suite, bootstrap, r.value.0);
      if offer.Failure? {
        AnswerExplained(suite, bootstrap, batches, ending, k, Rpc(r.value.0), offer.error);
      }
    }
  }

  /** However the media loop stops without a deadline, the arrivals explain it. */
  lemma {:induction false} MediaStopIsExplained(suite: Crypto.Suite, bootstrap: bytes, ahead: Arrivals)
    ensures Explained(suite, bootstrap, ahead, MediaStop(suite, bootstrap, ahead))
    decreases |ahead.batches|
  {
    hide SyncFault, Faulty;
    if ahead.batches == [] {
    } else if SyncFault(suite, bootstrap, ahead.batches[0]).Some? {
      FaultExplains(suite, bootstrap, ahead);
    } else {
      MediaStopIsExplained(suite, bootstrap, ahead.Tail());
      TailExplains(suite, bootstrap, ahead, MediaStop(suite, bootstrap, ahead.Tail()));
    }
  }

  /** An error that input explains: the peer closed after a stream that parses, the stream up to where it closed, or all
      of it, fails to parse with this very error, or a packet that arrived is faulty. A timeout or a missing connection
      is never explained by input. */
  ghost predicate Justified(
      suite: Crypto.Suite, bootstrap: bytes, error: ClientError, events: seq<RecvEvent>)
  {
    var n := FirstEmpty(events);
    if error.PeerClosed? then n < |events| && ParseStream(BytesOf(events[..n])).Success?
    else if error.BadPacket? then ParseStream(BytesOf(events[..n])) == Failure(error.packet)
    else exists p :: p in Concat(ArrivalsOf([], events).batches) && Faulty(suite, bootstrap, p, error)
  }

  lemma ExplainedIsJustified(suite: Crypto.Suite, bootstrap: bytes, events: seq<RecvEvent>, error: ClientError)
    requires Explained(suite, bootstrap, ArrivalsOf([], events), Raised(error))
    ensures Justified(suite, bootstrap, error, events)
  {
    hide ParseStream, ArrivalsOf, FaultOf, GrantedPrefix, AudioOffer, FirstEmpty;
    NothingParses();
    ArrivalsAreTheStream([], events);
    var n := FirstEmpty(events);
    assert [] + BytesOf(events[..n]) == BytesOf(events[..n]);
    forall p | Faulty(suite, bootstrap, p, error)
      ensures !error.PeerClosed? && !error.BadPacket?
    {
      FaultyKinds(suite, bootstrap, p, error);
    }
  }

  /** A run over these outcomes that waits for more has had no empty one. */
  lemma WaitingIsOpen(suite: Crypto.Suite, bootstrap: bytes, events: seq<RecvEvent>)
    requires Explained(suite, bootstrap, ArrivalsOf([], events), Blocked)
    ensures Data([]) !in events && ParseStream(BytesOf(events)).Success?
  {
    hide ParseStream, ArrivalsOf, Faulty, FirstEmpty;
    NothingParses();
    ArrivalsAreTheStream([], events);
    assert events[..|events|] == events && [] + BytesOf(events) == BytesOf(events);
  }

  lemma FaultyKinds(suite: Crypto.Suite, bootstrap: bytes, packet: Packet, error: ClientError)
    requires Faulty(suite, bootstrap, packet, error)
    ensures error.BadCode? || error.BadRpc? || error.BadField? || error.BadSessionPrefix? || error.BadAudioFormat?
  {
    hide DecryptRpcPayload, FirstBytesField, FirstVarintField, PackRpc, BuildTimeSyncResponse;
  }
}
