/** Sequence numbers and reply correlation in the pending-command protocol. */
module PendingReplies {
  import opened Basics
  import opened Pending
  import opened PendingInvariants
  import opened PendingSafety

  // ----- sequence numbers -----

  predicate Generations(s: State) {
    && s.nextSequence >= FIRST_SEQUENCE
    && s.connections == (if s.reader == Resetting then s.generation + 1 else s.generation)
  }

  /** Sequence numbers allocated on one connection are distinct. */
  predicate Distinct(requests: seq<Request>) {
    forall i, j | 0 <= i < j < |requests| && requests[i].allocatedOn == requests[j].allocatedOn ::
      requests[i].key.sequence != requests[j].key.sequence
  }

  /** No request allocated on `on` has a sequence number of `bound` or more. */
  predicate Below(requests: seq<Request>, on: nat, bound: nat) {
    forall i | 0 <= i < |requests| && requests[i].allocatedOn == on :: requests[i].key.sequence < bound
  }

  predicate Past(s: State) {
    forall i | 0 <= i < |s.requests| ::
      && s.requests[i].allocatedOn <= s.generation
      && (s.requests[i].sentOn.Some? ==> s.requests[i].sentOn.value <= s.connections)
  }

  /** The allocation in progress: its number is above all numbers of its connection; if the reader has reset the
      counter since, the new connection has handshake numbers only. */
  predicate InProgress(s: State, pc: CallerPc) {
    match pc
    case SequenceRead(sequence, on) =>
      && sequence >= FIRST_SEQUENCE && on <= s.generation
      && (on == s.generation ==> sequence == s.nextSequence)
      && Below(s.requests, on, sequence)
      && (on < s.generation ==> Below(s.requests, s.generation, FIRST_SEQUENCE))
    case SequenceLoaded(sequence, on, loaded, loadedOn) =>
      && sequence >= FIRST_SEQUENCE && loaded >= FIRST_SEQUENCE && on <= loadedOn <= s.generation
      && (loadedOn == s.generation ==> loaded == s.nextSequence)
      && (on == loadedOn ==> loaded == sequence)
      && Below(s.requests, on, sequence)
      && (on < s.generation ==> Below(s.requests, s.generation, FIRST_SEQUENCE))
    case _ => true
  }

  ghost predicate Numbers(s: State) {
    && Generations(s) && Past(s) && Distinct(s.requests)
    && Below(s.requests, s.generation, s.nextSequence)
    && (s.reader.Shaking? ==> s.reader.done <= 4 && HandshakeBelow(s.requests, s.generation, s.reader.done))
    && (forall c: nat :: InProgress(s, s.Pc(c)))
  }

  /** The handshake numbers used on a connection so far are 1 to `done`. */
  predicate HandshakeBelow(requests: seq<Request>, on: nat, done: nat) {
    forall i | 0 <= i < |requests| && requests[i].allocatedOn == on && requests[i].key.sequence < FIRST_SEQUENCE ::
      requests[i].key.sequence <= done
  }

  /** Sending changes neither key nor allocation of any request. */
  predicate SameAllocations(old_: seq<Request>, new_: seq<Request>) {
    && |new_| == |old_|
    && forall i | 0 <= i < |old_| :: new_[i].key == old_[i].key && new_[i].allocatedOn == old_[i].allocatedOn
  }

  lemma SameAllocationsKeep(before: seq<Request>, after: seq<Request>)
    requires SameAllocations(before, after)
    ensures Distinct(before) ==> Distinct(after)
    ensures forall on: nat, bound: nat :: Below(before, on, bound) ==> Below(after, on, bound)
    ensures forall on: nat, done: nat :: HandshakeBelow(before, on, done) ==> HandshakeBelow(after, on, done)
  {
  }

  lemma AppendKeeps(requests: seq<Request>, r: Request)
    requires Distinct(requests)
    requires forall i | 0 <= i < |requests| && requests[i].allocatedOn == r.allocatedOn ::
               requests[i].key.sequence != r.key.sequence
    ensures Distinct(requests + [r])
    ensures forall on: nat, bound: nat ::
              Below(requests, on, bound) && (r.allocatedOn == on ==> r.key.sequence < bound) ==>
                Below(requests + [r], on, bound)
    ensures forall on: nat, done: nat ::
              HandshakeBelow(requests, on, done)
              && (r.allocatedOn == on && r.key.sequence < FIRST_SEQUENCE ==> r.key.sequence <= done) ==>
                HandshakeBelow(requests + [r], on, done)
  {
  }

  lemma CallerKeepsNumbers(s: State, a: Action)
    requires Locks(s) && Shape(s) && Sockets(s) && Numbers(s) && CallerStep(s, a).Some?
    ensures Numbers(CallerStep(s, a).value)
  {
    if a.CallerStore? {
      StoreKeepsNumbers(s, a);
    } else if a.CallerSend? {
      SendKeepsNumbers(s, a);
    } else {
      OtherMovesKeepNumbers(s, a);
    }
  }

  lemma StoreKeepsNumbers(s: State, a: Action)
    requires Locks(s) && Numbers(s) && CallerStep(s, a).Some? && a.CallerStore?
    ensures Numbers(CallerStep(s, a).value)
  {
    var n, pc := CallerStep(s, a).value, s.Pc(a.c);
    assert InProgress(s, pc) && LocksAt(s, a.c);
    var r := n.requests[|s.requests|];
    assert n.requests == s.requests + [r];
    AppendKeeps(s.requests, r);
    forall c: nat
      ensures InProgress(n, n.Pc(c))
    {
      assert LocksAt(s, c);
    }
    if pc.readOn == s.generation {
      BelowWeakens(s.requests, s.generation, s.nextSequence, n.nextSequence);
    } else {
      BelowWeakens(s.requests, s.generation, FIRST_SEQUENCE, n.nextSequence);
    }
  }

  lemma BelowWeakens(requests: seq<Request>, on: nat, bound: nat, higher: nat)
    requires Below(requests, on, bound) && bound <= higher
    ensures Below(requests, on, higher)
  {
  }

  lemma SendKeepsNumbers(s: State, a: Action)
    requires Shape(s) && Sockets(s) && Numbers(s) && CallerStep(s, a).Some? && a.CallerSend?
    ensures Numbers(CallerStep(s, a).value)
  {
    SendFacts(s, a);
    hide CallerStep;
    var n := CallerStep(s, a).value;
    SameAllocationsKeep(s.requests, n.requests);
    assert Past(n);
    forall c: nat
      ensures InProgress(n, n.Pc(c))
    {
      assert InProgress(s, s.Pc(c));
    }
  }

  lemma OtherMovesKeepNumbers(s: State, a: Action)
    requires Numbers(s) && CallerStep(s, a).Some? && !a.CallerStore? && !a.CallerSend?
    ensures Numbers(CallerStep(s, a).value)
  {
    CallerFrame(s, a);
    CountersFrame(s, a);
    hide CallerStep, Below, HandshakeBelow, Distinct;
    var n := CallerStep(s, a).value;
    forall c: nat
      ensures InProgress(n, n.Pc(c))
    {
      assert InProgress(s, s.Pc(c));
    }
  }

  /** What a caller's step may do to the counters, except storing a number and sending. */
  ghost predicate SameCounters(s: State, n: State, c: nat) {
    && n.requests == s.requests && n.nextSequence == s.nextSequence
    && (forall d: nat | d != c :: n.Pc(d) == s.Pc(d))
    && (n.Pc(c).SequenceRead? ==> n.Pc(c) == SequenceRead(s.nextSequence, s.generation))
    && (n.Pc(c).SequenceLoaded? ==>
          && s.Pc(c).SequenceRead?
          && n.Pc(c) == SequenceLoaded(s.Pc(c).sequence, s.Pc(c).readOn, s.nextSequence, s.generation))
  }

  lemma CountersFrame(s: State, a: Action)
    requires CallerStep(s, a).Some? && !a.CallerStore? && !a.CallerSend?
    ensures SameCounters(s, CallerStep(s, a).value, Actor(a))
  {
    if MovesOnly(a) {
      MovesKeepCounters(s, a);
    } else {
      TableKeepsCounters(s, a);
    }
  }

  lemma MovesKeepCounters(s: State, a: Action)
    requires CallerStep(s, a).Some? && MovesOnly(a)
    ensures SameCounters(s, CallerStep(s, a).value, Actor(a))
  {
  }

  lemma TableKeepsCounters(s: State, a: Action)
    requires CallerStep(s, a).Some? && (a.CallerRegister? || Pops(a))
    ensures SameCounters(s, CallerStep(s, a).value, Actor(a))
  {
  }

  lemma ReaderKeepsNumbers(s: State, a: Action)
    requires Locks(s) && Sockets(s) && Numbers(s) && ReaderStep(s, a).Some?
    ensures Numbers(ReaderStep(s, a).value)
  {
    if a.ReaderShake? {
      ShakeKeepsNumbers(s, a);
    } else if a.ReaderBeat? {
      BeatKeepsNumbers(s, a);
    } else if a.ReaderReset? {
      ResetKeepsNumbers(s, a);
    } else {
      ReaderCounters(s, a);
      ReaderFrame(s, a);
      hide CloseStep, ReaderStep, Below, HandshakeBelow, Distinct;
      var n := ReaderStep(s, a).value;
      forall c: nat
        ensures InProgress(n, n.Pc(c))
      {
        assert InProgress(s, s.Pc(c)) && n.Pc(c) == s.Pc(c);
      }
    }
  }

  lemma ReaderCounters(s: State, a: Action)
    requires Generations(s) && ReaderStep(s, a).Some? && !a.ReaderShake? && !a.ReaderBeat? && !a.ReaderReset?
    ensures var n := ReaderStep(s, a).value;
            && n.requests == s.requests && n.nextSequence == s.nextSequence && n.generation == s.generation
            && n.connections >= s.connections && Generations(n) && !n.reader.Shaking?
  {
    hide CloseStep, ConnectStep, StreamStep;
    if a.ReaderClose? {
    } else if IsConnectAction(a) {
      ConnectCounters(s, a);
    } else {
      StreamCounters(s, a);
    }
  }

  lemma ConnectCounters(s: State, a: Action)
    requires Generations(s) && ConnectStep(s, a).Some? && !a.ReaderShake? && !a.ReaderReset?
    ensures var n := ConnectStep(s, a).value;
            && n.requests == s.requests && n.nextSequence == s.nextSequence && n.generation == s.generation
            && n.connections >= s.connections && Generations(n) && !n.reader.Shaking?
  {
  }

  lemma StreamCounters(s: State, a: Action)
    requires Generations(s) && StreamStep(s, a).Some? && !a.ReaderBeat?
    ensures var n := StreamStep(s, a).value;
            && n.requests == s.requests && n.nextSequence == s.nextSequence && n.generation == s.generation
            && n.connections >= s.connections && Generations(n) && !n.reader.Shaking?
  {
  }

  lemma ShakeKeepsNumbers(s: State, a: Action)
    requires Locks(s) && Sockets(s) && Numbers(s) && ReaderStep(s, a).Some? && a.ReaderShake?
    ensures Numbers(ReaderStep(s, a).value)
  {
    var n := ReaderStep(s, a).value;
    var r := n.requests[|s.requests|];
    assert n.requests == s.requests + [r];
    AppendKeeps(s.requests, r);
    forall c: nat
      ensures InProgress(n, n.Pc(c))
    {
      assert InProgress(s, s.Pc(c)) && n.Pc(c) == s.Pc(c);
    }
  }

  lemma BeatFacts(s: State, a: Action)
    requires ReaderStep(s, a).Some? && a.ReaderBeat?
    ensures var n, r := ReaderStep(s, a).value, Request(Key(TIME_SYNC, s.nextSequence), s.generation, s.socket);
            && s.sequenceLock.None? && s.reader == Streaming && n.reader in {Streaming, Closing(Snapshot, StreamEnd)}
            && n == s.(nextSequence := s.nextSequence + 1, requests := s.requests + [r], reader := n.reader)
  {
    hide ConnectStep, CloseByReader;
  }

  lemma BeatKeepsNumbers(s: State, a: Action)
    requires Locks(s) && Sockets(s) && Numbers(s) && ReaderStep(s, a).Some? && a.ReaderBeat?
    ensures Numbers(ReaderStep(s, a).value)
  {
    BeatFacts(s, a);
    hide ReaderStep;
    var n := ReaderStep(s, a).value;
    var r := Request(Key(TIME_SYNC, s.nextSequence), s.generation, s.socket);
    AppendKeeps(s.requests, r);
    BelowWeakens(s.requests, s.generation, s.nextSequence, n.nextSequence);
    forall c: nat
      ensures InProgress(n, n.Pc(c))
    {
      assert LocksAt(s, c) && n.Pc(c) == s.Pc(c);
    }
  }

  lemma ResetKeepsNumbers(s: State, a: Action)
    requires Numbers(s) && ReaderStep(s, a).Some? && a.ReaderReset?
    ensures Numbers(ReaderStep(s, a).value)
  {
    var n := ReaderStep(s, a).value;
    assert n.requests == s.requests && n.generation == s.generation + 1;
    assert forall i | 0 <= i < |s.requests| :: s.requests[i].allocatedOn <= s.generation;
    forall c: nat
      ensures InProgress(n, n.Pc(c))
    {
      assert InProgress(s, s.Pc(c)) && n.Pc(c) == s.Pc(c);
    }
  }

  lemma CloserKeepsNumbers(s: State, a: Action)
    requires Numbers(s) && CloserStep(s, a).Some?
    ensures Numbers(CloserStep(s, a).value)
  {
    CloserFrame(s, a);
    hide CloseStep, CloserStep, Below, HandshakeBelow, Distinct;
    var n := CloserStep(s, a).value;
    forall c: nat
      ensures InProgress(n, n.Pc(c))
    {
      assert InProgress(s, s.Pc(c)) && n.Pc(c) == s.Pc(c);
    }
  }

  // ----- whose reply -----

  /** A reply stored for a request has its key; an honest origin was sent on a connection that had been opened when
      the request was allocated, and not after the request itself was sent. */
  predicate OriginOk(requests: seq<Request>, id: nat, reply: Reply) {
    && id < |requests| && reply.key == requests[id].key
    && (reply.origin.Some? ==>
          var o := reply.origin.value;
          && o < |requests| && requests[o].key == reply.key && requests[o].sentOn.Some?
          && requests[id].allocatedOn <= requests[o].sentOn.value
          && (requests[id].sentOn.Some? ==> requests[id].sentOn.value >= requests[o].sentOn.value))
  }

  /** Requests only ever gain a sending connection, the current one, and new requests come behind. */
  predicate Evolves(before: seq<Request>, after: seq<Request>, connections: nat) {
    && |before| <= |after|
    && forall i | 0 <= i < |before| ::
         && after[i].key == before[i].key && after[i].allocatedOn == before[i].allocatedOn
         && (after[i].sentOn == before[i].sentOn
             || (before[i].sentOn.None? && after[i].sentOn == Some(connections)))
  }

  lemma OriginKept(before: seq<Request>, after: seq<Request>, connections: nat, id: nat, reply: Reply)
    requires Evolves(before, after, connections) && OriginOk(before, id, reply)
    requires forall i | 0 <= i < |before| && before[i].sentOn.Some? :: before[i].sentOn.value <= connections
    ensures OriginOk(after, id, reply)
  {
  }

  /** A command that has not reached its send has not been sent. */
  predicate UnsentAt(s: State, c: nat) {
    (s.Pc(c).Allocated? || s.Pc(c).Registered?) && s.Pc(c).id < |s.requests| ==> s.requests[s.Pc(c).id].sentOn.None?
  }

  /** Commands in the table were sent on the current connection, or not yet. */
  predicate TableSent(s: State) {
    forall k | k in s.table && s.table[k] < |s.requests| && s.requests[s.table[k]].sentOn.Some? ::
      s.requests[s.table[k]].sentOn == Some(s.connections) && !TableSwept(s.reader)
  }

  ghost predicate Correlated(s: State) {
    && (forall c: nat :: UnsentAt(s, c))
    && TableSent(s)
    && (forall id | id in s.records && s.records[id].response.Some? ::
          OriginOk(s.requests, id, s.records[id].response.value))
    && (forall id | id in s.outcomes && s.outcomes[id].Answered? :: OriginOk(s.requests, id, s.outcomes[id].reply))
    && (s.reader.Resolving? ==> OriginOk(s.requests, s.reader.id, s.reader.reply))
  }

  lemma EvolvesByCaller(s: State, a: Action)
    requires Sockets(s) && Correlated(s) && CallerStep(s, a).Some?
    ensures Evolves(s.requests, CallerStep(s, a).value.requests, s.connections)
    ensures CallerStep(s, a).value.connections == s.connections
  {
    CallerFrame(s, a);
    if a.CallerSend? {
      SendFacts(s, a);
      assert UnsentAt(s, a.c);
      hide CallerStep;
    } else if a.CallerStore? {
      assert s.requests <= CallerStep(s, a).value.requests;
    } else {
      CountersFrame(s, a);
      hide CallerStep;
    }
  }

  lemma StillCorrelated(s: State, n: State)
    requires Past(s) && Evolves(s.requests, n.requests, s.connections)
    requires forall id | id in s.records && s.records[id].response.Some? ::
               OriginOk(s.requests, id, s.records[id].response.value)
    requires forall id | id in s.outcomes && s.outcomes[id].Answered? ::
               OriginOk(s.requests, id, s.outcomes[id].reply)
    ensures forall id | id in s.records && s.records[id].response.Some? ::
              OriginOk(n.requests, id, s.records[id].response.value)
    ensures forall id | id in s.outcomes && s.outcomes[id].Answered? ::
              OriginOk(n.requests, id, s.outcomes[id].reply)
    ensures s.reader.Resolving? && OriginOk(s.requests, s.reader.id, s.reader.reply) ==>
              OriginOk(n.requests, s.reader.id, s.reader.reply)
  {
    forall id, reply | OriginOk(s.requests, id, reply)
      ensures OriginOk(n.requests, id, reply)
    {
      OriginKept(s.requests, n.requests, s.connections, id, reply);
    }
  }

  lemma CallerKeepsCorrelated(s: State, a: Action)
    requires Locks(s) && Shape(s) && Sockets(s) && Numbers(s) && Correlated(s) && CallerStep(s, a).Some?
    ensures Correlated(CallerStep(s, a).value)
  {
    var n, d := CallerStep(s, a).value, Actor(a);
    EvolvesByCaller(s, a);
    StillCorrelated(s, n);
    CallerKeepsUnsent(s, a);
    CallerKeepsTableSent(s, a);
    CallerKeepsResponses(s, a);
  }

  lemma CallerKeepsUnsent(s: State, a: Action)
    requires Locks(s) && Shape(s) && Correlated(s) && CallerStep(s, a).Some?
    ensures forall c: nat :: UnsentAt(CallerStep(s, a).value, c)
  {
    var n := CallerStep(s, a).value;
    assert LocksAt(s, Actor(a)) && ShapedAt(s, Actor(a)) && UnsentAt(s, Actor(a));
    if MovesOnly(a) {
      MovesFacts(s, a);
      hide CallerStep;
    } else if a.CallerSend? {
      SendFacts(s, a);
      hide CallerStep;
    }
    forall c: nat
      ensures UnsentAt(n, c)
    {
      assert LocksAt(s, c) && ShapedAt(s, c) && UnsentAt(s, c);
    }
  }

  lemma CallerKeepsTableSent(s: State, a: Action)
    requires Locks(s) && Shape(s) && Sockets(s) && Correlated(s) && CallerStep(s, a).Some?
    ensures TableSent(CallerStep(s, a).value)
  {
    var n, d := CallerStep(s, a).value, Actor(a);
    assert LocksAt(s, d) && ShapedAt(s, d) && UnsentAt(s, d);
    if MovesOnly(a) {
      MovesFacts(s, a);
      hide CallerStep;
    } else if a.CallerSend? {
      SendFacts(s, a);
      hide CallerStep;
    } else if Pops(a) {
      PopsKeepShape(s, a);
      hide CallerStep;
    }
  }

  lemma CallerKeepsResponses(s: State, a: Action)
    requires Locks(s) && Shape(s) && CallerStep(s, a).Some?
    ensures var n := CallerStep(s, a).value;
            && n.reader == s.reader
            && (forall id | id in n.records && n.records[id].response.Some? ::
                  id in s.records && n.records[id].response == s.records[id].response)
            && (forall id | id in n.outcomes && n.outcomes[id].Answered? ::
                  || (id in s.outcomes && n.outcomes[id] == s.outcomes[id])
                  || (id in s.records && s.records[id].response == Some(n.outcomes[id].reply)))
  {
    assert ShapedAt(s, Actor(a));
    if MovesOnly(a) {
      MovesFacts(s, a);
      hide CallerStep;
    } else if a.CallerSend? {
      SendFacts(s, a);
      hide CallerStep;
    }
  }

  lemma ReaderKeepsCorrelated(s: State, a: Action)
    requires Shape(s) && Sockets(s) && Numbers(s) && Correlated(s) && ReaderStep(s, a).Some?
    ensures Correlated(ReaderStep(s, a).value)
  {
    var n := ReaderStep(s, a).value;
    hide ReaderStep, CloseStep;
    if RunsClose(s, a) {
      ReaderCloses(s, a);
      CloseFacts(Closer(s.socket, s.table, s.records, s.reader.close), a.step);
      forall c: nat
        ensures UnsentAt(n, c)
      {
        assert UnsentAt(s, c);
      }
    } else {
      ReaderOtherKeepsCorrelated(s, a);
    }
  }

  lemma ReaderOtherKeepsCorrelated(s: State, a: Action)
    requires Shape(s) && Sockets(s) && Numbers(s) && Correlated(s) && ReaderStep(s, a).Some?
    requires !RunsClose(s, a)
    ensures Correlated(ReaderStep(s, a).value)
  {
    if ReaderPlain(a) {
      ReaderPlainKeepsCorrelated(s, a);
    } else {
      ReaderWriteKeepsCorrelated(s, a);
    }
  }

  lemma ReaderPlainKeepsCorrelated(s: State, a: Action)
    requires Shape(s) && Sockets(s) && Numbers(s) && Correlated(s) && ReaderStep(s, a).Some? && ReaderPlain(a)
    requires !RunsClose(s, a)
    ensures Correlated(ReaderStep(s, a).value)
  {
    var n := ReaderStep(s, a).value;
    ReaderPlainFacts(s, a);
    ReaderPlainPlaces(s, a);
    ReaderKeepsTableSent(s, a);
    if a.ReaderReply? && n.reader.Resolving? {
      ResolvedOrigin(s, a);
    }
    hide ReaderStep, CloseStep, OriginOk, Shape, Numbers, Sockets;
    forall c: nat
      ensures UnsentAt(n, c)
    {
      assert UnsentAt(s, c);
    }
  }

  lemma ReaderWriteKeepsCorrelated(s: State, a: Action)
    requires Shape(s) && Sockets(s) && Numbers(s) && Correlated(s) && ReaderStep(s, a).Some? && !ReaderPlain(a)
    ensures Correlated(ReaderStep(s, a).value)
  {
    var n := ReaderStep(s, a).value;
    ReaderFrame(s, a);
    ReaderWriteFacts(s, a);
    ReaderWriteResponses(s, a);
    StillCorrelated(s, n);
    hide ReaderStep, CloseStep, OriginOk, Numbers, Sockets;
    forall c: nat
      ensures UnsentAt(n, c)
    {
      assert UnsentAt(s, c) && ShapedAt(s, c);
    }
  }

  lemma ReaderKeepsTableSent(s: State, a: Action)
    requires Shape(s) && Sockets(s) && Correlated(s) && ReaderStep(s, a).Some? && ReaderPlain(a)
    requires !RunsClose(s, a)
    ensures TableSent(ReaderStep(s, a).value)
  {
    var n := ReaderStep(s, a).value;
    ReaderPlainFacts(s, a);
    if a.ReaderClose? || a.ReaderLoop? || a.ReaderOpen? {
      ReaderTurnsSwept(s, a);
    } else {
      ReaderMoves(s, a);
    }
    hide ReaderStep, CloseStep;
  }

  lemma ReaderTurnsSwept(s: State, a: Action)
    requires Sockets(s) && ReaderStep(s, a).Some? && (a.ReaderClose? || a.ReaderLoop? || a.ReaderOpen?)
    requires !RunsClose(s, a)
    ensures var n := ReaderStep(s, a).value;
            && (n.connections == s.connections || TableSwept(s.reader))
            && (TableSwept(n.reader) ==> TableSwept(s.reader))
  {
    hide CloseStep;
  }

  lemma ResolvedOrigin(s: State, a: Action)
    requires Shape(s) && Sockets(s) && Numbers(s) && Correlated(s) && ReaderStep(s, a).Some? && a.ReaderReply?
    requires ReaderStep(s, a).value.reader.Resolving?
    ensures var r := ReaderStep(s, a).value.reader; OriginOk(s.requests, r.id, r.reply)
  {
  }

  lemma ReaderWriteResponses(s: State, a: Action)
    requires Shape(s) && Numbers(s) && Correlated(s) && ReaderStep(s, a).Some? && !ReaderPlain(a)
    ensures var n := ReaderStep(s, a).value;
            && Evolves(s.requests, n.requests, s.connections)
            && TableSent(n)
            && forall id | id in n.records && n.records[id].response.Some? ::
                 || (id in s.records && n.records[id].response == s.records[id].response)
                 || (s.reader.Resolving? && id == s.reader.id && n.records[id].response == Some(s.reader.reply))
  {
    hide CloseStep, ConnectStep, StreamStep;
    if a.ReaderShake? {
      ConnectFrame(s, a);
    } else {
      StreamResponses(s, a);
    }
    ReaderWriteKeepsTableSent(s, a);
  }

  lemma StreamResponses(s: State, a: Action)
    requires StreamStep(s, a).Some? && !ReaderPlain(a)
    ensures forall id | id in StreamStep(s, a).value.records && StreamStep(s, a).value.records[id].response.Some? ::
              var r := StreamStep(s, a).value.records[id].response;
              || (id in s.records && r == s.records[id].response)
              || (s.reader.Resolving? && id == s.reader.id && r == Some(s.reader.reply))
  {
  }

  lemma ReaderWriteKeepsTableSent(s: State, a: Action)
    requires Shape(s) && Correlated(s) && ReaderStep(s, a).Some? && !ReaderPlain(a)
    ensures Evolves(s.requests, ReaderStep(s, a).value.requests, s.connections)
    ensures TableSent(ReaderStep(s, a).value)
  {
    hide ReaderStep, CloseStep, OriginOk;
    ReaderWriteFacts(s, a);
    ReaderWriteKeepsConnections(s, a);
  }

  lemma ReaderWriteKeepsConnections(s: State, a: Action)
    requires ReaderStep(s, a).Some? && !ReaderPlain(a)
    ensures var n := ReaderStep(s, a).value;
            !TableSwept(n.reader)
  {
    hide CloseByReader;
    if a.ReaderShake? {
      hide StreamStep;
    } else {
      hide ConnectStep;
    }
  }

  lemma CloserKeepsCorrelated(s: State, a: Action)
    requires Shape(s) && Correlated(s) && CloserStep(s, a).Some?
    ensures Correlated(CloserStep(s, a).value)
  {
    hide CloserStep, CloseStep;
    var n := CloserStep(s, a).value;
    CloserFrame(s, a);
    if CloserRunsClose(s, a) {
      CloserCloses(s, a);
      CloseFacts(Closer(s.socket, s.table, s.records, s.closer.close), a.step);
    } else {
      CloserOtherFacts(s, a);
    }
    forall c: nat
      ensures UnsentAt(n, c)
    {
      assert UnsentAt(s, c);
    }
  }
}
