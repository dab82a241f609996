/** A reconnect between allocation and send: the one way a late reply reaches a later command. */
module PendingLimits {
  import opened Basics
  import opened Pending
  import PendingTheorems

  // ----- runs, piece by piece -----

  lemma {:induction false} RunAppend(s: State, one: seq<Action>, other: seq<Action>)
    requires Run(s, one).Some?
    ensures Run(s, one + other) == Run(Run(s, one).value, other)
    decreases |one|
  {
    hide Step;
    if one == [] {
      assert one + other == other;
    } else {
      assert (one + other)[1..] == one[1..] + other;
      RunAppend(Step(s, one[0]).value, one[1..], other);
    }
  }

  /** `n` can be reached from `s`. */
  ghost predicate Leads(s: State, n: State) {
    exists actions: seq<Action> :: Run(s, actions) == Some(n)
  }

  lemma LeadsOn(s: State, m: State, n: State)
    requires Leads(s, m) && Leads(m, n)
    ensures Leads(s, n)
  {
    hide Step;
    var one: seq<Action> :| Run(s, one) == Some(m);
    var other: seq<Action> :| Run(m, other) == Some(n);
    RunAppend(s, one, other);
  }

  /** A run is a chain of single steps. */
  lemma {:induction false} Chain(actions: seq<Action>, states: seq<State>)
    requires |states| == |actions| + 1
    requires forall i | 0 <= i < |actions| :: Step(states[i], actions[i]) == Some(states[i + 1])
    ensures Run(states[0], actions) == Some(states[|actions|])
    ensures Leads(states[0], states[|actions|])
    decreases |actions|
  {
    hide Step;
    if actions != [] {
      Chain(actions[1..], states[1..]);
    }
    assert Run(states[0], actions) == Some(states[|actions|]);
  }

  lemma CallerRun(actions: seq<Action>, states: seq<State>)
    requires |states| == |actions| + 1
    requires forall i | 0 <= i < |actions| :: CallerStep(states[i], actions[i]) == Some(states[i + 1])
    ensures Run(states[0], actions) == Some(states[|actions|])
  {
    hide CallerStep, ReaderStep, CloserStep;
    Chain(actions, states);
  }

  lemma ReaderRun(actions: seq<Action>, states: seq<State>)
    requires |states| == |actions| + 1
    requires forall i | 0 <= i < |actions| :: ReaderStep(states[i], actions[i]) == Some(states[i + 1])
    ensures Run(states[0], actions) == Some(states[|actions|])
  {
    hide CallerStep, ReaderStep, CloserStep;
    forall i | 0 <= i < |actions|
      ensures Step(states[i], actions[i]) == Some(states[i + 1])
    {
      assert ReaderStep(states[i], actions[i]) == Some(states[i + 1]);
      ReaderActs(states[i], actions[i]);
    }
    Chain(actions, states);
  }

  lemma CallerChain(actions: seq<Action>, states: seq<State>)
    requires |states| == |actions| + 1
    requires forall i | 0 <= i < |actions| :: CallerStep(states[i], actions[i]) == Some(states[i + 1])
    ensures Leads(states[0], states[|actions|])
  {
    hide CallerStep, Run;
    CallerRun(actions, states);
  }

  lemma ReaderChain(actions: seq<Action>, states: seq<State>)
    requires |states| == |actions| + 1
    requires forall i | 0 <= i < |actions| :: ReaderStep(states[i], actions[i]) == Some(states[i + 1])
    ensures Leads(states[0], states[|actions|])
  {
    hide ReaderStep, Run;
    ReaderRun(actions, states);
  }

  lemma ReaderActs(s: State, a: Action)
    requires ReaderStep(s, a).Some?
    ensures Step(s, a) == ReaderStep(s, a)
  {
    hide ConnectStep, CloseByReader;
  }

  // ----- the pieces -----

  /** Nothing is pending and the reader stands between connections. */
  predicate Ready(s: State) {
    s.reader == Top && !s.stop && s.socket.None? && s.table == map[] && s.sequenceLock.None?
  }

  lemma Starts(s: State)
    requires Ready(s)
    ensures Leads(s, s.(reader := Opening))
  {
    var s1 := s.(reader := Closing(TestSocket, ConnectStart));
    var s2 := s.(reader := Closing(Snapshot, ConnectStart));
    var s3 := s.(reader := Closing(Failing({}, None), ConnectStart));
    var s4 := s.(reader := Closing(Closed, ConnectStart));
    assert s.table.Values == {};
    var p := ReaderClose(Proceed);
    ReaderChain([ReaderLoop, p, p, p, p], [s, s1, s2, s3, s4, s.(reader := Opening)]);
  }

  function Opened(s: State): State {
    s.(socket := Some(s.connections + 1), connections := s.connections + 1, generation := s.connections + 1,
       nextSequence := 5, reader := Shaking(0))
  }

  lemma Opens(s: State)
    requires s.reader == Opening
    ensures Leads(s, Opened(s))
  {
    var s1 := s.(socket := Some(s.connections + 1), connections := s.connections + 1, reader := Resetting);
    ReaderChain([ReaderOpen(true), ReaderReset], [s, s1, Opened(s)]);
  }

  function Handshakes(k: nat): seq<Request> {
    [Request(Key(2650, 1), k, Some(k)), Request(Key(106, 2), k, Some(k)), Request(Key(2610, 3), k, Some(k))]
  }

  lemma Shakes(s: State)
    requires s.reader == Shaking(0) && s.socket == Some(s.generation)
    ensures Leads(s, s.(requests := s.requests + Handshakes(s.generation), connected := true, reader := Streaming))
  {
    var h := Handshakes(s.generation);
    var s1 := s.(requests := s.requests + [h[0]], reader := Shaking(1));
    var s2 := s.(requests := s.requests + [h[0]] + [h[1]], reader := Shaking(2));
    var s3 := s.(requests := s.requests + [h[0]] + [h[1]] + [h[2]], reader := Shaking(3));
    assert s3.requests == s.requests + h;
    ReaderChain([ReaderShake, ReaderShake, ReaderShake, ReaderConnected, ReaderEnter(true)],
                [s, s1, s2, s3, s3.(connected := true, reader := Entering),
                 s3.(connected := true, reader := Streaming)]);
  }

  /** The state of a fresh connection. */
  function Streams(s: State): State {
    Opened(s).(requests := s.requests + Handshakes(s.connections + 1), connected := true, reader := Streaming)
  }

  lemma Connects(s: State)
    requires Ready(s)
    ensures Leads(s, Streams(s))
  {
    hide Leads, Step, Run;
    var opening := s.(reader := Opening);
    Starts(s);
    Opens(opening);
    Shakes(Opened(opening));
    LeadsOn(s, opening, Opened(opening));
    LeadsOn(s, Opened(opening), Streams(s));
  }

  /** The stream ends and the reader closes the connection; no command is pending. */
  lemma Disconnects(s: State)
    requires s.reader == Streaming && s.socket.Some? && s.table == map[]
    ensures Leads(s, s.(socket := None, connected := false, reader := Top))
  {
    hide Leads;
    EndsStream(s);
    ClosesSocket(s.(reader := Leaving));
    LeadsOn(s, s.(reader := Leaving), s.(socket := None, connected := false, reader := Top));
  }

  lemma EndsStream(s: State)
    requires s.reader == Streaming && s.table == map[]
    ensures Leads(s, s.(reader := Leaving))
  {
    assert s.table.Values == {};
    var p := ReaderClose(Proceed);
    ReaderChain([ReaderEnds, p, p, p],
                [s, s.(reader := Closing(Snapshot, StreamEnd)), s.(reader := Closing(Failing({}, None), StreamEnd)),
                 s.(reader := Closing(Closed, StreamEnd)), s.(reader := Leaving)]);
  }

  lemma ClosesSocket(s: State)
    requires s.reader == Leaving && s.socket.Some? && s.table == map[]
    ensures Leads(s, s.(socket := None, connected := false, reader := Top))
  {
    assert s.table.Values == {};
    var p := ReaderClose(Proceed);
    var off, shut := s.(connected := false), s.(connected := false, socket := None);
    ReaderChain([ReaderClear, p, p, p, p, p, p],
                [s, off.(reader := Closing(TestSocket, Final)), off.(reader := Closing(CloseSocket, Final)),
                 off.(reader := Closing(ClearSocket, Final)),
                 shut.(reader := Closing(Snapshot, Final)), shut.(reader := Closing(Failing({}, None), Final)),
                 shut.(reader := Closing(Closed, Final)), shut.(reader := Top)]);
  }

  const NIGHT_SET := 2635

  function At(pc: CallerPc): Caller {
    Caller(pc, NIGHT_SET, false)
  }

  /** A caller enters and allocates its sequence number. */
  function Allocates(s: State, c: nat): State {
    s.(callers := s.callers[c := At(Allocated(|s.requests|))], controlLock := Some(c),
       nextSequence := s.nextSequence + 1,
       requests := s.requests + [Request(Key(NIGHT_SET, s.nextSequence), s.generation, None)])
  }

  lemma AllocatesLeads(s: State, c: nat)
    requires s.connected && s.controlLock.None? && s.sequenceLock.None? && c !in s.callers
    ensures Leads(s, Allocates(s, c))
  {
    hide Leads;
    var inside := s.(callers := s.callers[c := At(Cleared)], controlLock := Some(c));
    Enters(s, c);
    Numbers(inside, c);
    assert s.callers[c := At(Cleared)][c := At(Allocated(|s.requests|))] == s.callers[c := At(Allocated(|s.requests|))];
    LeadsOn(s, inside, Allocates(s, c));
  }

  lemma Enters(s: State, c: nat)
    requires s.connected && s.controlLock.None? && c !in s.callers
    ensures Leads(s, s.(callers := s.callers[c := At(Cleared)], controlLock := Some(c)))
  {
    var s1 := s.(callers := s.callers[c := At(Checked)]);
    var s2 := s.(callers := s.callers[c := At(Checked)][c := At(HoldsLock)], controlLock := Some(c));
    var s3 := s2.(callers := s2.callers[c := At(Cleared)]);
    CallerChain([CallerCheck(c, NIGHT_SET, false), CallerLock(c), CallerRecheck(c)], [s, s1, s2, s3]);
    assert s3.callers == s.callers[c := At(Cleared)];
  }

  lemma Numbers(s: State, c: nat)
    requires s.sequenceLock.None? && c in s.callers && s.callers[c] == At(Cleared)
    ensures Leads(s, s.(callers := s.callers[c := At(Allocated(|s.requests|))], nextSequence := s.nextSequence + 1,
                        requests := s.requests + [Request(Key(NIGHT_SET, s.nextSequence), s.generation, None)]))
  {
    var q, g := s.nextSequence, s.generation;
    var s1 := s.(callers := s.callers[c := At(SequenceRead(q, g))], sequenceLock := Some(c));
    var s2 := s1.(callers := s1.callers[c := At(SequenceLoaded(q, g, q, g))]);
    var s3 := s2.(callers := s2.callers[c := At(Allocated(|s.requests|))], nextSequence := q + 1, sequenceLock := None,
                  requests := s.requests + [Request(Key(NIGHT_SET, q), g, None)]);
    CallerChain([CallerRead(c), CallerLoad(c), CallerStore(c)], [s, s1, s2, s3]);
    assert s3.callers == s.callers[c := At(Allocated(|s.requests|))];
  }

  /** A caller registers its command and sends it. */
  function Sends(s: State, c: nat, id: nat): State
    requires id < |s.requests|
  {
    s.(callers := s.callers[c := At(Waiting(id))], table := s.table[s.requests[id].key := id],
       records := s.records[id := Record(false, None, false)],
       requests := s.requests[id := s.requests[id].(sentOn := s.socket)])
  }

  lemma SendsLeads(s: State, c: nat, id: nat)
    requires s.socket.Some? && id < |s.requests| && c in s.callers && s.callers[c] == At(Allocated(id))
    ensures Leads(s, Sends(s, c, id))
  {
    var s1 := s.(callers := s.callers[c := At(Registered(id))], table := s.table[s.requests[id].key := id],
                 records := s.records[id := Record(false, None, false)]);
    var s2 := Sends(s, c, id).(callers := s1.callers[c := At(Waiting(id))]);
    CallerChain([CallerRegister(c), CallerSend(c, true)], [s, s1, s2]);
    assert s2.callers == Sends(s, c, id).callers;
  }

  /** A waiting caller times out and leaves. */
  function TimesOut(s: State, c: nat, id: nat): State
    requires id < |s.requests|
  {
    s.(callers := s.callers[c := At(Outside)], controlLock := None, table := s.table - {s.requests[id].key},
       outcomes := s.outcomes[id := TimeoutError])
  }

  lemma TimesOutLeads(s: State, c: nat, id: nat)
    requires id < |s.requests| && c in s.callers && s.callers[c] == At(Waiting(id))
    requires id in s.records && !s.records[id].event
    ensures Leads(s, TimesOut(s, c, id))
  {
    var s1 := s.(callers := s.callers[c := At(TimedOut(id))]);
    var s2 := s1.(callers := s1.callers[c := At(Unlocking)], table := s.table - {s.requests[id].key},
                  outcomes := s.outcomes[id := TimeoutError]);
    var s3 := s2.(callers := s2.callers[c := At(Outside)], controlLock := None);
    CallerChain([CallerTimeout(c), CallerPopTimedOut(c), CallerUnlock(c)], [s, s1, s2, s3]);
    assert s3.callers == TimesOut(s, c, id).callers;
  }

  /** The reader takes a reply for the command in the table and wakes its caller. */
  function Wakes(s: State, id: nat, reply: Reply): State {
    s.(records := s.records[id := Record(true, Some(reply), false)])
  }

  lemma WakesLeads(s: State, id: nat, reply: Reply)
    requires id in s.records && s.records[id] == Record(false, None, false) && s.reader == Streaming
    requires reply.key in s.table && s.table[reply.key] == id
    requires reply.origin.Some? && reply.origin.value < |s.requests|
    requires s.requests[reply.origin.value].key == reply.key
    requires s.requests[reply.origin.value].sentOn == Some(s.connections)
    ensures Leads(s, Wakes(s, id, reply))
  {
    var s1 := s.(reader := Resolving(id, reply));
    var s2 := s.(records := s.records[id := Record(false, Some(reply), false)], reader := ResponseSet(id));
    var s3 := s.(records := s2.records[id := Record(true, Some(reply), false)]);
    ReaderChain([ReaderReply(reply), ReaderSetResponse, ReaderSetEvent], [s, s1, s2, s3]);
    assert s3.records == Wakes(s, id, reply).records;
  }

  /** A woken caller returns its response. */
  function Returns(s: State, c: nat, id: nat, reply: Reply): State {
    s.(callers := s.callers[c := At(Unlocking)], table := s.table - {reply.key},
       outcomes := s.outcomes[id := Answered(reply)])
  }

  lemma ReturnsLeads(s: State, c: nat, id: nat, reply: Reply)
    requires id < |s.requests| && c in s.callers && s.callers[c] == At(Waiting(id))
    requires id in s.records && s.records[id] == Record(true, Some(reply), false)
    requires reply.key == s.requests[id].key
    ensures Leads(s, Returns(s, c, id, reply))
  {
    var s1 := s.(callers := s.callers[c := At(Woken(id))]);
    var s2 := s1.(callers := s1.callers[c := At(Unlocking)], table := s.table - {reply.key},
                  outcomes := s.outcomes[id := Answered(reply)]);
    CallerChain([CallerWake(c), CallerPopWoken(c)], [s, s1, s2]);
    assert s2.callers == Returns(s, c, id, reply).callers;
  }

  // ----- the run -----

  /** Caller 0 allocates number 5 on the first connection; the reader reconnects and starts again at 5; caller 0
      sends on the second connection and times out; caller 1 allocates 5 again, sends, and is given the camera's late
      reply to caller 0. */
  lemma LateReplyCanCrossConnections()
    ensures exists s: State, id: nat ::
              && PendingTheorems.Reachable(s)
              && id in s.outcomes && s.outcomes[id].Answered?
              && s.outcomes[id].reply.origin.Some? && s.outcomes[id].reply.origin.value != id
  {
    hide Leads, Run, Step;
    var a := Streams(START);
    Connects(START);
    var b := Allocates(a, 0);
    AllocatesLeads(a, 0);
    var c := b.(socket := None, connected := false, reader := Top);
    Disconnects(b);
    var d := Streams(c);
    Connects(c);
    var e := Sends(d, 0, 3);
    SendsLeads(d, 0, 3);
    var f := TimesOut(e, 0, 3);
    TimesOutLeads(e, 0, 3);
    var g := Allocates(f, 1);
    AllocatesLeads(f, 1);
    var h := Sends(g, 1, 7);
    SendsLeads(g, 1, 7);
    var reply := Reply(Key(NIGHT_SET, 5), Some(3));
    var w := Wakes(h, 7, reply);
    WakesLeads(h, 7, reply);
    var n := Returns(w, 1, 7, reply);
    ReturnsLeads(w, 1, 7, reply);
    LeadsOn(START, a, b);
    LeadsOn(START, b, c);
    LeadsOn(START, c, d);
    LeadsOn(START, d, e);
    LeadsOn(START, e, f);
    LeadsOn(START, f, g);
    LeadsOn(START, g, h);
    LeadsOn(START, h, w);
    LeadsOn(START, w, n);
    LeadsIsReachable(n);
    Witness(n, 7);
  }

  lemma Witness(n: State, id: nat)
    requires PendingTheorems.Reachable(n) && id in n.outcomes && n.outcomes[id].Answered?
    requires n.outcomes[id].reply.origin.Some? && n.outcomes[id].reply.origin.value != id
    ensures exists s: State, id: nat ::
              && PendingTheorems.Reachable(s)
              && id in s.outcomes && s.outcomes[id].Answered?
              && s.outcomes[id].reply.origin.Some? && s.outcomes[id].reply.origin.value != id
  {
  }

  lemma LeadsIsReachable(n: State)
    requires Leads(START, n)
    ensures PendingTheorems.Reachable(n)
  {
  }
}
