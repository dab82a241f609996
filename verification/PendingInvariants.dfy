/** Invariants of the pending-command protocol over every interleaving. */
module PendingInvariants {
  import opened Basics
  import opened Pending

  // ----- mutual exclusion -----

  predicate Critical(pc: CallerPc) {
    !pc.Outside? && !pc.Checked?
  }

  predicate Allocating(pc: CallerPc) {
    pc.SequenceRead? || pc.SequenceLoaded?
  }

  /** The part of `send_control` in which the command's record exists. */
  predicate InTable(pc: CallerPc) {
    pc.Registered? || pc.SendFailed? || pc.Waiting? || pc.TimedOut? || pc.Woken?
  }

  /** A caller is inside the guarded regions exactly while it holds the lock that guards them. */
  predicate LocksAt(s: State, c: nat) {
    && (Critical(s.Pc(c)) <==> s.controlLock == Some(c))
    && (Allocating(s.Pc(c)) <==> s.sequenceLock == Some(c))
  }

  ghost predicate Locks(s: State) {
    forall c: nat :: LocksAt(s, c)
  }

  lemma CallerKeepsLocks(s: State, a: Action)
    requires Locks(s) && CallerStep(s, a).Some?
    ensures Locks(CallerStep(s, a).value)
  {
    CallerMoves(s, a);
    hide CallerStep;
    var n := CallerStep(s, a).value;
    forall c: nat
      ensures LocksAt(n, c)
    {
      assert LocksAt(s, c) && LocksAt(s, Actor(a));
    }
  }

  /** A caller moved from one program counter to another, taking and releasing the locks it should. */
  ghost predicate Moved(s: State, n: State, c: nat) {
    && (forall d: nat | d != c :: n.Pc(d) == s.Pc(d))
    && (if !Critical(s.Pc(c)) && Critical(n.Pc(c)) then s.controlLock.None? && n.controlLock == Some(c)
        else if Critical(s.Pc(c)) && !Critical(n.Pc(c)) then n.controlLock == None
        else n.controlLock == s.controlLock)
    && (if !Allocating(s.Pc(c)) && Allocating(n.Pc(c)) then s.sequenceLock.None? && n.sequenceLock == Some(c)
        else if Allocating(s.Pc(c)) && !Allocating(n.Pc(c)) then n.sequenceLock == None
        else n.sequenceLock == s.sequenceLock)
  }

  lemma CallerMoves(s: State, a: Action)
    requires CallerStep(s, a).Some?
    ensures Moved(s, CallerStep(s, a).value, Actor(a))
  {
    if MovesOnly(a) {
      PlainMoves(s, a);
    } else {
      OtherMoves(s, a);
    }
  }

  lemma PlainMoves(s: State, a: Action)
    requires CallerStep(s, a).Some? && MovesOnly(a)
    ensures Moved(s, CallerStep(s, a).value, Actor(a))
  {
  }

  lemma OtherMoves(s: State, a: Action)
    requires CallerStep(s, a).Some? && !MovesOnly(a)
    ensures Moved(s, CallerStep(s, a).value, Actor(a))
  {
  }

  /** The caller that an action belongs to. */
  function Actor(a: Action): nat {
    match a
    case CallerCheck(c, _, _) => c
    case CallerLock(c) => c
    case CallerRecheck(c) => c
    case CallerRead(c) => c
    case CallerLoad(c) => c
    case CallerStore(c) => c
    case CallerRegister(c) => c
    case CallerSend(c, _) => c
    case CallerPopFailed(c) => c
    case CallerWake(c) => c
    case CallerTimeout(c) => c
    case CallerPopTimedOut(c) => c
    case CallerPopWoken(c) => c
    case CallerUnlock(c) => c
    case _ => 0
  }

  /** Actions of a caller that only move it and touch a lock. */
  predicate MovesOnly(a: Action) {
    a.CallerCheck? || a.CallerLock? || a.CallerRecheck? || a.CallerRead? || a.CallerLoad? || a.CallerWake?
    || a.CallerTimeout? || a.CallerUnlock?
  }

  predicate Pops(a: Action) {
    a.CallerPopFailed? || a.CallerPopTimedOut? || a.CallerPopWoken?
  }

  /** Reader actions that touch neither records nor requests. */
  predicate ReaderPlain(a: Action) {
    !a.ReaderShake? && !a.ReaderBeat? && !a.ReaderSetResponse? && !a.ReaderSetEvent?
  }

  /** The reader is inside `close`. */
  predicate RunsClose(s: State, a: Action) {
    a.ReaderClose? && s.reader.Closing? && s.reader.close !in {Closed, Aborted}
  }

  lemma ReaderFrame(s: State, a: Action)
    requires ReaderStep(s, a).Some?
    ensures var n := ReaderStep(s, a).value;
            n.callers == s.callers && n.controlLock == s.controlLock && n.sequenceLock == s.sequenceLock
            && n.outcomes == s.outcomes && n.closer == s.closer
  {
    hide CloseStep, ConnectStep, StreamStep;
    if a.ReaderClose? {
    } else if IsConnectAction(a) {
      ConnectFrame(s, a);
    } else {
      StreamFrame(s, a);
    }
  }

  /** Connecting leaves table and records alone. */
  lemma ConnectFrame(s: State, a: Action)
    requires ConnectStep(s, a).Some?
    ensures var n := ConnectStep(s, a).value;
            && n == s.(reader := n.reader, connected := n.connected, socket := n.socket, connections := n.connections,
                       generation := n.generation, nextSequence := n.nextSequence, requests := n.requests)
            && (!a.ReaderShake? ==> n.requests == s.requests)
  {
  }

  /** The media loop leaves the table and the connection alone. */
  lemma StreamFrame(s: State, a: Action)
    requires StreamStep(s, a).Some?
    ensures var n := StreamStep(s, a).value;
            && n == s.(reader := n.reader, connected := n.connected, records := n.records, requests := n.requests,
                       nextSequence := n.nextSequence)
            && (ReaderPlain(a) ==>
                  n.records == s.records && n.requests == s.requests && n.nextSequence == s.nextSequence)
  {
  }

  /** A reader inside `close` takes the step of `close`. */
  lemma ReaderCloses(s: State, a: Action)
    requires ReaderStep(s, a).Some? && RunsClose(s, a)
    ensures var x := CloseStep(Closer(s.socket, s.table, s.records, s.reader.close), a.step);
            && x.Some?
            && ReaderStep(s, a).value
               == s.(socket := x.value.socket, table := x.value.table, records := x.value.records,
                     reader := Closing(x.value.pc, s.reader.why))
  {
    hide CloseStep, ConnectStep, StreamStep;
  }

  lemma CloserFrame(s: State, a: Action)
    requires CloserStep(s, a).Some?
    ensures var n := CloserStep(s, a).value;
            n == s.(socket := n.socket, table := n.table, records := n.records, closer := n.closer, stop := n.stop,
                    connected := n.connected, connectionsAtClose := n.connectionsAtClose)
  {
    hide CloseStep;
  }

  /** The closer is inside `close`. */
  predicate CloserRunsClose(s: State, a: Action) {
    a.CloserClose? && s.closer.InClose? && s.closer.close != Aborted
  }

  /** The closer inside `close` takes the step of `close`. */
  lemma CloserCloses(s: State, a: Action)
    requires CloserStep(s, a).Some? && CloserRunsClose(s, a)
    ensures var x, n := CloseStep(Closer(s.socket, s.table, s.records, s.closer.close), a.step), CloserStep(s, a).value;
            && x.Some?
            && n == s.(socket := x.value.socket, table := x.value.table, records := x.value.records,
                       closer := InClose(x.value.pc), connectionsAtClose := n.connectionsAtClose)
            && (x.value.pc != Snapshot ==> n.connectionsAtClose == s.connectionsAtClose)
  {
    hide CloseStep;
  }

  /** What the callers' steps leave alone. */
  lemma CallerFrame(s: State, a: Action)
    requires CallerStep(s, a).Some?
    ensures var n := CallerStep(s, a).value;
            n.socket == s.socket && n.connections == s.connections && n.generation == s.generation
            && n.stop == s.stop && n.reader == s.reader && n.closer == s.closer
            && n.connectionsAtClose == s.connectionsAtClose
  {
    if a.CallerStore? || a.CallerRegister? || a.CallerSend? || Pops(a) {
    } else {
      assert MovesOnly(a);
    }
  }

  // ----- shape of table and records -----

  function TodoOf(close: ClosePc): set<nat> {
    if close.Failing? then close.todo else {}
  }

  function ReaderTodo(s: State): set<nat> {
    if s.reader.Closing? then TodoOf(s.reader.close) else {}
  }

  function CloserTodo(s: State): set<nat> {
    if s.closer.InClose? then TodoOf(s.closer.close) else {}
  }

  /** A command is pending under a request's number when its own key leads to it. */
  predicate Listed(s: State, id: nat) {
    id < |s.requests| && s.requests[id].key in s.table && s.table[s.requests[id].key] == id
  }

  /** Every table entry is the record of the caller that holds the control lock. */
  ghost predicate TableOwned(s: State) {
    forall k | k in s.table ::
      && s.controlLock.Some? && InTable(s.Pc(s.controlLock.value))
      && IdOf(s.Pc(s.controlLock.value)) == Some(s.table[k])
      && s.table[k] < |s.requests| && s.requests[s.table[k]].key == k
  }

  predicate ShapedAt(s: State, c: nat) {
    && (IdOf(s.Pc(c)).Some? ==> IdOf(s.Pc(c)).value < |s.requests|)
    && (s.Pc(c).Allocated? ==> s.Pc(c).id !in s.records)
    && (InTable(s.Pc(c)) ==> IdOf(s.Pc(c)).value in s.records && !s.CallerAt(c).fire)
    && (s.Pc(c).Woken? ==> s.records[s.Pc(c).id].event)
  }

  ghost predicate CallersShaped(s: State) {
    forall c: nat :: ShapedAt(s, c)
  }

  ghost predicate RecordsShaped(s: State) {
    && (forall id | id in s.records :: id < |s.requests|)
    && (forall k | k in s.table :: s.table[k] in s.records)
    && ReaderTodo(s) <= s.records.Keys
    && CloserTodo(s) <= s.records.Keys
    && (s.reader.Resolving? ==> s.reader.id in s.records)
    && (s.reader.ResponseSet? ==> s.reader.id in s.records)
    && HalfOk(s, if s.reader.Closing? then s.reader.close else TestSocket)
    && HalfOk(s, if s.closer.InClose? then s.closer.close else TestSocket)
  }

  /** A record between its two failure steps has its error set. */
  predicate HalfOk(s: State, close: ClosePc) {
    close.Failing? && close.half.Some? ==>
      close.half.value in close.todo && close.half.value in s.records && s.records[close.half.value].failed
  }

  ghost predicate Shape(s: State) {
    TableOwned(s) && CallersShaped(s) && RecordsShaped(s)
  }

  lemma MovesFacts(s: State, a: Action)
    requires Locks(s) && CallerStep(s, a).Some? && MovesOnly(a)
    ensures var n, d := CallerStep(s, a).value, Actor(a);
            && n == s.(callers := n.callers, controlLock := n.controlLock, sequenceLock := n.sequenceLock)
            && (forall c: nat | c != d :: n.CallerAt(c) == s.CallerAt(c))
            && IdOf(n.Pc(d)) == IdOf(s.Pc(d)) && InTable(n.Pc(d)) == InTable(s.Pc(d))
            && (InTable(s.Pc(d)) ==> n.CallerAt(d).fire == s.CallerAt(d).fire)
            && !n.Pc(d).Allocated? && !s.Pc(d).Allocated? && !n.Pc(d).Registered?
            && (n.controlLock == s.controlLock || (!InTable(s.Pc(d)) && s.controlLock in {None, Some(d)}))
            && (n.Pc(d).Waiting? ==> s.Pc(d).Waiting?)
            && (n.Pc(d).Woken? ==> s.Pc(d).Waiting? && s.Pc(d).id in s.records && s.records[s.Pc(d).id].event)
  {
    assert LocksAt(s, Actor(a));
  }

  lemma MovesKeepShape(s: State, a: Action)
    requires Locks(s) && Shape(s) && CallerStep(s, a).Some? && MovesOnly(a)
    ensures Shape(CallerStep(s, a).value)
  {
    MovesFacts(s, a);
    hide CallerStep, IdOf, InTable, HalfOk, TodoOf;
    var n, d := CallerStep(s, a).value, Actor(a);
    forall c: nat
      ensures ShapedAt(n, c)
    {
      assert ShapedAt(s, c);
    }
  }

  lemma StoreKeepsShape(s: State, a: Action)
    requires Locks(s) && Shape(s) && CallerStep(s, a).Some? && a.CallerStore?
    ensures Shape(CallerStep(s, a).value)
  {
    var n := CallerStep(s, a).value;
    assert LocksAt(s, a.c) && ShapedAt(s, a.c);
    forall c: nat
      ensures ShapedAt(n, c)
    {
      assert ShapedAt(s, c);
    }
  }

  lemma RegisterFacts(s: State, a: Action)
    requires CallerStep(s, a).Some? && a.CallerRegister?
    ensures var n, id := CallerStep(s, a).value, IdOf(s.Pc(a.c)).value;
            && s.Pc(a.c) == Allocated(id) && id < |s.requests| && !s.CallerAt(a.c).fire
            && n == s.(callers := n.callers, table := s.table[s.requests[id].key := id],
                       records := s.records[id := Record(false, None, false)])
            && (forall c: nat | c != a.c :: n.CallerAt(c) == s.CallerAt(c))
            && n.CallerAt(a.c) == s.CallerAt(a.c).(pc := Registered(id))
  {
  }

  lemma RegisterKeepsShape(s: State, a: Action)
    requires Locks(s) && Shape(s) && CallerStep(s, a).Some? && a.CallerRegister?
    ensures Shape(CallerStep(s, a).value)
  {
    RegisterFacts(s, a);
    hide CallerStep, HalfOk, TodoOf;
    var n := CallerStep(s, a).value;
    assert LocksAt(s, a.c) && ShapedAt(s, a.c);
    assert s.table == map[] by {
      assert forall k | k in s.table :: false;
    }
    forall c: nat
      ensures ShapedAt(n, c)
    {
      assert LocksAt(s, c) && ShapedAt(s, c);
    }
  }

  lemma SendFacts(s: State, a: Action)
    requires CallerStep(s, a).Some? && a.CallerSend?
    ensures var n, id := CallerStep(s, a).value, IdOf(s.Pc(a.c)).value;
            && n == s.(callers := n.callers, requests := n.requests)
            && (forall c: nat | c != a.c :: n.CallerAt(c) == s.CallerAt(c))
            && IdOf(s.Pc(a.c)).Some? && id < |s.requests|
            && n.requests == (if a.ok then s.requests[id := s.requests[id].(sentOn := s.socket)] else s.requests)
            && (a.ok ==> s.socket.Some?)
            && (if s.CallerAt(a.c).fire then n.Pc(a.c) == Unlocking
                else s.Pc(a.c) == Registered(id) && n.Pc(a.c) == if a.ok then Waiting(id) else SendFailed(id))
            && (s.Pc(a.c).Registered? || s.Pc(a.c).Allocated?)
            && (s.Pc(a.c).Allocated? ==> s.CallerAt(a.c).fire)
  {
  }

  lemma SendKeepsShape(s: State, a: Action)
    requires Locks(s) && Shape(s) && CallerStep(s, a).Some? && a.CallerSend?
    ensures Shape(CallerStep(s, a).value)
  {
    SendFacts(s, a);
    hide CallerStep, HalfOk, TodoOf;
    var n := CallerStep(s, a).value;
    assert LocksAt(s, a.c) && ShapedAt(s, a.c);
    assert forall i | 0 <= i < |s.requests| :: n.requests[i].key == s.requests[i].key;
    forall c: nat
      ensures ShapedAt(n, c)
    {
      assert LocksAt(s, c) && ShapedAt(s, c);
    }
  }

  /** Popping empties the table, because the only entry is the caller's own. */
  lemma PopsKeepShape(s: State, a: Action)
    requires Locks(s) && Shape(s) && CallerStep(s, a).Some? && Pops(a)
    ensures Shape(CallerStep(s, a).value)
    ensures CallerStep(s, a).value.table == map[]
  {
    var n, d := CallerStep(s, a).value, Actor(a);
    assert LocksAt(s, d) && ShapedAt(s, d);
    assert n.table == s.table - {s.requests[IdOf(s.Pc(d)).value].key};
    assert n.table == map[] by {
      forall k | k in s.table
        ensures k == s.requests[IdOf(s.Pc(d)).value].key
      {
        assert s.controlLock == Some(d);
      }
    }
    forall c: nat
      ensures ShapedAt(n, c)
    {
      assert ShapedAt(s, c);
    }
  }

  lemma CallerKeepsShape(s: State, a: Action)
    requires Locks(s) && Shape(s) && CallerStep(s, a).Some?
    ensures Shape(CallerStep(s, a).value)
  {
    if MovesOnly(a) {
      MovesKeepShape(s, a);
    } else if Pops(a) {
      PopsKeepShape(s, a);
    } else if a.CallerStore? {
      StoreKeepsShape(s, a);
    } else if a.CallerRegister? {
      RegisterKeepsShape(s, a);
    } else {
      SendKeepsShape(s, a);
    }
  }

  /** What one step of `close` can do to the table and the records. */
  lemma CloseFacts(x: Closer, a: CloseAction)
    requires CloseStep(x, a).Some?
    ensures var n := CloseStep(x, a).value;
            && n.records.Keys == x.records.Keys
            && (forall id | id in x.records ::
                  && n.records[id].response == x.records[id].response
                  && (x.records[id].failed ==> n.records[id].failed)
                  && (x.records[id].event ==> n.records[id].event)
                  && (n.records[id].event && !x.records[id].event ==> x.pc.Failing? && x.pc.half == Some(id))
                  && (id in TodoOf(x.pc) && id !in TodoOf(n.pc) ==> n.records[id].event))
            && (if x.pc == Snapshot then n.table == map[] && n.pc == Failing(x.table.Values, None)
                else n.table == x.table && TodoOf(n.pc) <= TodoOf(x.pc))
            && (n.pc.Failing? && n.pc.half.Some? ==>
                  n.pc.half.value in n.pc.todo && n.pc.half.value in n.records && n.records[n.pc.half.value].failed)
            && (n.socket == x.socket || n.socket == None)
            && (n.pc == Snapshot || n.pc == AbortClear ==> n.socket == None)
            && (x.pc == Snapshot || x.pc.Failing? ==> n.socket == x.socket)
            && (n.pc == Snapshot ==> x.pc == TestSocket || x.pc == ClearSocket)
            && (x.pc == AbortClear ==> n.pc == Aborted && n.socket == None)
            && (x.socket.None? ==> n.socket == None)
            && (n.pc == Closed ==> x.pc.Failing?)
            && (n.pc.Failing? ==> x.pc == Snapshot || x.pc.Failing?)
            && (n.pc == CloseSocket ==> x.socket.Some? && x.pc == TestSocket)
            && (n.pc == ClearSocket ==> x.socket.Some? && x.pc == CloseSocket)
            && (n.pc == AbortClear ==> x.pc == CloseSocket)
            && (n.pc == Aborted ==> x.pc == AbortClear)
            && n.pc != TestSocket
  {
  }

  /** The shape survives a step of `close` by either thread. */
  lemma CloseKeepsShape(s: State, n: State, x: Closer, a: CloseAction)
    requires Shape(s) && CloseStep(x, a).Some?
    requires x.table == s.table && x.records == s.records && x.socket == s.socket
    requires var m := CloseStep(x, a).value; n.table == m.table && n.records == m.records
    requires n.requests == s.requests && n.callers == s.callers && n.controlLock == s.controlLock
    requires HalfOk(s, x.pc) && TodoOf(x.pc) <= s.records.Keys
    ensures TableOwned(n) && CallersShaped(n)
    ensures n.records.Keys == s.records.Keys
    ensures forall k | k in n.table :: k in s.table && n.table[k] == s.table[k]
    ensures HalfOk(n, CloseStep(x, a).value.pc) && TodoOf(CloseStep(x, a).value.pc) <= n.records.Keys
    ensures forall id | id in s.records ::
              (s.records[id].failed ==> n.records[id].failed) && (s.records[id].event ==> n.records[id].event)
  {
    CloseFacts(x, a);
    hide CloseStep;
    forall c: nat
      ensures ShapedAt(n, c)
    {
      assert ShapedAt(s, c);
    }
  }

  lemma ReaderKeepsShape(s: State, a: Action)
    requires Shape(s) && ReaderStep(s, a).Some?
    ensures Shape(ReaderStep(s, a).value)
  {
    if RunsClose(s, a) {
      ReaderCloseKeepsShape(s, a);
    } else if ReaderPlain(a) {
      ReaderPlainKeepsShape(s, a);
    } else {
      ReaderWriteKeepsShape(s, a);
    }
  }

  lemma ReaderCloseKeepsShape(s: State, a: Action)
    requires Shape(s) && ReaderStep(s, a).Some?
    requires RunsClose(s, a)
    ensures Shape(ReaderStep(s, a).value)
  {
    var n := ReaderStep(s, a).value;
    ReaderCloses(s, a);
    hide CloseStep, ReaderStep;
    CloseKeepsShape(s, n, Closer(s.socket, s.table, s.records, s.reader.close), a.step);
  }

  lemma ReaderPlainFacts(s: State, a: Action)
    requires ReaderStep(s, a).Some? && ReaderPlain(a)
    requires !RunsClose(s, a)
    ensures var n := ReaderStep(s, a).value;
            n == s.(reader := n.reader, connected := n.connected, socket := n.socket, connections := n.connections,
                    generation := n.generation, nextSequence := n.nextSequence)
  {
    hide CloseStep, ConnectStep, StreamStep;
    if IsConnectAction(a) {
      ConnectFrame(s, a);
    } else if !a.ReaderClose? {
      StreamFrame(s, a);
    }
  }

  lemma ReaderPlainPlaces(s: State, a: Action)
    requires ReaderStep(s, a).Some? && ReaderPlain(a)
    requires !RunsClose(s, a)
    ensures var r := ReaderStep(s, a).value.reader;
            && (r.Closing? ==> r.close in {TestSocket, Snapshot})
            && (r.Resolving? ==>
                  a.ReaderReply? && r.reply == a.reply && r.reply.key in s.table && r.id == s.table[r.reply.key])
            && !r.ResponseSet?
  {
    hide CloseStep;
    if a.ReaderClose? || IsConnectAction(a) {
      hide StreamStep;
    } else {
      hide ConnectStep;
    }
  }

  lemma ReaderWriteFacts(s: State, a: Action)
    requires RecordsShaped(s) && ReaderStep(s, a).Some? && !ReaderPlain(a)
    ensures var n := ReaderStep(s, a).value;
            && n == s.(reader := n.reader, records := n.records, requests := n.requests, nextSequence := n.nextSequence)
            && s.requests <= n.requests && n.records.Keys == s.records.Keys
            && (forall id | id in s.records ::
                  && n.records[id].failed == s.records[id].failed
                  && (s.records[id].event ==> n.records[id].event)
                  && (s.records[id].response.Some? ==> n.records[id].response.Some?))
            && ReaderTodo(n) == {} && (n.reader.Closing? ==> n.reader.close == Snapshot)
            && !n.reader.Resolving?
            && (n.reader.ResponseSet? ==> n.reader.id in s.records)
  {
    hide CloseStep, HalfOk;
  }

  lemma ReaderPlainKeepsShape(s: State, a: Action)
    requires Shape(s) && ReaderStep(s, a).Some? && ReaderPlain(a) && !RunsClose(s, a)
    ensures Shape(ReaderStep(s, a).value)
  {
    hide ReaderStep, CloseStep;
    ReaderPlainFacts(s, a);
    ReaderPlainPlaces(s, a);
    forall c: nat
      ensures ShapedAt(ReaderStep(s, a).value, c)
    {
      assert ShapedAt(s, c);
    }
  }

  lemma ReaderWriteKeepsShape(s: State, a: Action)
    requires Shape(s) && ReaderStep(s, a).Some? && !ReaderPlain(a)
    ensures Shape(ReaderStep(s, a).value)
  {
    hide ReaderStep, CloseStep;
    ReaderWriteFacts(s, a);
    forall c: nat
      ensures ShapedAt(ReaderStep(s, a).value, c)
    {
      assert ShapedAt(s, c);
    }
  }

  /** Outside `close` the closer touches neither table nor records. */
  lemma CloserOtherFacts(s: State, a: Action)
    requires CloserStep(s, a).Some? && !CloserRunsClose(s, a)
    ensures var n := CloserStep(s, a).value;
            && n == s.(closer := n.closer, stop := n.stop, connected := n.connected)
            && CloserTodo(n) == {} && CloserTodo(s) == {}
            && (n.closer.InClose? ==> n.closer.close == TestSocket)
  {
    hide CloseStep;
  }

  lemma CloserOtherKeepsShape(s: State, a: Action)
    requires Shape(s) && CloserStep(s, a).Some? && !CloserRunsClose(s, a)
    ensures Shape(CloserStep(s, a).value)
  {
    hide CloserStep;
    CloserOtherFacts(s, a);
    forall c: nat
      ensures ShapedAt(CloserStep(s, a).value, c)
    {
      assert ShapedAt(s, c);
    }
  }

  lemma CloserKeepsShape(s: State, a: Action)
    requires Shape(s) && CloserStep(s, a).Some?
    ensures Shape(CloserStep(s, a).value)
  {
    hide CloseStep, CloserStep;
    if CloserRunsClose(s, a) {
      CloserCloses(s, a);
      CloseKeepsShape(s, CloserStep(s, a).value, Closer(s.socket, s.table, s.records, s.closer.close), a.step);
    } else {
      CloserOtherKeepsShape(s, a);
    }
  }

  // ----- no lost wake-up -----

  /** A command that waits, or is about to, is awake already, is in the table, or is in the snapshot of a running
      `_fail_pending`. */
  ghost predicate WakeAt(s: State, c: nat)
    requires ShapedAt(s, c)
  {
    InTable(s.Pc(c)) ==>
      var id := IdOf(s.Pc(c)).value;
      s.records[id].event || Listed(s, id) || id in ReaderTodo(s) || id in CloserTodo(s)
  }

  ghost predicate Wakes(s: State) {
    forall c: nat :: ShapedAt(s, c) && WakeAt(s, c)
  }

  lemma CallerKeepsWakes(s: State, a: Action)
    requires Locks(s) && Shape(s) && Wakes(s) && CallerStep(s, a).Some?
    ensures Wakes(CallerStep(s, a).value)
  {
    CallerKeepsShape(s, a);
    CallerKeepsLocks(s, a);
    hide CallerStep;
    var n := CallerStep(s, a).value;
    forall c: nat
      ensures ShapedAt(n, c) && WakeAt(n, c)
    {
      assert ShapedAt(n, c) && ShapedAt(s, c) && WakeAt(s, c);
      if c == Actor(a) {
        ActorWakes(s, a);
      } else {
        BystanderWakes(s, a, c);
      }
    }
  }

  /** A step inside the guarded region keeps every other caller out of it. */
  lemma BystanderWakes(s: State, a: Action, c: nat)
    requires Locks(s) && CallerStep(s, a).Some? && c != Actor(a) && Locks(CallerStep(s, a).value)
    requires ShapedAt(s, c) && WakeAt(s, c) && ShapedAt(CallerStep(s, a).value, c)
    ensures WakeAt(CallerStep(s, a).value, c)
  {
    hide CallerStep;
    var n, d := CallerStep(s, a).value, Actor(a);
    CallerMoves(s, a);
    assert LocksAt(s, d) && LocksAt(n, d) && LocksAt(s, c) && LocksAt(n, c);
    if !Critical(s.Pc(d)) && !Critical(n.Pc(d)) {
      OutsideFacts(s, a);
    }
  }

  /** A caller outside the guarded region before and after its step has only moved. */
  lemma OutsideFacts(s: State, a: Action)
    requires CallerStep(s, a).Some? && !Critical(s.Pc(Actor(a))) && !Critical(CallerStep(s, a).value.Pc(Actor(a)))
    ensures CallerStep(s, a).value == s.(callers := CallerStep(s, a).value.callers)
  {
  }

  /** Only the acting caller can be inside the table region, so only its own record matters. */
  lemma ActorWakes(s: State, a: Action)
    requires Locks(s) && Shape(s) && Wakes(s) && CallerStep(s, a).Some?
    requires ShapedAt(CallerStep(s, a).value, Actor(a))
    ensures WakeAt(CallerStep(s, a).value, Actor(a))
  {
    hide CallerStep;
    var n, d := CallerStep(s, a).value, Actor(a);
    assert ShapedAt(s, d) && WakeAt(s, d);
    if MovesOnly(a) {
      MovesFacts(s, a);
    } else if a.CallerSend? {
      SendFacts(s, a);
    } else if a.CallerRegister? {
      RegisterFacts(s, a);
    } else {
      LeavesTable(s, a);
    }
  }

  lemma LeavesTable(s: State, a: Action)
    requires CallerStep(s, a).Some? && !MovesOnly(a) && !a.CallerSend? && !a.CallerRegister?
    ensures !InTable(CallerStep(s, a).value.Pc(Actor(a)))
  {
  }

  /** A step of `close` keeps every wake-up promised: clearing the table moves its records to the snapshot, and a
      record leaves the snapshot only with its event set. */
  lemma CloseKeepsWakes(s: State, n: State, x: Closer, a: CloseAction, c: nat)
    requires CloseStep(x, a).Some? && ShapedAt(s, c) && ShapedAt(n, c) && WakeAt(s, c)
    requires x.table == s.table && x.records == s.records
    requires var m := CloseStep(x, a).value; n.table == m.table && n.records == m.records
    requires n.requests == s.requests && n.callers == s.callers
    requires || (TodoOf(x.pc) == ReaderTodo(s) && TodoOf(CloseStep(x, a).value.pc) == ReaderTodo(n)
                 && CloserTodo(n) == CloserTodo(s))
             || (TodoOf(x.pc) == CloserTodo(s) && TodoOf(CloseStep(x, a).value.pc) == CloserTodo(n)
                 && ReaderTodo(n) == ReaderTodo(s))
    ensures WakeAt(n, c)
  {
    CloseFacts(x, a);
    hide CloseStep;
    if InTable(s.Pc(c)) {
      var id := IdOf(s.Pc(c)).value;
      assert n.Pc(c) == s.Pc(c);
      if x.pc == Snapshot && Listed(s, id) {
        assert s.table[s.requests[id].key] in s.table.Values;
      }
    }
  }

  lemma ReaderKeepsWakes(s: State, a: Action)
    requires Shape(s) && Wakes(s) && ReaderStep(s, a).Some?
    ensures Wakes(ReaderStep(s, a).value)
  {
    ReaderKeepsShape(s, a);
    var n := ReaderStep(s, a).value;
    forall c: nat
      ensures ShapedAt(n, c) && WakeAt(n, c)
    {
      assert ShapedAt(n, c) && ShapedAt(s, c) && WakeAt(s, c);
      ReaderKeepsWake(s, a, c);
    }
  }

  lemma ReaderKeepsWake(s: State, a: Action, c: nat)
    requires RecordsShaped(s) && ReaderStep(s, a).Some?
    requires ShapedAt(s, c) && WakeAt(s, c) && ShapedAt(ReaderStep(s, a).value, c)
    ensures WakeAt(ReaderStep(s, a).value, c)
  {
    hide ReaderStep, CloseStep;
    var n := ReaderStep(s, a).value;
    if RunsClose(s, a) {
      ReaderCloses(s, a);
      CloseKeepsWakes(s, n, Closer(s.socket, s.table, s.records, s.reader.close), a.step, c);
    } else {
      ReaderKeepsNoTodo(s, a);
      ReaderOtherFrame(s, a);
      WakeKept(s, n, c);
    }
  }

  /** Outside `close` the reader leaves callers, table and closer alone, and takes no event back. */
  lemma ReaderOtherFrame(s: State, a: Action)
    requires RecordsShaped(s) && ReaderStep(s, a).Some? && !RunsClose(s, a)
    ensures var n := ReaderStep(s, a).value;
            && n.callers == s.callers && n.table == s.table && n.closer == s.closer && s.requests <= n.requests
            && (forall id | id in s.records :: id in n.records && (s.records[id].event ==> n.records[id].event))
  {
    hide ReaderStep, CloseStep, RecordsShaped;
    if ReaderPlain(a) {
      ReaderPlainFacts(s, a);
    } else {
      ReaderWriteFacts(s, a);
    }
  }

  /** A wake-up stays promised while table, snapshots and events stay. */
  lemma WakeKept(s: State, n: State, c: nat)
    requires ShapedAt(s, c) && WakeAt(s, c) && ShapedAt(n, c)
    requires n.callers == s.callers && n.table == s.table && n.closer == s.closer && s.requests <= n.requests
    requires forall id | id in s.records :: id in n.records && (s.records[id].event ==> n.records[id].event)
    requires ReaderTodo(s) == {}
    ensures WakeAt(n, c)
  {
    assert n.Pc(c) == s.Pc(c);
  }

  lemma ReaderKeepsNoTodo(s: State, a: Action)
    requires ReaderStep(s, a).Some?
    requires !RunsClose(s, a)
    ensures ReaderTodo(s) == {}
  {
    hide CloseStep;
  }

  lemma CloserKeepsWakes(s: State, a: Action)
    requires Shape(s) && Wakes(s) && CloserStep(s, a).Some?
    ensures Wakes(CloserStep(s, a).value)
  {
    CloserKeepsShape(s, a);
    var n := CloserStep(s, a).value;
    forall c: nat
      ensures ShapedAt(n, c) && WakeAt(n, c)
    {
      assert ShapedAt(n, c) && ShapedAt(s, c) && WakeAt(s, c);
      if CloserRunsClose(s, a) {
        CloseKeepsWakes(s, n, Closer(s.socket, s.table, s.records, s.closer.close), a.step, c);
      } else {
        hide CloseStep;
      }
    }
  }

  // ----- outcomes -----

  /** A set event has a response or an error behind it, and a response carries its record's own key. */
  predicate SettledAt(s: State, id: nat) {
    id in s.records && id < |s.requests| ==>
      && (s.records[id].event ==> s.records[id].failed || s.records[id].response.Some?)
      && (s.records[id].response.Some? ==> s.records[id].response.value.key == s.requests[id].key)
  }

  ghost predicate Settled(s: State) {
    && (forall id: nat :: SettledAt(s, id))
    && (s.reader.Resolving? ==>
          s.reader.id < |s.requests| && s.reader.reply.key == s.requests[s.reader.id].key)
    && (s.reader.ResponseSet? ==> s.reader.id in s.records && s.records[s.reader.id].response.Some?)
    && (forall id | id in s.outcomes ::
          && id < |s.requests| && s.outcomes[id] != NoResponse
          && (s.outcomes[id].Answered? ==> s.outcomes[id].reply.key == s.requests[id].key))
  }

  lemma CallerKeepsSettled(s: State, a: Action)
    requires Locks(s) && Shape(s) && Settled(s) && CallerStep(s, a).Some?
    ensures Settled(CallerStep(s, a).value)
  {
    if MovesOnly(a) || a.CallerSend? {
      FrameKeepsSettled(s, a);
    } else if Pops(a) {
      PopsKeepSettled(s, a);
    } else {
      assert ShapedAt(s, Actor(a));
      forall id: nat
        ensures SettledAt(CallerStep(s, a).value, id)
      {
        assert SettledAt(s, id);
      }
    }
  }

  lemma FrameKeepsSettled(s: State, a: Action)
    requires Locks(s) && Settled(s) && CallerStep(s, a).Some? && (MovesOnly(a) || a.CallerSend?)
    ensures Settled(CallerStep(s, a).value)
  {
    if MovesOnly(a) {
      MovesFacts(s, a);
    } else {
      SendFacts(s, a);
    }
    hide CallerStep;
    forall id: nat
      ensures SettledAt(CallerStep(s, a).value, id)
    {
      assert SettledAt(s, id);
    }
  }

  lemma PopsKeepSettled(s: State, a: Action)
    requires Shape(s) && Settled(s) && CallerStep(s, a).Some? && Pops(a)
    ensures Settled(CallerStep(s, a).value)
  {
    var n, d := CallerStep(s, a).value, Actor(a);
    assert ShapedAt(s, d);
    var id := IdOf(s.Pc(d)).value;
    assert SettledAt(s, id);
    assert n.records == s.records && n.requests == s.requests && n.reader == s.reader;
    assert n.outcomes == s.outcomes[id := n.outcomes[id]];
    assert a.CallerPopWoken? ==> s.records[id].event && n.outcomes[id] == OutcomeOf(s.records[id]);
    forall i: nat
      ensures SettledAt(n, i)
    {
      assert SettledAt(s, i);
    }
  }

  lemma ReaderKeepsSettled(s: State, a: Action)
    requires Shape(s) && Settled(s) && ReaderStep(s, a).Some?
    ensures Settled(ReaderStep(s, a).value)
  {
    var n := ReaderStep(s, a).value;
    if RunsClose(s, a) {
      CloseFacts(Closer(s.socket, s.table, s.records, s.reader.close), a.step);
      hide CloseStep;
      CloseKeepsSettled(s, n, Closer(s.socket, s.table, s.records, s.reader.close), a.step);
    } else if ReaderPlain(a) {
      ReaderPlainFacts(s, a);
      ReaderPlainPlaces(s, a);
      hide ReaderStep, CloseStep;
      assert forall id: nat :: SettledAt(s, id) ==> SettledAt(n, id);
    } else {
      ReaderWriteKeepsSettled(s, a);
    }
  }

  lemma CloseKeepsSettled(s: State, n: State, x: Closer, a: CloseAction)
    requires CloseStep(x, a).Some? && x.records == s.records && HalfOk(s, x.pc)
    requires n.records == CloseStep(x, a).value.records && n.requests == s.requests
    requires forall id: nat :: SettledAt(s, id)
    ensures forall id: nat :: SettledAt(n, id)
  {
    CloseFacts(x, a);
    hide CloseStep;
    forall id: nat
      ensures SettledAt(n, id)
    {
      assert SettledAt(s, id);
    }
  }

  lemma ReaderWriteKeepsSettled(s: State, a: Action)
    requires Shape(s) && Settled(s) && ReaderStep(s, a).Some? && !ReaderPlain(a)
    ensures Settled(ReaderStep(s, a).value)
  {
    hide CloseStep;
    var n := ReaderStep(s, a).value;
    assert s.requests <= n.requests;
    forall id: nat
      ensures SettledAt(n, id)
    {
      assert SettledAt(s, id);
    }
    assert n.outcomes == s.outcomes && !n.reader.Resolving?;
  }

  lemma CloserKeepsSettled(s: State, a: Action)
    requires Shape(s) && Settled(s) && CloserStep(s, a).Some?
    ensures Settled(CloserStep(s, a).value)
  {
    var n := CloserStep(s, a).value;
    CloserFrame(s, a);
    if CloserRunsClose(s, a) {
      CloseFacts(Closer(s.socket, s.table, s.records, s.closer.close), a.step);
      CloseKeepsSettled(s, n, Closer(s.socket, s.table, s.records, s.closer.close), a.step);
      hide CloseStep;
    } else {
      assert forall id: nat :: SettledAt(s, id) ==> SettledAt(n, id);
    }
  }
}
