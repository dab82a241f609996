/** Safety of the pending-command protocol: who wakes a blocked caller, and whose reply it gets. */
module PendingSafety {
  import opened Basics
  import opened Pending
  import opened PendingInvariants

  // ----- connections -----

  /** The reader is between its last close and the opening of the next connection. */
  predicate Between(r: ReaderPc) {
    || r == Top || r == Stopped || r == Opening
    || (r.Closing? && r.why == ConnectStart)
    || (r.Closing? && r.why != StreamEnd && (r.close == Snapshot || r.close.Failing? || r.close == Closed))
  }

  /** As before, and the table has been cleared since the last connection. */
  predicate TableSwept(r: ReaderPc) {
    || r == Top || r == Stopped || r == Opening
    || (r.Closing? && r.why == ConnectStart)
    || (r.Closing? && r.why != StreamEnd && (r.close.Failing? || r.close == Closed))
  }

  predicate AtSnapshot(s: State) {
    (s.reader.Closing? && s.reader.close == Snapshot) || s.closer == InClose(Snapshot)
  }

  /** `close()` by the closer has dealt with the socket. */
  predicate CloserPastSocket(s: State) {
    || s.closer == InClose(Snapshot) || (s.closer.InClose? && s.closer.close.Failing?)
    || s.closer == InClose(Closed) || s.closer == Finished
  }

  predicate CloserPastSnapshot(s: State) {
    CloserPastSocket(s) && s.closer != InClose(Snapshot)
  }

  predicate Sockets(s: State) {
    && (s.socket.Some? ==> s.socket.value == s.connections)
    && (Between(s.reader) ==> s.socket.None?)
    && (s.closer != Idle ==> s.stop)
    && (s.closer in {InClose(CloseSocket), InClose(ClearSocket), InClose(AbortClear)} ==>
          s.reader != Opening && !(s.reader.Closing? && s.reader.why == ConnectStart))
    && (s.closer == InClose(AbortClear) ==> s.socket.None?)
    && (s.reader.Closing? && s.reader.close == AbortClear ==> s.socket.None?)
    && s.connectionsAtClose <= s.connections
    && (CloserPastSocket(s) && s.connections == s.connectionsAtClose ==> s.socket.None?)
    && (s.reader.Closing? && s.reader.why == StreamEnd ==>
          s.reader.close == Snapshot || s.reader.close.Failing? || s.reader.close == Closed)
  }

  lemma CallerKeepsSockets(s: State, a: Action)
    requires Sockets(s) && CallerStep(s, a).Some?
    ensures Sockets(CallerStep(s, a).value)
  {
    CallerFrame(s, a);
    hide CallerStep;
  }

  lemma ReaderKeepsSockets(s: State, a: Action)
    requires Sockets(s) && ReaderStep(s, a).Some?
    ensures Sockets(ReaderStep(s, a).value)
  {
    hide ReaderStep, CloseStep, Sockets;
    if RunsClose(s, a) {
      ReaderCloseKeepsSockets(s, a);
    } else if ReaderPlain(a) {
      ReaderPlainKeepsSockets(s, a);
    } else {
      ReaderWriteKeepsSockets(s, a);
    }
  }

  lemma ReaderCloseKeepsSockets(s: State, a: Action)
    requires Sockets(s) && ReaderStep(s, a).Some? && RunsClose(s, a)
    ensures Sockets(ReaderStep(s, a).value)
  {
    hide ReaderStep, CloseStep;
    ReaderCloses(s, a);
    CloseFacts(Closer(s.socket, s.table, s.records, s.reader.close), a.step);
  }

  lemma ReaderPlainKeepsSockets(s: State, a: Action)
    requires Sockets(s) && ReaderStep(s, a).Some? && ReaderPlain(a)
    requires !RunsClose(s, a)
    ensures Sockets(ReaderStep(s, a).value)
  {
    if a.ReaderClose? || a.ReaderLoop? || a.ReaderOpen? {
      ReaderTurnsKeepSockets(s, a);
    } else {
      ReaderMoves(s, a);
      hide ReaderStep, CloseStep;
    }
  }

  lemma ReaderTurnsKeepSockets(s: State, a: Action)
    requires Sockets(s) && ReaderStep(s, a).Some? && (a.ReaderClose? || a.ReaderLoop? || a.ReaderOpen?)
    requires !RunsClose(s, a)
    ensures Sockets(ReaderStep(s, a).value)
  {
    hide CloseStep, ConnectStep, StreamStep, Sockets;
    if a.ReaderClose? {
      CloseReturnKeepsSockets(s, a.step);
    } else {
      OpeningKeepsSockets(s, a);
    }
  }

  lemma CloseReturnKeepsSockets(s: State, step: CloseAction)
    requires Sockets(s) && CloseByReader(s, step).Some? && s.reader.close in {Closed, Aborted}
    ensures Sockets(CloseByReader(s, step).value)
  {
    hide CloseStep;
  }

  lemma OpeningKeepsSockets(s: State, a: Action)
    requires Sockets(s) && ConnectStep(s, a).Some? && (a.ReaderLoop? || a.ReaderOpen?)
    ensures Sockets(ConnectStep(s, a).value)
  {
  }

  lemma ReaderMoves(s: State, a: Action)
    requires ReaderStep(s, a).Some? && ReaderPlain(a) && !a.ReaderClose? && !a.ReaderLoop? && !a.ReaderOpen?
    ensures var n := ReaderStep(s, a).value;
            && n.socket == s.socket && n.connections == s.connections && n.stop == s.stop && n.closer == s.closer
            && n.connectionsAtClose == s.connectionsAtClose
            && !Between(n.reader)
            && (n.reader.Closing? ==>
                  && (n.reader.why == StreamEnd ==> n.reader.close == Snapshot)
                  && n.reader.close in {TestSocket, Snapshot} && n.reader.why != ConnectStart)
  {
    hide CloseStep;
    if IsConnectAction(a) {
      hide StreamStep;
    } else {
      hide ConnectStep;
    }
  }

  lemma ReaderWriteKeepsSockets(s: State, a: Action)
    requires Sockets(s) && ReaderStep(s, a).Some? && !ReaderPlain(a)
    ensures Sockets(ReaderStep(s, a).value)
  {
    hide CloseStep;
  }

  lemma CloserKeepsSockets(s: State, a: Action)
    requires Sockets(s) && CloserStep(s, a).Some?
    ensures Sockets(CloserStep(s, a).value)
  {
    CloserFrame(s, a);
    if CloserRunsClose(s, a) {
      CloseFacts(Closer(s.socket, s.table, s.records, s.closer.close), a.step);
    }
    hide CloseStep;
  }

  /** A command that was sent and is in the table belongs to a connection that is open or about to be swept; after
      the closer's sweep, with no connection opened since, no such command exists. */
  ghost predicate SweptAt(s: State, c: nat) {
    s.Pc(c).Waiting? && Listed(s, s.Pc(c).id) ==>
      && (s.socket.Some? || AtSnapshot(s))
      && (CloserPastSnapshot(s) ==> s.connections != s.connectionsAtClose)
  }

  ghost predicate Swept(s: State) {
    forall c: nat :: SweptAt(s, c)
  }

  lemma CallerKeepsSwept(s: State, a: Action)
    requires Locks(s) && Shape(s) && Sockets(s) && Swept(s) && CallerStep(s, a).Some?
    ensures Swept(CallerStep(s, a).value)
  {
    CallerKeepsLocks(s, a);
    var n, d := CallerStep(s, a).value, Actor(a);
    assert LocksAt(s, d) && ShapedAt(s, d);
    forall c: nat
      ensures SweptAt(n, c)
    {
      assert LocksAt(s, c) && LocksAt(n, c) && SweptAt(s, c) && ShapedAt(s, c);
      ActorSwept(s, a, c);
    }
  }

  lemma ActorSwept(s: State, a: Action, c: nat)
    requires Locks(s) && Shape(s) && Sockets(s) && SweptAt(s, c) && CallerStep(s, a).Some?
    requires LocksAt(s, c) && LocksAt(CallerStep(s, a).value, c) && ShapedAt(s, c)
    ensures SweptAt(CallerStep(s, a).value, c)
  {
    assert LocksAt(s, Actor(a)) && ShapedAt(s, Actor(a));
    if MovesOnly(a) {
      MovesFacts(s, a);
      hide CallerStep;
    } else if a.CallerSend? {
      SendFacts(s, a);
      hide CallerStep;
    } else if Pops(a) {
      PopsKeepShape(s, a);
      hide CallerStep;
    } else {
      NotWaiting(s, a);
    }
  }

  /** Storing the sequence and registering the command happen while no one waits. */
  lemma NotWaiting(s: State, a: Action)
    requires Locks(s) && CallerStep(s, a).Some? && (a.CallerStore? || a.CallerRegister?)
    ensures forall c: nat :: !CallerStep(s, a).value.Pc(c).Waiting?
  {
    forall c: nat
      ensures !CallerStep(s, a).value.Pc(c).Waiting?
    {
      assert LocksAt(s, c) && LocksAt(s, a.c);
    }
  }

  lemma CloseKeepsSwept(s: State, n: State, x: Closer, a: CloseAction, c: nat)
    requires CloseStep(x, a).Some? && SweptAt(s, c) && Sockets(s)
    requires x.table == s.table && x.records == s.records && x.socket == s.socket
    requires var m := CloseStep(x, a).value; n.table == m.table && n.socket == m.socket
    requires n.requests == s.requests && n.callers == s.callers && n.connections == s.connections
    requires || (s.reader.Closing? && s.reader.close == x.pc && n.reader.Closing?
                 && n.reader.close == CloseStep(x, a).value.pc && n.closer == s.closer
                 && n.connectionsAtClose == s.connectionsAtClose)
             || (s.closer == InClose(x.pc) && n.closer == InClose(CloseStep(x, a).value.pc) && n.reader == s.reader
                 && (n.closer != InClose(Snapshot) ==> n.connectionsAtClose == s.connectionsAtClose))
    ensures SweptAt(n, c)
  {
    CloseFacts(x, a);
    hide CloseStep;
    assert n.Pc(c) == s.Pc(c);
  }

  lemma ReaderKeepsSwept(s: State, a: Action)
    requires Shape(s) && Sockets(s) && Swept(s) && ReaderStep(s, a).Some?
    ensures Swept(ReaderStep(s, a).value)
  {
    hide ReaderStep, CloseStep;
    var n := ReaderStep(s, a).value;
    forall c: nat
      ensures SweptAt(n, c)
    {
      assert SweptAt(s, c) && ShapedAt(s, c);
      if RunsClose(s, a) {
        ReaderCloses(s, a);
        CloseKeepsSwept(s, n, Closer(s.socket, s.table, s.records, s.reader.close), a.step, c);
      } else {
        ReaderKeepsSweptAt(s, a, c);
      }
    }
  }

  lemma ReaderKeepsSweptAt(s: State, a: Action, c: nat)
    requires Sockets(s) && RecordsShaped(s) && SweptAt(s, c) && ShapedAt(s, c) && ReaderStep(s, a).Some?
    requires !RunsClose(s, a)
    ensures SweptAt(ReaderStep(s, a).value, c)
  {
    ReaderSocketFacts(s, a);
    if ReaderPlain(a) {
      ReaderPlainFacts(s, a);
    } else {
      ReaderWriteFacts(s, a);
    }
    hide ReaderStep, CloseStep;
    var n := ReaderStep(s, a).value;
    assert n.Pc(c) == s.Pc(c) && n.table == s.table && s.requests <= n.requests && n.closer == s.closer;
    if n.Pc(c).Waiting? && Listed(n, n.Pc(c).id) {
      assert n.requests[s.Pc(c).id] == s.requests[s.Pc(c).id];
    }
  }

  lemma ReaderSocketFacts(s: State, a: Action)
    requires Sockets(s) && ReaderStep(s, a).Some?
    requires !RunsClose(s, a)
    ensures var n := ReaderStep(s, a).value;
            && n.connectionsAtClose == s.connectionsAtClose && n.connections >= s.connections
            && (s.socket.Some? ==> n.socket.Some?)
            && !(s.reader.Closing? && s.reader.close == Snapshot)
  {
    hide CloseStep, ConnectStep, StreamStep;
    if a.ReaderClose? {
    } else if IsConnectAction(a) {
      ConnectSocketFacts(s, a);
    } else {
      StreamFrame(s, a);
      StreamPlaces(s, a);
    }
  }

  lemma ConnectSocketFacts(s: State, a: Action)
    requires Sockets(s) && ConnectStep(s, a).Some?
    ensures var n := ConnectStep(s, a).value;
            && n.connectionsAtClose == s.connectionsAtClose && n.connections >= s.connections
            && (s.socket.Some? ==> n.socket.Some?)
            && !(s.reader.Closing? && s.reader.close == Snapshot)
  {
  }

  lemma StreamPlaces(s: State, a: Action)
    requires StreamStep(s, a).Some?
    ensures !s.reader.Closing?
  {
  }

  lemma CloserKeepsSwept(s: State, a: Action)
    requires Shape(s) && Sockets(s) && Swept(s) && CloserStep(s, a).Some?
    ensures Swept(CloserStep(s, a).value)
  {
    var n := CloserStep(s, a).value;
    forall c: nat
      ensures SweptAt(n, c)
    {
      assert SweptAt(s, c);
      if CloserRunsClose(s, a) {
        CloseKeepsSwept(s, n, Closer(s.socket, s.table, s.records, s.closer.close), a.step, c);
      } else {
        hide CloseStep;
      }
    }
  }
}
