/** The pending-command protocol comes to an end: `close` finishes and wakes whoever waits, no thread is ever stuck, and
    every call returns with the outcome its record says. */
module PendingProgress {
  import opened Basics
  import opened Pending
  import opened PendingInvariants
  import opened PendingTheorems
  import PendingLimits

  // ----- close -----

  /** What a snapshot lists has records, and so has what the table lists before one is taken. */
  ghost predicate CloseReady(s: Closer) {
    && (!s.pc.Failing? && s.pc !in {Closed, Aborted} ==> s.table.Values <= s.records.Keys)
    && (s.pc.Failing? ==> s.pc.todo <= s.records.Keys)
    && (s.pc.Failing? && s.pc.half.Some? ==>
          s.pc.half.value in s.pc.todo && s.pc.half.value in s.records && s.records[s.pc.half.value].failed)
  }

  function Stage(pc: ClosePc): nat {
    match pc
    case TestSocket => 5
    case CloseSocket => 4
    case ClearSocket => 3
    case Snapshot => 2
    case AbortClear => 1
    case Failing(_, _) => 1
    case Closed => 0
    case Aborted => 0
  }

  function Left(pc: ClosePc): nat {
    if pc.Failing? then 2 * |pc.todo| + (if pc.half.None? then 1 else 0) else 0
  }

  /** `close` never stands still before it has ended. */
  lemma CloseCanGo(s: Closer) returns (a: CloseAction)
    requires CloseReady(s) && s.pc !in {Closed, Aborted}
    ensures CloseStep(s, a).Some?
  {
    a := Proceed;
    if s.pc.Failing? && s.pc.half.None? && s.pc.todo != {} {
      var id :| id in s.pc.todo;
      a := MarkFailed(id);
    }
  }

  /** Each of its steps leads to a later place, or leaves less to do there. */
  lemma CloseGoesOn(s: Closer, a: CloseAction)
    requires CloseReady(s) && CloseStep(s, a).Some?
    ensures var n := CloseStep(s, a).value;
            && CloseReady(n)
            && (Stage(n.pc) < Stage(s.pc) || (Stage(n.pc) == Stage(s.pc) && Left(n.pc) < Left(s.pc)))
  {
  }

  function CloseRun(s: Closer, steps: seq<CloseAction>): Option<Closer>
    decreases |steps|
  {
    if steps == [] then Some(s)
    else
      match CloseStep(s, steps[0])
      case None => None
      case Some(n) => CloseRun(n, steps[1..])
  }

  /** The commands that a `close` will wake: those of its snapshot, or of the table that it will take one of. */
  function ToWake(s: Closer): set<nat> {
    if s.pc.Failing? then s.pc.todo else if s.pc in {Closed, Aborted} then {} else s.table.Values
  }

  /** What `close` has done when it has ended by itself: no socket, an empty table, and the error and the event set on
      every command there was. Only a socket that is already gone makes it raise instead. */
  ghost predicate ClosedFrom(s: Closer, n: Closer) {
    && n.pc == (if s.pc == AbortClear || (s.pc == CloseSocket && s.socket.None?) then Aborted
                else if s.pc == Aborted then Aborted else Closed)
    && n.socket == (if s.pc in {TestSocket, CloseSocket, ClearSocket, AbortClear} then None else s.socket)
    && n.records.Keys == s.records.Keys
    && (n.pc == Closed ==>
          && n.table == (if s.pc.Failing? || s.pc == Closed then s.table else map[])
          && (forall id | id in ToWake(s) && id in s.records ::
                n.records[id] == s.records[id].(failed := true, event := true))
          && (forall id | id in s.records && id !in ToWake(s) :: n.records[id] == s.records[id]))
  }

  lemma ClosedStep(s: Closer, a: CloseAction, n: Closer)
    requires CloseReady(s) && CloseStep(s, a).Some? && ClosedFrom(CloseStep(s, a).value, n)
    ensures ClosedFrom(s, n)
  {
  }

  /** `close` ends within finitely many of its own steps. */
  lemma {:induction false} CloseEnds(s: Closer) returns (steps: seq<CloseAction>)
    requires CloseReady(s)
    ensures CloseRun(s, steps).Some? && ClosedFrom(s, CloseRun(s, steps).value)
    decreases Stage(s.pc), Left(s.pc)
  {
    hide CloseStep, CloseReady;
    steps := [];
    if s.pc !in {Closed, Aborted} {
      hide ClosedFrom, Stage, Left;
      var a := CloseCanGo(s);
      CloseGoesOn(s, a);
      var rest := CloseEnds(CloseStep(s, a).value);
      steps := [a] + rest;
      assert steps[1..] == rest;
      ClosedStep(s, a, CloseRun(s, steps).value);
    }
  }

  // ----- close by the closer and by the reader -----

  function CloserView(s: State): Closer
    requires s.closer.InClose?
  {
    Closer(s.socket, s.table, s.records, s.closer.close)
  }

  function ReaderView(s: State): Closer
    requires s.reader.Closing?
  {
    Closer(s.socket, s.table, s.records, s.reader.close)
  }

  lemma ReadyInside(s: State)
    requires Shape(s)
    ensures s.closer.InClose? ==> CloseReady(CloserView(s))
    ensures s.reader.Closing? ==> CloseReady(ReaderView(s))
  {
    hide ShapedAt;
    forall id | id in s.table.Values
      ensures id in s.records.Keys
    {
      var k :| k in s.table && s.table[k] == id;
    }
  }

  function ByCloser(steps: seq<CloseAction>): (actions: seq<Action>)
    ensures |actions| == |steps| && forall i | 0 <= i < |steps| :: actions[i] == CloserClose(steps[i])
  {
    seq(|steps|, i requires 0 <= i < |steps| => CloserClose(steps[i]))
  }

  function ByReader(steps: seq<CloseAction>): (actions: seq<Action>)
    ensures |actions| == |steps| && forall i | 0 <= i < |steps| :: actions[i] == ReaderClose(steps[i])
  {
    seq(|steps|, i requires 0 <= i < |steps| => ReaderClose(steps[i]))
  }

  lemma CloserActs(s: State, a: CloseAction)
    requires s.closer.InClose? && CloseStep(CloserView(s), a).Some?
    ensures var x, n := CloseStep(CloserView(s), a).value, Step(s, CloserClose(a));
            && n.Some? && n.value.closer == InClose(x.pc) && CloserView(n.value) == x
            && n.value == s.(socket := x.socket, table := x.table, records := x.records, closer := InClose(x.pc),
                             connectionsAtClose := n.value.connectionsAtClose)
  {
    hide CloseStep;
    assert s.closer.close != Aborted by {
      NoStepAborted(CloserView(s), a);
    }
  }

  lemma NoStepAborted(s: Closer, a: CloseAction)
    ensures s.pc in {Closed, Aborted} ==> CloseStep(s, a) == None
  {
  }

  lemma ReaderCloseActs(s: State, a: CloseAction)
    requires s.reader.Closing? && CloseStep(ReaderView(s), a).Some?
    ensures var x, n := CloseStep(ReaderView(s), a).value, Step(s, ReaderClose(a));
            && n.Some? && n.value.reader == Closing(x.pc, s.reader.why) && ReaderView(n.value) == x
            && n.value == s.(socket := x.socket, table := x.table, records := x.records,
                             reader := Closing(x.pc, s.reader.why))
  {
    hide CloseStep;
    assert s.reader.close !in {Closed, Aborted} by {
      NoStepAborted(ReaderView(s), a);
    }
  }

  lemma {:induction false} CloserRuns(s: State, steps: seq<CloseAction>)
    requires s.closer.InClose? && CloseRun(CloserView(s), steps).Some?
    ensures var x, n := CloseRun(CloserView(s), steps).value, Run(s, ByCloser(steps));
            && n.Some?
            && n.value == s.(socket := x.socket, table := x.table, records := x.records, closer := InClose(x.pc),
                             connectionsAtClose := n.value.connectionsAtClose)
    decreases |steps|
  {
    hide CloseStep, Step;
    if steps != [] {
      CloserActs(s, steps[0]);
      assert ByCloser(steps)[1..] == ByCloser(steps[1..]);
      CloserRuns(Step(s, CloserClose(steps[0])).value, steps[1..]);
    }
  }

  lemma {:induction false} ReaderRuns(s: State, steps: seq<CloseAction>)
    requires s.reader.Closing? && CloseRun(ReaderView(s), steps).Some?
    ensures var x, n := CloseRun(ReaderView(s), steps).value, Run(s, ByReader(steps));
            && n.Some?
            && n.value == s.(socket := x.socket, table := x.table, records := x.records,
                             reader := Closing(x.pc, s.reader.why))
    decreases |steps|
  {
    hide CloseStep, Step;
    if steps != [] {
      ReaderCloseActs(s, steps[0]);
      assert ByReader(steps)[1..] == ByReader(steps[1..]);
      ReaderRuns(Step(s, ReaderClose(steps[0])).value, steps[1..]);
    }
  }

  /** `close()` under way can always go on, and ends after finitely many of its own steps: with no socket, an empty
      table, and the error and the event set on every command that was waiting there. */
  lemma CloserEnds(s: State) returns (steps: seq<CloseAction>)
    requires Reachable(s) && s.closer.InClose?
    ensures s.closer.close !in {Closed, Aborted} ==>
              exists a: CloseAction :: Step(s, CloserClose(a)).Some?
    ensures Run(s, ByCloser(steps)).Some?
    ensures var n := Run(s, ByCloser(steps)).value;
            && n.closer.InClose? && ClosedFrom(CloserView(s), CloserView(n))
            && n == s.(socket := n.socket, table := n.table, records := n.records, closer := n.closer,
                       connectionsAtClose := n.connectionsAtClose)
  {
    hide CloseStep, Step, CloseReady, ClosedFrom, Shape, Locks, Wakes, Settled;
    ReachableInv(s);
    ReadyInside(s);
    if s.closer.close !in {Closed, Aborted} {
      var a := CloseCanGo(CloserView(s));
      CloserActs(s, a);
    }
    steps := CloseEnds(CloserView(s));
    CloserRuns(s, steps);
  }

  /** The closer always has a step to take until it has finished or raised. It starts by asking the reader to stop, and
      finishes by making the session unavailable, which it does not when it raises. */
  lemma CloserCanGo(s: State) returns (a: Action)
    requires Reachable(s) && s.closer !in {Finished, Raised}
    ensures CloserStep(s, a).Some?
    ensures s.closer == Idle ==> CloserStep(s, a) == Some(s.(stop := true, closer := InClose(TestSocket)))
    ensures s.closer == InClose(Closed) ==> CloserStep(s, a) == Some(s.(connected := false, closer := Finished))
    ensures s.closer == InClose(Aborted) ==> CloserStep(s, a) == Some(s.(closer := Raised))
  {
    hide Inv, Reachable, Shape;
    a := CloserStop;
    if s.closer.InClose? && s.closer.close !in {Closed, Aborted} {
      ReadyForClose(s);
      var x := CloseCanGo(CloserView(s));
      a := CloserClose(x);
    } else if s.closer == InClose(Closed) {
      a := CloserFinish;
    } else if s.closer == InClose(Aborted) {
      a := CloserClose(Proceed);
    }
  }

  lemma ReadyForClose(s: State)
    requires Reachable(s)
    ensures s.closer.InClose? ==> CloseReady(CloserView(s))
  {
    ReachableInv(s);
    ReadyInside(s);
  }

  /** The same for a `close` that the reader runs, whatever made it close. */
  lemma ReaderCloseEnds(s: State) returns (steps: seq<CloseAction>)
    requires Reachable(s) && s.reader.Closing?
    ensures exists a: CloseAction :: Step(s, ReaderClose(a)).Some?
    ensures Run(s, ByReader(steps)).Some?
    ensures var n := Run(s, ByReader(steps)).value;
            && n.reader.Closing? && n.reader.why == s.reader.why && ClosedFrom(ReaderView(s), ReaderView(n))
            && n == s.(socket := n.socket, table := n.table, records := n.records, reader := n.reader)
  {
    hide CloseStep, CloseReady, ClosedFrom, Shape, Locks, Wakes, Settled, Run;
    ReachableInv(s);
    ReadyInside(s);
    if s.reader.close !in {Closed, Aborted} {
      var a := CloseCanGo(ReaderView(s));
      ReaderCloseActs(s, a);
    } else {
      CloseReturns(s);
    }
    hide Step;
    steps := CloseEnds(ReaderView(s));
    ReaderRuns(s, steps);
  }

  /** When its `close` has returned or raised, the reader goes on to the next place. */
  lemma CloseReturns(s: State)
    requires s.reader.Closing? && s.reader.close in {Closed, Aborted}
    ensures Step(s, ReaderClose(Proceed))
         == Some(s.(reader := if s.reader.why == ConnectStart && s.reader.close == Closed then Opening
                              else if s.reader.why != Final then Leaving
                              else if s.reader.close == Closed then Top else Dead))
  {
  }

  // ----- callers -----

  /** How far a call has come; a call that ends comes to 0. */
  function CallRank(pc: CallerPc): nat {
    match pc
    case Outside => 0
    case Unlocking => 1
    case SendFailed(_) => 2
    case TimedOut(_) => 2
    case Woken(_) => 2
    case Waiting(_) => 3
    case Registered(_) => 4
    case Allocated(_) => 5
    case SequenceLoaded(_, _, _, _) => 6
    case SequenceRead(_, _) => 7
    case Cleared => 8
    case HoldsLock => 9
    case Checked => 10
  }

  /** A call waits for another thread only at the two locks; anywhere else it can go on by itself. */
  lemma CallCanGo(s: State, c: nat) returns (a: Action)
    requires Reachable(s) && s.Pc(c) != Outside
    ensures (s.Pc(c) == Checked && s.controlLock.Some?) || (s.Pc(c) == Cleared && s.sequenceLock.Some?)
            || (Actor(a) == c && CallerStep(s, a).Some?)
  {
    ShapedHere(s, c);
    hide Inv, Reachable, Pop;
    match s.Pc(c)
    case Checked => a := CallerLock(c);
    case HoldsLock => a := CallerRecheck(c);
    case Cleared => a := CallerRead(c);
    case SequenceRead(_, _) => a := CallerLoad(c);
    case SequenceLoaded(_, _, _, _) => a := CallerStore(c);
    case Allocated(_) => a := if s.CallerAt(c).fire then CallerSend(c, false) else CallerRegister(c);
    case Registered(_) => a := CallerSend(c, false);
    case SendFailed(_) => a := CallerPopFailed(c);
    case Waiting(id) => a := if s.records[id].event then CallerWake(c) else CallerTimeout(c);
    case TimedOut(_) => a := CallerPopTimedOut(c);
    case Woken(_) => a := CallerPopWoken(c);
    case Unlocking => a := CallerUnlock(c);
    case Outside => a := CallerUnlock(c);
    if s.Pc(c).SendFailed? || s.Pc(c).TimedOut? || s.Pc(c).Woken? {
      PopPossible(s, c);
    }
  }

  lemma ShapedHere(s: State, c: nat)
    requires Reachable(s)
    ensures ShapedAt(s, c)
  {
    ReachableInv(s);
  }

  lemma PopPossible(s: State, c: nat)
    requires IdOf(s.Pc(c)).Some? && IdOf(s.Pc(c)).value < |s.requests|
    ensures forall outcome :: Pop(s, c, outcome).Some?
  {
  }

  /** Every step of a call but the first brings it nearer to its end. */
  lemma CallGoesOn(s: State, a: Action)
    requires CallerStep(s, a).Some? && !a.CallerCheck?
    ensures CallRank(CallerStep(s, a).value.Pc(Actor(a))) < CallRank(s.Pc(Actor(a)))
  {
    if MovesOnly(a) {
      PlainGoesOn(s, a);
    } else {
      OtherGoesOn(s, a);
    }
  }

  lemma PlainGoesOn(s: State, a: Action)
    requires CallerStep(s, a).Some? && MovesOnly(a) && !a.CallerCheck?
    ensures CallRank(CallerStep(s, a).value.Pc(Actor(a))) < CallRank(s.Pc(Actor(a)))
  {
  }

  lemma OtherGoesOn(s: State, a: Action)
    requires CallerStep(s, a).Some? && !MovesOnly(a)
    ensures CallRank(CallerStep(s, a).value.Pc(Actor(a))) < CallRank(s.Pc(Actor(a)))
  {
  }

  /** There is no deadlock: while any call is under way, some caller can take a step. */
  lemma SomeCallCanGo(s: State, c: nat) returns (d: nat, a: Action)
    requires Reachable(s) && s.Pc(c) != Outside
    ensures Actor(a) == d && s.Pc(d) != Outside && CallerStep(s, a).Some?
  {
    hide CallerStep;
    ReachableInv(s);
    assert LocksAt(s, c);
    d := c;
    if s.Pc(c) == Checked && s.controlLock.Some? {
      d := s.controlLock.value;
      assert LocksAt(s, d);
    }
    if s.Pc(d) == Cleared && s.sequenceLock.Some? {
      d := s.sequenceLock.value;
      assert LocksAt(s, d);
    }
    a := CallCanGo(s, d);
  }

  // ----- how calls end -----

  /** What a call comes to that goes on by itself: the error of its send, a timeout when nothing has woken it, and
      otherwise the error its record holds or else the response. */
  function EndOf(s: State, c: nat): Outcome
    requires s.Pc(c).SendFailed? || s.Pc(c).TimedOut? || s.Pc(c).Waiting? || s.Pc(c).Woken?
  {
    if s.Pc(c).SendFailed? then SendError
    else if s.Pc(c).TimedOut? || s.Pc(c).id !in s.records || !s.records[s.Pc(c).id].event then TimeoutError
    else if s.records[s.Pc(c).id].failed then Failed
    else if s.records[s.Pc(c).id].response.Some? then Answered(s.records[s.Pc(c).id].response.value)
    else NoResponse
  }

  /** The state when the call is over: its outcome is noted, its key is gone from the table, and the lock is free. */
  function Returned(s: State, c: nat, id: nat, outcome: Outcome): State
    requires id < |s.requests|
  {
    s.(callers := s.callers[c := s.CallerAt(c).(pc := Outside)], controlLock := None,
       table := s.table - {s.requests[id].key}, outcomes := s.outcomes[id := outcome])
  }

  function PopOf(pc: CallerPc, c: nat): Action {
    if pc.SendFailed? then CallerPopFailed(c) else if pc.TimedOut? then CallerPopTimedOut(c) else CallerPopWoken(c)
  }

  lemma PopStep(s: State, c: nat)
    requires s.Pc(c).SendFailed? || s.Pc(c).TimedOut? || s.Pc(c).Woken?
    requires s.Pc(c).id < |s.requests| && (s.Pc(c).Woken? ==> s.Pc(c).id in s.records && s.records[s.Pc(c).id].event)
    ensures CallerStep(s, PopOf(s.Pc(c), c))
         == Some(s.Move(c, Unlocking).(table := s.table - {s.requests[s.Pc(c).id].key},
                                       outcomes := s.outcomes[s.Pc(c).id := EndOf(s, c)]))
  {
  }

  lemma UnlockStep(s: State, c: nat)
    requires s.Pc(c) == Unlocking
    ensures CallerStep(s, CallerUnlock(c)) == Some(s.Move(c, Outside).(controlLock := None))
  {
  }

  lemma MovedTwice(s: State, c: nat, one: CallerPc, other: CallerPc)
    ensures s.Move(c, one).Pc(c) == one && s.Move(c, one).Move(c, other).callers == s.Move(c, other).callers
  {
  }

  lemma PopReturns(s: State, c: nat)
    requires s.Pc(c).SendFailed? || s.Pc(c).TimedOut? || s.Pc(c).Woken?
    requires s.Pc(c).id < |s.requests| && (s.Pc(c).Woken? ==> s.Pc(c).id in s.records && s.records[s.Pc(c).id].event)
    ensures Run(s, [PopOf(s.Pc(c), c), CallerUnlock(c)]) == Some(Returned(s, c, s.Pc(c).id, EndOf(s, c)))
  {
    hide CallerStep, EndOf, PopOf, Run;
    var id := s.Pc(c).id;
    var m := s.Move(c, Unlocking).(table := s.table - {s.requests[id].key}, outcomes := s.outcomes[id := EndOf(s, c)]);
    PopStep(s, c);
    MovedTwice(s, c, Unlocking, Outside);
    UnlockStep(m, c);
    PendingLimits.CallerRun([PopOf(s.Pc(c), c), CallerUnlock(c)], [s, m, Returned(s, c, id, EndOf(s, c))]);
  }

  /** A call past its send ends by its own steps alone, with that outcome. */
  lemma CallEnds(s: State, c: nat) returns (actions: seq<Action>)
    requires Reachable(s) && (s.Pc(c).SendFailed? || s.Pc(c).TimedOut? || s.Pc(c).Waiting? || s.Pc(c).Woken?)
    ensures s.Pc(c).id < |s.requests| && EndOf(s, c) != NoResponse
    ensures Run(s, actions) == Some(Returned(s, c, s.Pc(c).id, EndOf(s, c)))
  {
    hide Step, CallerStep, Run, EndOf, PopOf, Returned;
    KnownEnd(s, c);
    var id := s.Pc(c).id;
    if s.Pc(c).Waiting? {
      var first := if s.records[id].event then CallerWake(c) else CallerTimeout(c);
      var n := s.Move(c, if s.records[id].event then Woken(id) else TimedOut(id));
      WaitEnds(s, c, first, n);
      PopReturns(n, c);
      actions := [PopOf(n.Pc(c), c), CallerUnlock(c)];
      PendingLimits.RunAppend(s, [first], actions);
      actions := [first] + actions;
    } else {
      PopReturns(s, c);
      actions := [PopOf(s.Pc(c), c), CallerUnlock(c)];
    }
  }

  lemma KnownEnd(s: State, c: nat)
    requires Reachable(s) && (s.Pc(c).SendFailed? || s.Pc(c).TimedOut? || s.Pc(c).Waiting? || s.Pc(c).Woken?)
    ensures s.Pc(c).id < |s.requests| && EndOf(s, c) != NoResponse && s.Pc(c).id in s.records
    ensures s.Pc(c).Woken? ==> s.records[s.Pc(c).id].event
  {
    ReachableInv(s);
    assert ShapedAt(s, c) && SettledAt(s, s.Pc(c).id);
  }

  lemma WaitEnds(s: State, c: nat, first: Action, n: State)
    requires s.Pc(c).Waiting? && s.Pc(c).id in s.records && s.Pc(c).id < |s.requests|
    requires first == if s.records[s.Pc(c).id].event then CallerWake(c) else CallerTimeout(c)
    requires n == s.Move(c, if s.records[s.Pc(c).id].event then Woken(s.Pc(c).id) else TimedOut(s.Pc(c).id))
    ensures Run(s, [first]) == Some(n) && EndOf(n, c) == EndOf(s, c)
    ensures Returned(n, c, s.Pc(c).id, EndOf(s, c)) == Returned(s, c, s.Pc(c).id, EndOf(s, c))
  {
    MovedTwice(s, c, n.Pc(c), Outside);
    assert CallerStep(s, first) == Some(n);
    hide CallerStep;
    PendingLimits.CallerRun([first], [s, n]);
  }

  /** A `close()` under way releases whoever waits: when the command is in the table, or in the snapshot, the closer's
      steps and then the caller's bring the call back with an error. */
  lemma CloseReleases(s: State, c: nat) returns (steps: seq<CloseAction>, own: seq<Action>)
    requires Reachable(s) && s.Pc(c).Waiting? && s.closer.InClose? && s.Pc(c).id in ToWake(CloserView(s))
    requires s.closer.close != AbortClear && (s.closer.close == CloseSocket ==> s.socket.Some?)
    ensures Run(s, ByCloser(steps) + own).Some?
    ensures var n := Run(s, ByCloser(steps) + own).value;
            n.Pc(c) == Outside && n.controlLock.None? && s.Pc(c).id in n.outcomes && n.outcomes[s.Pc(c).id] == Failed
  {
    hide Step, CloseStep, Run, EndOf;
    ReachableInv(s);
    assert ShapedAt(s, c);
    steps := CloserEnds(s);
    var m := Run(s, ByCloser(steps)).value;
    StaysReachable(s, ByCloser(steps));
    own := CallEnds(m, c);
    EndIsFailed(m, c);
    PendingLimits.RunAppend(s, ByCloser(steps), own);
  }

  lemma EndIsFailed(s: State, c: nat)
    requires s.Pc(c).Waiting? && s.Pc(c).id in s.records
    requires s.records[s.Pc(c).id].event && s.records[s.Pc(c).id].failed
    ensures EndOf(s, c) == Failed
  {
  }

  lemma StaysReachable(s: State, actions: seq<Action>)
    requires Reachable(s) && Run(s, actions).Some?
    ensures Reachable(Run(s, actions).value)
  {
    hide Step;
    var first: seq<Action> :| Run(START, first) == Some(s);
    PendingLimits.RunAppend(START, first, actions);
  }

  /** A reply to the command in the table wakes its caller, and the call returns this reply unless an error came
      first. */
  lemma ReplyReturns(s: State, c: nat, reply: Reply) returns (own: seq<Action>)
    requires Reachable(s) && s.reader == Streaming && s.Pc(c).Waiting? && Listed(s, s.Pc(c).id)
    requires reply.key == s.requests[s.Pc(c).id].key && Honest(s, reply)
    ensures Run(s, [ReaderReply(reply), ReaderSetResponse, ReaderSetEvent] + own).Some?
    ensures var n := Run(s, [ReaderReply(reply), ReaderSetResponse, ReaderSetEvent] + own).value;
            && n.Pc(c) == Outside && n.controlLock.None? && s.Pc(c).id in n.outcomes && s.Pc(c).id in s.records
            && n.outcomes[s.Pc(c).id] == if s.records[s.Pc(c).id].failed then Failed else Answered(reply)
  {
    hide EndOf, Step, Run;
    ReachableInv(s);
    assert ShapedAt(s, c);
    var id := s.Pc(c).id;
    var m := s.(records := s.records[id := s.records[id].(response := Some(reply), event := true)]);
    ReplyWakes(s, id, reply);
    var first := [ReaderReply(reply), ReaderSetResponse, ReaderSetEvent];
    StaysReachable(s, first);
    own := CallEnds(m, c);
    EndIsReply(m, c);
    PendingLimits.RunAppend(s, first, own);
  }

  lemma EndIsReply(s: State, c: nat)
    requires s.Pc(c).Waiting? && s.Pc(c).id in s.records
    requires s.records[s.Pc(c).id].event && s.records[s.Pc(c).id].response.Some?
    ensures EndOf(s, c) == if s.records[s.Pc(c).id].failed then Failed
                           else Answered(s.records[s.Pc(c).id].response.value)
  {
  }

  predicate Honest(s: State, reply: Reply) {
    reply.origin.Some? ==>
      && reply.origin.value < |s.requests| && s.requests[reply.origin.value].key == reply.key
      && s.requests[reply.origin.value].sentOn == Some(s.connections)
  }

  lemma ReplyStep(s: State, reply: Reply)
    requires s.reader == Streaming && Honest(s, reply) && reply.key in s.table
    ensures ReaderStep(s, ReaderReply(reply)) == Some(s.(reader := Resolving(s.table[reply.key], reply)))
  {
  }

  /** A reply to no command in the table changes nothing. */
  lemma StrayReply(s: State, reply: Reply)
    requires s.reader == Streaming && Honest(s, reply) && reply.key !in s.table
    ensures Step(s, ReaderReply(reply)) == Some(s)
  {
    assert ReaderStep(s, ReaderReply(reply)) == Some(s);
    hide ReaderStep;
    PendingLimits.ReaderActs(s, ReaderReply(reply));
  }

  /** While the session is not connected no call begins, and one that has the lock goes no further unless it only
      sends. */
  lemma NotConnected(s: State, c: nat, command: nat, fire: bool)
    requires !s.connected
    ensures Step(s, CallerCheck(c, command, fire)) == None
    ensures s.Pc(c) == HoldsLock && !s.CallerAt(c).fire ==> Step(s, CallerRecheck(c)) == Some(s.Move(c, Unlocking))
  {
  }

  lemma ResponseStep(s: State)
    requires s.reader.Resolving? && s.reader.id in s.records
    ensures ReaderStep(s, ReaderSetResponse)
         == Some(s.(records := s.records[s.reader.id := s.records[s.reader.id].(response := Some(s.reader.reply))],
                    reader := ResponseSet(s.reader.id)))
  {
  }

  lemma EventStep(s: State)
    requires s.reader.ResponseSet? && s.reader.id in s.records
    ensures ReaderStep(s, ReaderSetEvent)
         == Some(s.(records := s.records[s.reader.id := s.records[s.reader.id].(event := true)], reader := Streaming))
  {
  }

  lemma ReplyWakes(s: State, id: nat, reply: Reply)
    requires s.reader == Streaming && Listed(s, id) && reply.key == s.requests[id].key && id in s.records
    requires Honest(s, reply)
    ensures Run(s, [ReaderReply(reply), ReaderSetResponse, ReaderSetEvent])
         == Some(s.(records := s.records[id := s.records[id].(response := Some(reply), event := true)]))
  {
    hide ReaderStep, Run, Honest;
    var s1 := s.(reader := Resolving(id, reply));
    var s2 := s.(records := s.records[id := s.records[id].(response := Some(reply))], reader := ResponseSet(id));
    var s3 := s.(records := s.records[id := s.records[id].(response := Some(reply), event := true)]);
    ReplyStep(s, reply);
    ResponseStep(s1);
    EventStep(s2);
    assert s2.records[id := s2.records[id].(event := true)] == s3.records;
    PendingLimits.ReaderRun([ReaderReply(reply), ReaderSetResponse, ReaderSetEvent], [s, s1, s2, s3]);
  }

  /** A call on a connection that is up, when no other call holds a lock: its own steps number its request after the
      last one, on this connection, list the command, send it on the socket and wait; one that only sends does not
      wait. */
  lemma CallIsSent(s: State, c: nat, command: nat, fire: bool) returns (actions: seq<Action>)
    requires Reachable(s) && s.Pc(c) == Outside && s.connected && s.socket.Some?
    requires s.controlLock.None? && s.sequenceLock.None?
    ensures Run(s, actions).Some?
    ensures var n, key, id := Run(s, actions).value, Key(command, s.nextSequence), |s.requests|;
            && n.requests == s.requests + [Request(key, s.generation, s.socket)]
            && n.nextSequence == s.nextSequence + 1
            && (!fire ==>
                  && n.CallerAt(c) == Caller(Waiting(id), command, false) && n.controlLock == Some(c)
                  && n.table == map[key := id] && n.records == s.records[id := Record(false, None, false)])
            && (fire ==>
                  n.Pc(c) == Outside && n.controlLock.None? && n.table == s.table && n.records == s.records)
  {
    hide Inv, Reachable, Step, CallerStep, Run, Numbered;
    TableHoldsAtMostOne(s);
    actions := CallIsNumbered(s, c, command, fire);
    var numbered := Numbered(s, c, command, fire);
    NumberedIs(s, c, command, fire);
    var rest := if fire then [CallerSend(c, true), CallerUnlock(c)] else [CallerRegister(c), CallerSend(c, true)];
    Leaves(numbered, c, |s.requests|);
    PendingLimits.RunAppend(s, actions, rest);
    actions := actions + rest;
    SentOf(s, Key(command, s.nextSequence));
  }

  /** A call that has its number. */
  function Numbered(s: State, c: nat, command: nat, fire: bool): State {
    s.(callers := s.callers[c := Caller(Allocated(|s.requests|), command, fire)], controlLock := Some(c),
       nextSequence := s.nextSequence + 1,
       requests := s.requests + [Request(Key(command, s.nextSequence), s.generation, None)])
  }

  lemma NumberedIs(s: State, c: nat, command: nat, fire: bool)
    ensures var n := Numbered(s, c, command, fire);
            && n.CallerAt(c) == Caller(Allocated(|s.requests|), command, fire)
            && n == s.(callers := n.callers, controlLock := Some(c), nextSequence := s.nextSequence + 1,
                       requests := s.requests + [Request(Key(command, s.nextSequence), s.generation, None)])
  {
  }

  lemma CallIsNumbered(s: State, c: nat, command: nat, fire: bool) returns (actions: seq<Action>)
    requires s.Pc(c) == Outside && s.connected && s.controlLock.None? && s.sequenceLock.None?
    ensures Run(s, actions) == Some(Numbered(s, c, command, fire))
  {
    hide Step, CallerStep, Run;
    var s1 := s.(callers := s.callers[c := Caller(Checked, command, fire)]);
    var inside := s1.Move(c, Cleared).(controlLock := Some(c));
    CheckStep(s, c, command, fire);
    PendingLimits.CallerRun([CallerCheck(c, command, fire)], [s, s1]);
    Enters(s1, c);
    PendingLimits.RunAppend(s, [CallerCheck(c, command, fire)], [CallerLock(c), CallerRecheck(c)]);
    MovedTwice(s1, c, Cleared, Allocated(|s.requests|));
    GetsNumber(inside, c, Numbered(s, c, command, fire));
    actions := [CallerCheck(c, command, fire)] + [CallerLock(c), CallerRecheck(c)];
    PendingLimits.RunAppend(s, actions, [CallerRead(c), CallerLoad(c), CallerStore(c)]);
    actions := actions + [CallerRead(c), CallerLoad(c), CallerStore(c)];
  }

  lemma SentOf(s: State, key: Key)
    ensures var requests := s.requests + [Request(key, s.generation, None)];
            requests[|s.requests| := requests[|s.requests|].(sentOn := s.socket)]
            == s.requests + [Request(key, s.generation, s.socket)]
  {
  }

  lemma CheckStep(s: State, c: nat, command: nat, fire: bool)
    requires s.Pc(c) == Outside && s.connected
    ensures CallerStep(s, CallerCheck(c, command, fire))
         == Some(s.(callers := s.callers[c := Caller(Checked, command, fire)]))
  {
  }

  lemma LockStep(s: State, c: nat)
    requires s.Pc(c) == Checked && s.controlLock.None?
    ensures CallerStep(s, CallerLock(c)) == Some(s.Move(c, HoldsLock).(controlLock := Some(c)))
  {
  }

  lemma RecheckStep(s: State, c: nat)
    requires s.Pc(c) == HoldsLock
    ensures CallerStep(s, CallerRecheck(c))
         == Some(s.Move(c, if s.CallerAt(c).fire || s.connected then Cleared else Unlocking))
  {
  }

  lemma ReadStep(s: State, c: nat)
    requires s.Pc(c) == Cleared && s.sequenceLock.None?
    ensures CallerStep(s, CallerRead(c))
         == Some(s.Move(c, SequenceRead(s.nextSequence, s.generation)).(sequenceLock := Some(c)))
  {
  }

  lemma LoadStep(s: State, c: nat)
    requires s.Pc(c).SequenceRead?
    ensures CallerStep(s, CallerLoad(c))
         == Some(s.Move(c, SequenceLoaded(s.Pc(c).sequence, s.Pc(c).readOn, s.nextSequence, s.generation)))
  {
  }

  lemma StoreStep(s: State, c: nat)
    requires s.Pc(c).SequenceLoaded?
    ensures CallerStep(s, CallerStore(c))
         == Some(s.Move(c, Allocated(|s.requests|)).(
                   sequenceLock := None, nextSequence := s.Pc(c).loaded + 1,
                   requests := s.requests
                               + [Request(Key(s.CallerAt(c).command, s.Pc(c).sequence), s.Pc(c).readOn, None)]))
  {
  }

  lemma RegisterStep(s: State, c: nat)
    requires s.Pc(c).Allocated? && !s.CallerAt(c).fire && s.Pc(c).id < |s.requests|
    ensures CallerStep(s, CallerRegister(c))
         == Some(s.Move(c, Registered(s.Pc(c).id)).(
                   table := s.table[s.requests[s.Pc(c).id].key := s.Pc(c).id],
                   records := s.records[s.Pc(c).id := Record(false, None, false)]))
  {
  }

  lemma SendStep(s: State, c: nat)
    requires s.Pc(c).Registered? || (s.Pc(c).Allocated? && s.CallerAt(c).fire)
    requires s.Pc(c).id < |s.requests| && s.socket.Some?
    ensures CallerStep(s, CallerSend(c, true))
         == Some(s.(requests := s.requests[s.Pc(c).id := s.requests[s.Pc(c).id].(sentOn := s.socket)]).Move(
                   c, if s.CallerAt(c).fire then Unlocking else Waiting(s.Pc(c).id)))
  {
  }

  /** Entering the guarded region. */
  lemma Enters(s: State, c: nat)
    requires s.Pc(c) == Checked && s.controlLock.None? && s.connected
    ensures Run(s, [CallerLock(c), CallerRecheck(c)]) == Some(s.Move(c, Cleared).(controlLock := Some(c)))
  {
    hide CallerStep, Run;
    var s1 := s.Move(c, HoldsLock).(controlLock := Some(c));
    LockStep(s, c);
    RecheckStep(s1, c);
    MovedTwice(s, c, HoldsLock, Cleared);
    PendingLimits.CallerRun([CallerLock(c), CallerRecheck(c)],
                            [s, s1, s.Move(c, Cleared).(controlLock := Some(c))]);
  }

  /** Taking the next number. */
  lemma GetsNumber(s: State, c: nat, n: State)
    requires s.Pc(c) == Cleared && s.sequenceLock.None?
    requires n.callers == s.Move(c, Allocated(|s.requests|)).callers
    requires n == s.(callers := n.callers, nextSequence := s.nextSequence + 1,
                     requests := s.requests
                                 + [Request(Key(s.CallerAt(c).command, s.nextSequence), s.generation, None)])
    ensures Run(s, [CallerRead(c), CallerLoad(c), CallerStore(c)]) == Some(n)
  {
    hide CallerStep, Run;
    var q, g, id := s.nextSequence, s.generation, |s.requests|;
    var s1 := s.Move(c, SequenceRead(q, g)).(sequenceLock := Some(c));
    var s2 := s1.Move(c, SequenceLoaded(q, g, q, g));
    ReadStep(s, c);
    LoadStep(s1, c);
    StoreStep(s2, c);
    MovedTwice(s, c, SequenceRead(q, g), SequenceLoaded(q, g, q, g));
    MovedTwice(s, c, SequenceLoaded(q, g, q, g), Allocated(id));
    PendingLimits.CallerRun([CallerRead(c), CallerLoad(c), CallerStore(c)], [s, s1, s2, n]);
  }

  /** Registering and sending, or only sending. */
  lemma Leaves(s: State, c: nat, id: nat)
    requires s.Pc(c) == Allocated(id) && id < |s.requests| && s.socket.Some?
    ensures var fire := s.CallerAt(c).fire;
            Run(s, if fire then [CallerSend(c, true), CallerUnlock(c)] else [CallerRegister(c), CallerSend(c, true)])
            == Some(if fire then
                      s.(requests := s.requests[id := s.requests[id].(sentOn := s.socket)]).Move(c, Outside).(
                        controlLock := None)
                    else
                      s.(requests := s.requests[id := s.requests[id].(sentOn := s.socket)],
                         table := s.table[s.requests[id].key := id],
                         records := s.records[id := Record(false, None, false)]).Move(c, Waiting(id)))
  {
    hide CallerStep, Run;
    var sent := s.requests[id := s.requests[id].(sentOn := s.socket)];
    if s.CallerAt(c).fire {
      SendStep(s, c);
      var s1 := s.(requests := sent).Move(c, Unlocking);
      UnlockStep(s1, c);
      MovedTwice(s.(requests := sent), c, Unlocking, Outside);
      PendingLimits.CallerRun([CallerSend(c, true), CallerUnlock(c)],
                              [s, s1, s.(requests := sent).Move(c, Outside).(controlLock := None)]);
    } else {
      RegisterStep(s, c);
      var s1 := s.Move(c, Registered(id)).(table := s.table[s.requests[id].key := id],
                                           records := s.records[id := Record(false, None, false)]);
      SendStep(s1, c);
      MovedTwice(s, c, Registered(id), Waiting(id));
      var n := s1.(requests := sent).Move(c, Waiting(id));
      PendingLimits.CallerRun([CallerRegister(c), CallerSend(c, true)], [s, s1, n]);
    }
  }

  // ----- the reader -----

  /** The reader always has a step to take until it has stopped, or died of a `close` that raised. */
  lemma ReaderCanGo(s: State) returns (a: Action)
    requires Reachable(s) && s.reader !in {Stopped, Dead}
    ensures Step(s, a).Some? && (a.ReaderClose? || ReaderStep(s, a).Some?)
  {
    hide Inv, Step, Reachable;
    if s.reader.Closing? {
      var _ := ReaderCloseEnds(s);
      var x: CloseAction :| Step(s, ReaderClose(x)).Some?;
      a := ReaderClose(x);
    } else {
      a := match s.reader
           case Top => ReaderLoop
           case Opening => ReaderOpen(false)
           case Resetting => ReaderReset
           case Shaking(done) => ReaderShakeFails(done < 3)
           case Entering => ReaderEnter(false)
           case Streaming => ReaderEnds
           case Resolving(_, _) => ReaderSetResponse
           case ResponseSet(_) => ReaderSetEvent
           case _ => ReaderClear;
      ResolvedHasRecord(s);
      PendingLimits.ReaderActs(s, a);
    }
  }

  lemma ResolvedHasRecord(s: State)
    requires Reachable(s)
    ensures s.reader.Resolving? || s.reader.ResponseSet? ==> s.reader.id in s.records
  {
    ReachableInv(s);
  }
}
