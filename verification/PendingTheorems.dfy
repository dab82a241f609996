/** What holds in every reachable state of the pending-command protocol, and where correlation ends. */
module PendingTheorems {
  import opened Basics
  import opened Pending
  import opened PendingInvariants
  import opened PendingSafety
  import opened PendingReplies

  ghost predicate Inv(s: State) {
    Locks(s) && Shape(s) && Wakes(s) && Settled(s) && Sockets(s) && Swept(s) && Numbers(s) && Correlated(s)
  }

  lemma StartInv()
    ensures Inv(START)
  {
    assert forall c: nat :: START.Pc(c) == Outside;
    assert forall c: nat :: LocksAt(START, c) && ShapedAt(START, c) && UnsentAt(START, c) && SweptAt(START, c);
  }

  /** Every atomic step of every thread keeps the invariant. */
  lemma StepKeepsInv(s: State, a: Action)
    requires Inv(s) && Step(s, a).Some?
    ensures Inv(Step(s, a).value)
  {
    hide CallerStep, ReaderStep, CloserStep, Locks, Shape, Wakes, Settled, Sockets, Swept, Numbers, Correlated;
    if CallerStep(s, a).Some? {
      CallerKeepsLocks(s, a);
      CallerKeepsShape(s, a);
      CallerKeepsWakes(s, a);
      CallerKeepsSettled(s, a);
      CallerKeepsSockets(s, a);
      CallerKeepsSwept(s, a);
      CallerKeepsNumbers(s, a);
      CallerKeepsCorrelated(s, a);
    } else if ReaderStep(s, a).Some? {
      LocksFrame(s, a);
      ReaderKeepsShape(s, a);
      ReaderKeepsWakes(s, a);
      ReaderKeepsSettled(s, a);
      ReaderKeepsSockets(s, a);
      ReaderKeepsSwept(s, a);
      ReaderKeepsNumbers(s, a);
      ReaderKeepsCorrelated(s, a);
    } else {
      LocksFrame(s, a);
      CloserKeepsShape(s, a);
      CloserKeepsWakes(s, a);
      CloserKeepsSettled(s, a);
      CloserKeepsSockets(s, a);
      CloserKeepsSwept(s, a);
      CloserKeepsNumbers(s, a);
      CloserKeepsCorrelated(s, a);
    }
  }

  lemma LocksFrame(s: State, a: Action)
    requires Locks(s)
    ensures ReaderStep(s, a).Some? ==> Locks(ReaderStep(s, a).value)
    ensures CloserStep(s, a).Some? ==> Locks(CloserStep(s, a).value)
  {
    hide ReaderStep, CloserStep;
    if ReaderStep(s, a).Some? {
      ReaderFrame(s, a);
      var n := ReaderStep(s, a).value;
      forall c: nat
        ensures LocksAt(n, c)
      {
        assert LocksAt(s, c) && n.Pc(c) == s.Pc(c);
      }
    }
    if CloserStep(s, a).Some? {
      CloserFrame(s, a);
      var n := CloserStep(s, a).value;
      forall c: nat
        ensures LocksAt(n, c)
      {
        assert LocksAt(s, c) && n.Pc(c) == s.Pc(c);
      }
    }
  }

  /** The invariant holds after every interleaving. */
  lemma {:induction false} RunKeepsInv(s: State, actions: seq<Action>)
    requires Inv(s) && Run(s, actions).Some?
    ensures Inv(Run(s, actions).value)
    decreases |actions|
  {
    hide Inv, Step;
    if actions != [] {
      StepKeepsInv(s, actions[0]);
      RunKeepsInv(Step(s, actions[0]).value, actions[1..]);
    }
  }

  ghost predicate Reachable(s: State) {
    exists actions: seq<Action> :: Run(START, actions) == Some(s)
  }

  lemma ReachableInv(s: State)
    requires Reachable(s)
    ensures Inv(s)
  {
    hide Inv;
    StartInv();
    var actions: seq<Action> :| Run(START, actions) == Some(s);
    RunKeepsInv(START, actions);
  }

  // ----- theorems -----

  /** No lost wake-up: a caller blocked on an unset event is still in the table, or in the snapshot of a running
      `_fail_pending`. */
  lemma NoLostWakeUp(s: State, c: nat)
    requires Reachable(s) && s.Pc(c).Waiting?
    ensures var id := s.Pc(c).id;
            id in s.records && (s.records[id].event || Listed(s, id) || id in ReaderTodo(s) || id in CloserTodo(s))
  {
    ReachableInv(s);
    assert ShapedAt(s, c) && WakeAt(s, c);
  }

  /** Once `close()` has finished and no connection was opened since, no caller stays blocked: its event is set, or
      the reader is in the middle of setting it. */
  lemma CloseWakesEveryone(s: State, c: nat)
    requires Reachable(s) && s.Pc(c).Waiting?
    requires s.closer in {InClose(Closed), Finished} && s.connections == s.connectionsAtClose
    ensures var id := s.Pc(c).id; id in s.records && (s.records[id].event || id in ReaderTodo(s))
  {
    ReachableInv(s);
    assert ShapedAt(s, c) && WakeAt(s, c) && SweptAt(s, c);
  }

  /** ... and a command registered too late for that sweep cannot be sent: its send fails. */
  lemma LateCommandFails(s: State, c: nat)
    requires Reachable(s) && s.Pc(c).Registered?
    requires CloserPastSocket(s) && s.connections == s.connectionsAtClose
    ensures CallerStep(s, CallerSend(c, true)) == None
    ensures CallerStep(s, CallerSend(c, false)).Some?
    ensures CallerStep(s, CallerSend(c, false)).value.Pc(c) == SendFailed(s.Pc(c).id)
  {
    ReachableInv(s);
    assert ShapedAt(s, c);
  }

  /** The table never holds more than one command, and none while the control lock is free. */
  lemma TableHoldsAtMostOne(s: State)
    requires Reachable(s)
    ensures |s.table| <= 1
    ensures s.controlLock.None? ==> s.table == map[]
  {
    ReachableInv(s);
    if k :| k in s.table {
      assert s.table.Keys == {k} by {
        forall j | j in s.table
          ensures j == k
        {
        }
      }
      assert |s.table| == |s.table.Keys| == 1;
    }
  }

  /** A set event always has a response or an error behind it, so no call ends "without a response", and every
      response that is returned carries the command and sequence of its own request. */
  lemma OutcomesAreSound(s: State, id: nat)
    requires Reachable(s)
    ensures id in s.records && s.records[id].event ==> s.records[id].failed || s.records[id].response.Some?
    ensures id in s.outcomes ==> id < |s.requests| && s.outcomes[id] != NoResponse
    ensures id in s.outcomes && s.outcomes[id].Answered? ==> s.outcomes[id].reply.key == s.requests[id].key
  {
    ReachableInv(s);
    assert SettledAt(s, id);
    assert id in s.records ==> id < |s.requests|;
  }

  /** Sequence numbers allocated on one connection are all different, handshake numbers included. */
  lemma SequencesAreDistinct(s: State, i: nat, j: nat)
    requires Reachable(s) && i < |s.requests| && j < |s.requests| && i != j
    requires s.requests[i].allocatedOn == s.requests[j].allocatedOn
    ensures s.requests[i].key.sequence != s.requests[j].key.sequence
  {
    ReachableInv(s);
    assert Distinct(s.requests);
  }

  /** With an honest camera, the reply a call returns answers that very call exactly when the two requests were
      allocated on the same connection. */
  lemma ReplyIsOwnIff(s: State, id: nat)
    requires Reachable(s) && id in s.outcomes && s.outcomes[id].Answered? && s.outcomes[id].reply.origin.Some?
    ensures var o := s.outcomes[id].reply.origin.value;
            && id < |s.requests| && o < |s.requests|
            && (o == id <==> s.requests[o].allocatedOn == s.requests[id].allocatedOn)
  {
    ReachableInv(s);
    var o := s.outcomes[id].reply.origin.value;
    assert OriginOk(s.requests, id, s.outcomes[id].reply);
    if o != id && s.requests[o].allocatedOn == s.requests[id].allocatedOn {
      SequencesAreDistinct(s, o, id);
    }
  }

  /** For requests allocated and sent on one connection, a late reply is never taken as the answer to a later
      command. */
  lemma LateReplyIsNotTaken(s: State, id: nat)
    requires Reachable(s) && id in s.outcomes && s.outcomes[id].Answered? && s.outcomes[id].reply.origin.Some?
    requires var o := s.outcomes[id].reply.origin.value;
             && id < |s.requests| && o < |s.requests|
             && s.requests[id].sentOn == Some(s.requests[id].allocatedOn)
             && s.requests[o].sentOn == Some(s.requests[o].allocatedOn)
    ensures s.outcomes[id].reply.origin.value == id
  {
    ReachableInv(s);
    assert OriginOk(s.requests, id, s.outcomes[id].reply);
    ReplyIsOwnIff(s, id);
  }

  // ----- which command bears which number -----

  /** Numbers below 5 are those of the four handshake commands. */
  predicate HandshakeNumbered(requests: seq<Request>) {
    forall i | 0 <= i < |requests| && requests[i].key.sequence < 5 ::
      requests[i].key in {Key(2650, 1), Key(106, 2), Key(2610, 3), Key(2614, 4)}
  }

  /** The reader asks for nothing but the handshake and, under the next number, the time. */
  lemma ReaderAsks(s: State, a: Action)
    requires Numbers(s) && ReaderStep(s, a).Some?
    ensures var n := ReaderStep(s, a).value;
            && s.requests <= n.requests && |n.requests| <= |s.requests| + 1
            && forall i | |s.requests| <= i < |n.requests| ::
                 && n.requests[i].allocatedOn == s.generation
                 && (|| n.requests[i].key in {Key(2650, 1), Key(106, 2), Key(2610, 3), Key(2614, 4)}
                     || (n.requests[i].key == Key(107, s.nextSequence) && s.nextSequence >= 5))
  {
    hide CloseStep;
  }

  lemma CallerAsks(s: State, a: Action)
    requires Numbers(s) && CallerStep(s, a).Some? && HandshakeNumbered(s.requests)
    ensures HandshakeNumbered(CallerStep(s, a).value.requests)
  {
    assert InProgress(s, s.Pc(Actor(a)));
  }

  lemma CloserAsksNothing(s: State, a: Action)
    requires CloserStep(s, a).Some?
    ensures CloserStep(s, a).value.requests == s.requests
  {
    hide CloseStep;
  }

  lemma {:induction false} RunKeepsNumbered(s: State, actions: seq<Action>)
    requires Inv(s) && HandshakeNumbered(s.requests) && Run(s, actions).Some?
    ensures HandshakeNumbered(Run(s, actions).value.requests)
    decreases |actions|
  {
    hide CallerStep, ReaderStep, CloserStep, Locks, Shape, Wakes, Settled, Sockets, Swept, Numbers, Correlated;
    if actions != [] {
      var a := actions[0];
      StepKeepsInv(s, a);
      if CallerStep(s, a).Some? {
        CallerAsks(s, a);
      } else if ReaderStep(s, a).Some? {
        ReaderAsks(s, a);
      } else {
        CloserAsksNothing(s, a);
      }
      hide Inv;
      RunKeepsNumbered(Step(s, a).value, actions[1..]);
    }
  }

  /** In every reachable state the numbers 1 to 4 belong to the handshake, each to its own command. */
  lemma HandshakeHasItsNumbers(s: State)
    requires Reachable(s)
    ensures HandshakeNumbered(s.requests)
  {
    hide Inv;
    var actions: seq<Action> :| Run(START, actions) == Some(s);
    StartInv();
    RunKeepsNumbered(START, actions);
  }
}
