/** The reader's way from one connection to the next: it connects, ends a stream, and comes back. */
module PendingReader {
  import opened Basics
  import opened Pending
  import opened PendingTheorems
  import opened PendingProgress
  import PendingLimits

  /** Every one of these commands has failed, and its event is set; all other records are as before. */
  predicate Woken(before: map<nat, Record>, after: map<nat, Record>, ids: set<nat>) {
    && after.Keys == before.Keys
    && (forall id | id in before && id in ids :: after[id] == before[id].(failed := true, event := true))
    && (forall id | id in before && id !in ids :: after[id] == before[id])
  }

  /** The reader's `close` from its beginning, when no other thread interferes: the socket is gone, and so is every
      command in the table, woken with an error. A stream that ends leaves the socket alone. */
  lemma ReaderCloses(s: State) returns (closing: seq<CloseAction>, n: State)
    requires Reachable(s) && s.reader.Closing? && s.reader.close in {TestSocket, Snapshot}
    ensures Run(s, ByReader(closing)) == Some(n) && Reachable(n) && Woken(s.records, n.records, s.table.Values)
    ensures n == s.(socket := if s.reader.close == TestSocket then None else s.socket, table := map[],
                    records := n.records, reader := Closing(Closed, s.reader.why))
  {
    hide Run, Step, Reachable;
    closing := ReaderCloseEnds(s);
    n := Run(s, ByReader(closing)).value;
    StaysReachable(s, ByReader(closing));
  }

  /** The requests of a handshake on connection `g`. */
  function HandshakeOn(g: nat): seq<Request> {
    [Request(Key(2650, 1), g, Some(g)), Request(Key(106, 2), g, Some(g)),
     Request(Key(2610, 3), g, Some(g)), Request(Key(2614, 4), g, Some(g))]
  }

  /** From an open socket to the media loop: the number of the next connection, the handshake's four requests under
      their numbers, and 5 as the next number. */
  lemma ShakesHands(s: State)
    requires s.reader == Opening
    ensures var g := s.connections + 1;
            Run(s, [ReaderOpen(true), ReaderReset] + FOUR_SHAKES + [ReaderConnected, ReaderEnter(true)])
            == Some(s.(socket := Some(g), connections := g, generation := g, connected := true, nextSequence := 5,
                       requests := s.requests + HandshakeOn(g), reader := Streaming))
  {
    hide Run, ReaderStep;
    var g := s.connections + 1;
    var s1 := s.(socket := Some(g), connections := g, reader := Resetting);
    var s2 := s1.(generation := g, nextSequence := 5, reader := Shaking(0));
    Opens(s);
    Resets(s1);
    PendingLimits.ReaderRun([ReaderOpen(true), ReaderReset], [s, s1, s2]);
    FourShakes(s2);
    var s3 := s2.(requests := s.requests + HandshakeOn(g), reader := Shaking(4));
    Enters(s3);
    PendingLimits.ReaderRun([ReaderConnected, ReaderEnter(true)],
                            [s3, s3.(connected := true, reader := Entering),
                             s3.(connected := true, reader := Streaming)]);
    PendingLimits.RunAppend(s, [ReaderOpen(true), ReaderReset], FOUR_SHAKES);
    PendingLimits.RunAppend(s, [ReaderOpen(true), ReaderReset] + FOUR_SHAKES, [ReaderConnected, ReaderEnter(true)]);
  }

  const FOUR_SHAKES: seq<Action> := [ReaderShake, ReaderShake, ReaderShake, ReaderShake]

  lemma FourShakes(s: State)
    requires s.reader == Shaking(0) && s.socket == Some(s.generation)
    ensures Run(s, FOUR_SHAKES)
         == Some(s.(requests := s.requests + HandshakeOn(s.generation), reader := Shaking(4)))
  {
    hide Run, ReaderStep;
    var four := HandshakeOn(s.generation);
    var s1 := s.(requests := s.requests + four[..1], reader := Shaking(1));
    var s2 := s.(requests := s.requests + four[..2], reader := Shaking(2));
    var s3 := s.(requests := s.requests + four[..3], reader := Shaking(3));
    assert s.requests + four[..0] == s.requests && four[..4] == four;
    Shakes(s, s.requests, 0);
    Shakes(s1, s.requests, 1);
    Shakes(s2, s.requests, 2);
    Shakes(s3, s.requests, 3);
    PendingLimits.ReaderRun(FOUR_SHAKES, [s, s1, s2, s3, s3.(requests := s.requests + four, reader := Shaking(4))]);
  }

  lemma Opens(s: State)
    requires s.reader == Opening
    ensures ReaderStep(s, ReaderOpen(true))
         == Some(s.(socket := Some(s.connections + 1), connections := s.connections + 1, reader := Resetting))
    ensures ReaderStep(s, ReaderOpen(false)) == Some(s.(reader := Leaving))
  {
  }

  lemma Resets(s: State)
    requires s.reader == Resetting
    ensures ReaderStep(s, ReaderReset)
         == Some(s.(generation := s.connections, nextSequence := 5, reader := Shaking(0)))
  {
  }

  lemma Shakes(s: State, before: seq<Request>, k: nat)
    requires k < 4 && s.reader == Shaking(k) && s.socket == Some(s.generation)
    requires s.requests == before + HandshakeOn(s.generation)[..k]
    ensures ReaderStep(s, ReaderShake)
         == Some(s.(requests := before + HandshakeOn(s.generation)[..k + 1], reader := Shaking(k + 1)))
  {
    var four := HandshakeOn(s.generation);
    assert before + four[..k] + [four[k]] == before + four[..k + 1];
  }

  lemma Enters(s: State)
    requires s.reader == Shaking(4) && s.socket.Some?
    ensures ReaderStep(s, ReaderConnected) == Some(s.(connected := true, reader := Entering))
    ensures ReaderStep(s.(connected := true, reader := Entering), ReaderEnter(true))
         == Some(s.(connected := true, reader := Streaming))
  {
  }

  lemma OneStep(s: State, a: Action, n: State)
    requires Step(s, a) == Some(n)
    ensures Run(s, [a]) == Some(n)
  {
    hide Step;
    assert Run(n, []) == Some(n);
  }

  lemma ReaderOne(s: State, a: Action, n: State)
    requires ReaderStep(s, a) == Some(n)
    ensures Run(s, [a]) == Some(n)
  {
    hide ReaderStep;
    PendingLimits.ReaderActs(s, a);
    OneStep(s, a, n);
  }

  /** The first step of the reader, its `close`, and its going on. */
  lemma ThenCloses(s: State, a: Action, m: State) returns (actions: seq<Action>, n: State)
    requires Reachable(s) && Run(s, [a]) == Some(m)
    requires m.reader.Closing? && m.reader.close in {TestSocket, Snapshot}
    ensures Run(s, actions) == Some(n) && Reachable(n) && Woken(m.records, n.records, m.table.Values)
    ensures n == m.(socket := if m.reader.close == TestSocket then None else m.socket, table := map[],
                    records := n.records,
                    reader := if m.reader.why == ConnectStart then Opening
                              else if m.reader.why == Final then Top else Leaving)
  {
    hide Run, Step, Reachable, Woken;
    StaysReachable(s, [a]);
    var closing, closed := ReaderCloses(m);
    CloseReturns(closed);
    n := Step(closed, ReaderClose(Proceed)).value;
    OneStep(closed, ReaderClose(Proceed), n);
    StaysReachable(closed, [ReaderClose(Proceed)]);
    actions := [a] + ByReader(closing) + [ReaderClose(Proceed)];
    PendingLimits.RunAppend(s, [a], ByReader(closing));
    PendingLimits.RunAppend(s, [a] + ByReader(closing), [ReaderClose(Proceed)]);
  }

  /** What the reader does at the top of its loop. */
  lemma Loops(s: State)
    requires s.reader == Top
    ensures ReaderStep(s, ReaderLoop)
         == Some(s.(reader := if s.stop then Stopped else Closing(TestSocket, ConnectStart)))
  {
  }

  /** From the top of its loop the reader's own steps close what is left of the last connection and bring up the next
      one; when it is to stop, it stops. */
  lemma ReaderConnects(s: State) returns (actions: seq<Action>, n: State)
    requires Reachable(s) && s.reader == Top
    ensures Run(s, actions) == Some(n)
    ensures s.stop ==> n == s.(reader := Stopped)
    ensures !s.stop ==>
              var g := s.connections + 1;
              && Woken(s.records, n.records, s.table.Values)
              && n == s.(socket := Some(g), connections := g, generation := g, connected := true, nextSequence := 5,
                         requests := s.requests + HandshakeOn(g), table := map[], records := n.records,
                         reader := Streaming)
  {
    hide Run, Step, ReaderStep, Reachable, Woken;
    Loops(s);
    actions := [ReaderLoop];
    n := ReaderStep(s, ReaderLoop).value;
    ReaderOne(s, ReaderLoop, n);
    if !s.stop {
      var closes, opening := ThenCloses(s, ReaderLoop, n);
      ShakesHands(opening);
      var shakes := [ReaderOpen(true), ReaderReset] + FOUR_SHAKES + [ReaderConnected, ReaderEnter(true)];
      PendingLimits.RunAppend(s, closes, shakes);
      actions := closes + shakes;
      n := Run(s, actions).value;
    }
  }

  /** After a stream the reader makes the session unavailable, closes, and comes back to the top of its loop. */
  lemma ReaderLeaves(s: State) returns (actions: seq<Action>, n: State)
    requires Reachable(s) && s.reader == Leaving
    ensures Run(s, actions) == Some(n) && Woken(s.records, n.records, s.table.Values)
    ensures n == s.(connected := false, socket := None, table := map[], records := n.records, reader := Top)
  {
    hide Run, Step, Reachable, Woken;
    var m := s.(connected := false, reader := Closing(TestSocket, Final));
    ReaderOne(s, ReaderClear, m);
    actions, n := ThenCloses(s, ReaderClear, m);
  }

  /** However a stream or a handshake ends, the reader leaves. When a handshake has failed in `connect`, the socket is
      closed before; when a stream has ended, every waiting command has failed before. */
  lemma ReaderEndsWith(s: State, a: Action) returns (actions: seq<Action>, n: State)
    requires Reachable(s)
    requires || (a == ReaderEnds && s.reader == Streaming)
             || (a == ReaderShakeFails(true) && s.reader.Shaking? && s.reader.done <= 3)
             || (a == ReaderShakeFails(false) && s.reader.Shaking? && s.reader.done >= 3)
             || (a == ReaderOpen(false) && s.reader == Opening) || (a == ReaderEnter(false) && s.reader == Entering)
    ensures Run(s, actions) == Some(n) && Reachable(n)
    ensures var closes := a in {ReaderEnds, ReaderShakeFails(true)};
            && Woken(s.records, n.records, if closes then s.table.Values else {})
            && n == s.(socket := if a == ReaderShakeFails(true) then None else s.socket,
                       table := if closes then map[] else s.table, records := n.records, reader := Leaving)
  {
    hide Run, Step, Reachable;
    var m := s.(reader := if a == ReaderEnds then Closing(Snapshot, StreamEnd)
                          else if a == ReaderShakeFails(true) then Closing(TestSocket, ConnectFailed)
                          else Leaving);
    ReaderOne(s, a, m);
    if m.reader == Leaving {
      StaysReachable(s, [a]);
      actions, n := [a], m;
    } else {
      actions, n := ThenCloses(s, a, m);
    }
  }

  /** A heartbeat takes the next number; without a socket it cannot be sent, and the stream ends with every waiting
      command failed. */
  lemma BeatNeedsSocket(s: State) returns (actions: seq<Action>, n: State)
    requires Reachable(s) && s.reader == Streaming && s.sequenceLock.None?
    ensures Run(s, actions) == Some(n)
    ensures var beaten := s.requests + [Request(Key(107, s.nextSequence), s.generation, s.socket)];
            if s.socket.Some? then n == s.(nextSequence := s.nextSequence + 1, requests := beaten)
            else
              && Woken(s.records, n.records, s.table.Values)
              && n == s.(nextSequence := s.nextSequence + 1, requests := beaten, table := map[],
                         records := n.records, reader := Leaving)
  {
    hide Run, Step, Reachable, Woken;
    var beaten := s.requests + [Request(Key(107, s.nextSequence), s.generation, s.socket)];
    var m := s.(nextSequence := s.nextSequence + 1, requests := beaten,
                reader := if s.socket.Some? then Streaming else Closing(Snapshot, StreamEnd));
    ReaderOne(s, ReaderBeat, m);
    if s.socket.Some? {
      actions, n := [ReaderBeat], m;
    } else {
      actions, n := ThenCloses(s, ReaderBeat, m);
    }
  }
}
