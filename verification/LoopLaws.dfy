/** What follows for a media loop whose turns obey its rules: nothing is lost, and heartbeats and checks keep time. */
module LoopLaws {
  import opened Basics
  import opened Pprpc
  import opened Messages
  import opened Handshake
  import opened Timeline
  import opened Timing

  // ----- nothing is lost -----

  lemma NoTurns(loop: Loop)
    ensures Taken([]) == [] && Lines([]) == [] && Beats([]) == [] && Shown([]) == []
    ensures Left(loop, []) == (loop.queue, loop.ahead) && Fresh(loop, []) == [] && ReadAt(loop, []) == []
    ensures Settled(loop, []) == loop.start + 1 && Active(loop, []) == LastShown(loop, []) == loop.start
    ensures NextBeat(loop, []) == loop.clock(loop.start + 1) + HEARTBEAT_INTERVAL
  {
  }

  /** The queue holds the AV packets seen before, and every time-sync request seen before was answered. */
  predicate Sound(loop: Loop) {
    AvOf(loop.queue) == AvOf(loop.seen) && SyncsOf(loop.queue) == [] && AnsweredIn(loop.said) == SyncsOf(loop.seen)
  }

  /** Everything taken, queued or ahead is what was queued or ahead; what will be heard and how the loop will stop do
      not change. */
  ghost predicate Conserved(loop: Loop, turns: seq<Turn>) {
    var (queue, ahead) := Left(loop, turns);
    && Taken(turns) + queue == loop.queue + Fresh(loop, turns)
    && SyncsOf(queue) == []
    && Fresh(loop, turns) + Heard(loop.suite, loop.bootstrap, ahead) == Heard(loop.suite, loop.bootstrap, loop.ahead)
    && MediaStop(loop.suite, loop.bootstrap, ahead) == loop.Final()
  }

  lemma Regrouped<T>(a: seq<T>, b: seq<T>, c: seq<T>)
    ensures a + b + c == a + (b + c)
  {
  }

  /** One turn moves a packet from the queue, or a batch from what lies ahead. */
  lemma TurnConserves(loop: Loop, front: seq<Turn>, t: Turn)
    requires Conserved(loop, front) && Runs(loop, front, t)
    ensures Conserved(loop, front + [t])
  {
    hide Taken, Fresh, Left, Heard, MediaStop, SyncsOf, SyncFault, Woken, Works, Shows, Lines, Beats, Shown, Settled;
    hide Active, LastShown, NextBeat, ReadAt;
    TurnSnoc(loop, front, t);
    var (queue, ahead) := Left(loop, front);
    var taken, read := Taken(front), Fresh(loop, front);
    if queue != [] {
      assert taken + [queue[0]] + queue[1..] == taken + queue;
      assert read + [] == read;
      SyncsOfAppend([queue[0]], queue[1..]);
      assert [queue[0]] + queue[1..] == queue;
    } else if t.batch != [] {
      HearBatch(loop.suite, loop.bootstrap, ahead, ahead.Tail(), t.batch);
      Regrouped(loop.queue, read, t.batch);
      Regrouped(read, t.batch, Heard(loop.suite, loop.bootstrap, ahead.Tail()));
      assert taken + [] == taken && taken + t.batch + [] == taken + t.batch;
    } else {
      assert taken + [] == taken && read + [] == read;
    }
  }

  lemma {:induction false} TurnsConserve(loop: Loop, turns: seq<Turn>)
    requires Turns(loop, turns) && SyncsOf(loop.queue) == []
    ensures Conserved(loop, turns)
    decreases |turns|
  {
    hide Conserved, Runs;
    if turns == [] {
      NothingConserved(loop);
    } else {
      var front, t := turns[..|turns| - 1], turns[|turns| - 1];
      TurnsConserve(loop, front);
      TurnConserves(loop, front, t);
      assert turns == front + [t];
    }
  }

  lemma NothingConserved(loop: Loop)
    requires SyncsOf(loop.queue) == []
    ensures Conserved(loop, [])
  {
    NoTurns(loop);
    assert [] + loop.queue == loop.queue + [];
    assert [] + Heard(loop.suite, loop.bootstrap, loop.ahead) == Heard(loop.suite, loop.bootstrap, loop.ahead);
  }

  /** The replies of the turns answer the time-sync requests processed, in order; their heartbeats are those sent. */
  lemma {:induction false} LinesSay(turns: seq<Turn>)
    requires forall i | 0 <= i < |turns| :: Works(turns[i])
    ensures AnsweredIn(Lines(turns)) == SyncsOf(Taken(turns)) && BeatsIn(Lines(turns)) == Beats(turns)
    ensures RequestsIn(Lines(turns)) == []
    decreases |turns|
  {
    hide AnsweredIn, BeatsIn, RequestsIn, SyncsOf, Within, Rising;
    NoLines();
    NoSyncs();
    if turns != [] {
      var front, t := turns[..|turns| - 1], turns[|turns| - 1];
      LinesSay(front);
      SyncsOfAppend(Taken(front), t.done);
      LinesAppend(Lines(front), t.Lines());
      TurnLinesSay(t);
    }
  }

  lemma TurnLinesSay(t: Turn)
    requires OnlyReplies(t.replies)
    ensures AnsweredIn(t.Lines()) == AnsweredIn(t.replies) && BeatsIn(t.Lines()) == t.Beats()
    ensures RequestsIn(t.Lines()) == []
  {
    hide AnsweredIn, BeatsIn, RequestsIn;
    NoLines();
    RepliesOnlyAnswer(t.replies);
    if t.beat.Some? {
      LineSnoc([], Beat(t.beat.value));
      LinesAppend([Beat(t.beat.value)], t.replies);
      assert [] + [Beat(t.beat.value)] == [Beat(t.beat.value)];
    } else {
      assert [] + t.replies == t.replies;
    }
  }

  lemma {:induction false} TurnsWork(loop: Loop, turns: seq<Turn>)
    requires Turns(loop, turns)
    ensures forall i | 0 <= i < |turns| :: Works(turns[i])
    decreases |turns|
  {
    hide Works, Woken, Takes, Shows;
    if turns != [] {
      TurnsWork(loop, turns[..|turns| - 1]);
    }
  }

  lemma PrefixSum<T>(a: seq<T>, b: seq<T>, whole: seq<T>)
    requires a + b == whole
    ensures a <= whole
  {
  }

  /** A loop has processed AV packets of what it hears only, in order and each once, and has answered its time-sync
      requests in order; when no deadline ended it, it stopped as the arrivals say, after all of them. */
  lemma LoopDelivers(loop: Loop, front: seq<Turn>, t: Turn, stop: Stop)
    requires Sound(loop) && Turns(loop, front) && Ends(loop, front, t, stop)
    ensures AvOf(Taken(front + [t])) <= AvOf(loop.AllHeard())
    ensures AnsweredIn(loop.said + Lines(front + [t])) <= SyncsOf(loop.AllHeard())
    ensures BeatsIn(loop.said + Lines(front + [t])) == BeatsIn(loop.said) + Beats(front + [t])
    ensures RequestsIn(loop.said + Lines(front + [t])) == RequestsIn(loop.said)
    ensures !IsTimeout(stop) ==>
              && stop == loop.Final() && AvOf(Taken(front + [t])) == AvOf(loop.AllHeard())
              && AnsweredIn(loop.said + Lines(front + [t])) == SyncsOf(loop.AllHeard())
    ensures IsTimeout(stop) <==> stop == Raised(NoActivity) || stop == Raised(NoFrame)
    ensures stop == Blocked ==> loop.seen + Fresh(loop, front) == loop.AllHeard()
  {
    hide Taken, Fresh, Left, Heard, MediaStop, SyncsOf, SyncFault, BeforeFault, Woken, Shows, Lines, Beats, AvOf, Runs;
    hide AnsweredIn, BeatsIn, RequestsIn, Conserved, Shown, Settled, Active, LastShown, NextBeat, ReadAt, Turns;
    TurnsConserve(loop, front);
    TurnsWork(loop, front);
    var rest := Remaining(loop, front, t, stop);
    EndWorks(loop, front, t, stop);
    LinesSay(front + [t]);
    LinesAppend(loop.said, Lines(front + [t]));
    AvOfAppend(loop.queue, rest.0);
    AvOfAppend(loop.seen, rest.0);
    AvOfAppend(Taken(front + [t]), rest.1);
    SyncsOfAppend(loop.queue, rest.0);
    SyncsOfAppend(loop.seen, rest.0);
    SyncsOfAppend(Taken(front + [t]), rest.1);
    NoAv();
    NoSyncs();
    assert [] + SyncsOf(rest.0) == SyncsOf(rest.0);
    assert RequestsIn(loop.said) + [] == RequestsIn(loop.said);
    PrefixSum(AvOf(Taken(front + [t])), AvOf(rest.1), AvOf(loop.AllHeard()));
    Regrouped(SyncsOf(loop.seen), SyncsOf(Taken(front + [t])), SyncsOf(rest.1));
    PrefixSum(SyncsOf(loop.seen) + SyncsOf(Taken(front + [t])), SyncsOf(rest.1), SyncsOf(loop.AllHeard()));
    assert AvOf(Taken(front + [t])) + [] == AvOf(Taken(front + [t]));
    assert SyncsOf(Taken(front + [t])) + [] == SyncsOf(Taken(front + [t]));
  }

  lemma EndWorks(loop: Loop, front: seq<Turn>, t: Turn, stop: Stop)
    requires Ends(loop, front, t, stop) && forall i | 0 <= i < |front| :: Works(front[i])
    ensures forall i | 0 <= i < |front + [t]| :: Works((front + [t])[i])
  {
    hide Works, Woken, Takes, Shows, Left, SyncFault, BeforeFault;
  }

  /** What the arrivals hold in all that is heard, and what of queue and arrivals was not processed. */
  lemma Remaining(loop: Loop, front: seq<Turn>, t: Turn, stop: Stop) returns (rest: (seq<Packet>, seq<Packet>))
    requires Conserved(loop, front) && Ends(loop, front, t, stop)
    ensures rest.0 == Heard(loop.suite, loop.bootstrap, loop.ahead)
    ensures Taken(front + [t]) + rest.1 == loop.queue + rest.0
    ensures IsTimeout(stop) <==> stop == Raised(NoActivity) || stop == Raised(NoFrame)
    ensures !IsTimeout(stop) ==> rest.1 == [] && stop == loop.Final()
    ensures stop == Blocked ==> Fresh(loop, front) == rest.0
  {
    hide Taken, Fresh, Left, Heard, MediaStop, SyncsOf, SyncFault, BeforeFault, Woken, Works, Shows, Lines, Beats;
    hide Shown, Settled, Active, LastShown, NextBeat, ReadAt, NoPacketInTime, NoFrameInTime;
    var all := front + [t];
    TurnSnoc(loop, front, t);
    if stop == Raised(NoActivity) || stop == Raised(NoFrame) {
      TurnConserves(loop, front, t);
      var (queue, ahead) := Left(loop, all);
      rest := (Heard(loop.suite, loop.bootstrap, loop.ahead), queue + Heard(loop.suite, loop.bootstrap, ahead));
      Regrouped(Taken(all), queue, Heard(loop.suite, loop.bootstrap, ahead));
      Regrouped(loop.queue, Fresh(loop, all), Heard(loop.suite, loop.bootstrap, ahead));
    } else {
      var (queue, ahead) := Left(loop, front);
      rest := (Heard(loop.suite, loop.bootstrap, loop.ahead), []);
      if t.batch == [] {
        StopsAtEnd(loop.suite, loop.bootstrap, Fresh(loop, front), ahead);
        NothingDone(t);
        assert Taken(front) + [] == Taken(front) && Taken(front) + [] + [] == Taken(front);
      } else {
        FaultIsFresh(loop, front, t);
        HearBatch(loop.suite, loop.bootstrap, ahead, ahead.Tail(), t.batch);
        Regrouped(loop.queue, Fresh(loop, front), t.done);
        FaultKinds(loop.suite, loop.bootstrap, t.batch);
        assert Taken(front) + [] == Taken(front) && Taken(front) + t.done + [] == Taken(front) + t.done;
      }
    }
  }

  lemma NothingDone(t: Turn)
    requires Works(t) && t.batch == []
    ensures t.done == []
  {
  }

  /** A time-sync request that cannot be answered is not in the queue. */
  lemma FaultIsFresh(loop: Loop, front: seq<Turn>, t: Turn)
    requires Takes(loop, front, t) && t.batch != [] && SyncFault(loop.suite, loop.bootstrap, t.batch).Some?
    requires SyncsOf(Left(loop, front).0) == []
    ensures var (queue, ahead) := Left(loop, front);
            queue == [] && ahead.batches != [] && t.batch == ahead.batches[0]
  {
    hide SyncsOf, SyncFault, Left, Active, NextBeat;
    var (queue, ahead) := Left(loop, front);
    if queue != [] {
      SyncsOfAppend([queue[0]], queue[1..]);
      assert [queue[0]] + queue[1..] == queue;
      NoSyncsNoFault(loop.suite, loop.bootstrap, [queue[0]]);
    }
  }

  // ----- heartbeats -----

  /** Turns that each started as they should. */
  ghost predicate Trail(loop: Loop, turns: seq<Turn>)
    decreases |turns|
  {
    turns != [] ==> Trail(loop, turns[..|turns| - 1]) && Woken(loop, turns[..|turns| - 1], turns[|turns| - 1])
  }

  lemma {:induction false} TurnsTrail(loop: Loop, turns: seq<Turn>)
    requires Turns(loop, turns)
    ensures Trail(loop, turns)
    decreases |turns|
  {
    hide Woken, Takes, Works, Shows, NoPacketInTime, NoFrameInTime;
    if turns != [] {
      TurnsTrail(loop, turns[..|turns| - 1]);
    }
  }

  lemma TrailSnoc(loop: Loop, front: seq<Turn>, t: Turn)
    requires Turns(loop, front) && Woken(loop, front, t)
    ensures Trail(loop, front + [t])
  {
    hide Woken, Turns;
    TurnsTrail(loop, front);
    assert (front + [t])[..|front|] == front;
  }

  /** The readings at which the heartbeats were due. */
  function BeatTimes(clock: nat -> int, beats: seq<Heartbeat>): (times: seq<int>)
    ensures |times| == |beats|
    ensures forall i | 0 <= i < |beats| :: times[i] == clock(beats[i].tick)
  {
    seq(|beats|, i requires 0 <= i < |beats| => clock(beats[i].tick))
  }

  /** By the clock heartbeats are at least an interval apart, the first one an interval after the start; they are
      numbered consecutively, and each carries the wall-clock reading that follows. */
  lemma {:induction false} BeatsAreSpaced(loop: Loop, turns: seq<Turn>)
    requires Trail(loop, turns)
    ensures Spaced(BeatTimes(loop.clock, Beats(turns)), HEARTBEAT_INTERVAL)
    ensures Beats(turns) != [] ==> loop.clock(Beats(turns)[0].tick) >= loop.clock(loop.start + 1) + HEARTBEAT_INTERVAL
    ensures NextBeat(loop, turns)
         == (if Beats(turns) == [] then loop.clock(loop.start + 1)
             else loop.clock(Beats(turns)[|Beats(turns)| - 1].tick)) + HEARTBEAT_INTERVAL
    ensures forall i | 0 <= i < |Beats(turns)| ::
              && Beats(turns)[i].sequence == loop.firstSequence + i
              && Beats(turns)[i].wallTick == Beats(turns)[i].tick + 1
    decreases |turns|
  {
    hide MaxSequence, AvOf, Taken, Settled, Left;
    if turns != [] {
      var front, t := turns[..|turns| - 1], turns[|turns| - 1];
      BeatsAreSpaced(loop, front);
      var times, before := BeatTimes(loop.clock, Beats(turns)), BeatTimes(loop.clock, Beats(front));
      assert times == before + if t.beat.Some? then [loop.clock(t.woke)] else [];
    }
  }

  /** Any window of `width` milliseconds of the clock holds at most width / 500 + 1 of a loop's heartbeats. */
  lemma HeartbeatRate(loop: Loop, front: seq<Turn>, t: Turn, from: int, width: nat)
    requires Turns(loop, front) && Woken(loop, front, t)
    ensures CountWithin(BeatTimes(loop.clock, Beats(front + [t])), from, from + width) <= width / HEARTBEAT_INTERVAL + 1
  {
    hide Turns, Woken;
    TrailSnoc(loop, front, t);
    BeatsAreSpaced(loop, front + [t]);
    WindowBound(BeatTimes(loop.clock, Beats(front + [t])), HEARTBEAT_INTERVAL, from, width);
  }

  // ----- readings and checks -----

  /** Every turn passed its check: packets and a frame had come less than the timeout before, by the clock. */
  lemma {:induction false} EachTurnPasses(loop: Loop, turns: seq<Turn>, i: nat)
    requires Turns(loop, turns) && i < |turns|
    ensures Turns(loop, turns[..i]) && Passes(loop, turns[..i], turns[i])
    decreases |turns|
  {
    hide Passes;
    if i < |turns| - 1 {
      var front := turns[..|turns| - 1];
      EachTurnPasses(loop, front, i);
      assert front[..i] == turns[..i];
    }
  }

  /** The last delivery is one of the readings at which frames were delivered, or the start. */
  lemma {:induction false} LastShownIs(loop: Loop, turns: seq<Turn>)
    ensures LastShown(loop, turns)
         == if Shown(turns) == [] then loop.start else Shown(turns)[|Shown(turns)| - 1]
    decreases |turns|
  {
    if turns != [] {
      LastShownIs(loop, turns[..|turns| - 1]);
    }
  }

  /** How many turns there are up to the last one that took packets. */
  function TakingTurns(turns: seq<Turn>): (n: nat)
    ensures n <= |turns| && (n > 0 ==> turns[n - 1].batch != [])
    ensures forall i | n <= i < |turns| :: turns[i].batch == []
  {
    if turns == [] then 0
    else if turns[|turns| - 1].batch != [] then |turns|
    else TakingTurns(turns[..|turns| - 1])
  }

  /** When packets were last taken, or the loop started. */
  function LastTaken(loop: Loop, turns: seq<Turn>): nat {
    var n := TakingTurns(turns);
    if n == 0 then loop.start else turns[n - 1].heard
  }

  /** When a frame was last delivered, or the loop started. */
  function LastDelivered(loop: Loop, turns: seq<Turn>): nat {
    var shown := Shown(turns);
    if shown == [] then loop.start else shown[|shown| - 1]
  }

  /** When a heartbeat was last sent, or the loop started. */
  function LastBeat(loop: Loop, turns: seq<Turn>): nat {
    var beats := Beats(turns);
    if beats == [] then loop.start + 1 else beats[|beats| - 1].tick
  }

  lemma {:induction false} ActiveIsLastTaken(loop: Loop, turns: seq<Turn>)
    ensures Active(loop, turns) == LastTaken(loop, turns)
    decreases |turns|
  {
    if turns != [] {
      ActiveIsLastTaken(loop, turns[..|turns| - 1]);
    }
  }

  /** The deadlines after a further turn, counted from what all turns did. */
  lemma DeadlinesCount(loop: Loop, front: seq<Turn>, t: Turn)
    ensures ActiveIn(loop, front, t) == LastTaken(loop, front + [t])
    ensures LastShownIn(loop, front, t) == LastDelivered(loop, front + [t])
    ensures Trail(loop, front + [t]) ==>
              NextBeatIn(loop, front, t) == loop.clock(LastBeat(loop, front + [t])) + 500
  {
    hide Active, LastShown, NextBeat, Shown, Beats, LastTaken, Trail, ActiveIn, LastShownIn, NextBeatIn;
    hide Taken, Lines, Left, Fresh, ReadAt, Settled, AfterTaking, FreshIn, ReadIn;
    TurnSnoc(loop, front, t);
    ActiveIsLastTaken(loop, front + [t]);
    LastShownIs(loop, front + [t]);
    if Trail(loop, front + [t]) {
      BeatsAreSpaced(loop, front + [t]);
    }
  }

  /** While the loop goes on, at every check the last delivered frame, or the start, is less than the timeout old, and
      so are the last packets. */
  lemma ChecksKeepTime(loop: Loop, turns: seq<Turn>, i: nat)
    requires Turns(loop, turns) && i < |turns|
    ensures loop.clock(turns[i].check) < loop.clock(LastDelivered(loop, turns[..i + 1])) + loop.timeout
    ensures loop.clock(turns[i].check) < loop.clock(LastTaken(loop, turns[..i + 1])) + loop.timeout
  {
    hide Runs, Turns, Shown;
    EachTurnPasses(loop, turns, i);
    assert turns[..i + 1] == turns[..i] + [turns[i]];
    DeadlinesCount(loop, turns[..i], turns[i]);
  }

  /** A loop ends with a timeout only when at its last check the last packets, or the last frame, are that old; without
      packets for the timeout it is the activity that is missed. */
  lemma TimeoutsAreDue(loop: Loop, front: seq<Turn>, t: Turn, stop: Stop)
    requires Ends(loop, front, t, stop)
    ensures stop == Raised(NoActivity) ==>
              loop.clock(t.check) >= loop.clock(LastTaken(loop, front + [t])) + loop.timeout
    ensures stop == Raised(NoFrame) ==>
              && loop.clock(t.check) >= loop.clock(LastDelivered(loop, front + [t])) + loop.timeout
              && loop.clock(t.check) < loop.clock(LastTaken(loop, front + [t])) + loop.timeout
  {
    hide Runs, Woken, Works, Shows, Takes;
    DeadlinesCount(loop, front, t);
  }

  /** No turn starts half a second or more after the last heartbeat, or the start, without sending one; it acknowledges
      the greatest AV sequence processed so far. */
  lemma BeatsAreKept(loop: Loop, front: seq<Turn>, t: Turn)
    requires Turns(loop, front) && Woken(loop, front, t)
    ensures t.beat.None? <==> loop.clock(t.woke) < loop.clock(LastBeat(loop, front)) + 500
    ensures t.beat.Some? ==> t.beat.value.tick == t.woke && t.beat.value.ack == MaxSequence(AvOf(Taken(front)))
  {
    hide Turns, MaxSequence, AvOf, Taken;
    TurnsTrail(loop, front);
    BeatsAreSpaced(loop, front);
  }

  lemma EmptyTurnWaits(loop: Loop, front: seq<Turn>, t: Turn)
    requires Passes(loop, front, t) && t.batch == []
    ensures Left(loop, front).0 == [] && t.woke + 1 < t.check
    ensures || loop.clock(t.check - 1) >= NextBeatIn(loop, front, t)
            || loop.clock(t.check - 1) >= loop.clock(Active(loop, front)) + loop.timeout
            || loop.clock(t.check - 1) >= loop.clock(t.woke) + 2000
    ensures Woken(loop, front, t)
  {
    hide Woken, Works, Shows, Left, NextBeatIn, Active, SyncFault, NoPacketInTime, NoFrameInTime;
  }

  /** A turn that goes on without packets has nothing queued and has waited until a heartbeat was due, the packets
      before it were as old as the timeout, or two seconds were over. */
  lemma EmptyTurnsWait(loop: Loop, turns: seq<Turn>, i: nat)
    requires Turns(loop, turns) && i < |turns| && turns[i].batch == []
    ensures Left(loop, turns[..i]).0 == [] && turns[i].woke + 1 < turns[i].check
    ensures var last := loop.clock(turns[i].check - 1);
            || last >= loop.clock(LastBeat(loop, turns[..i + 1])) + 500
            || last >= loop.clock(LastTaken(loop, turns[..i])) + loop.timeout
            || last >= loop.clock(turns[i].woke) + 2000
  {
    hide Turns, Left, Active, LastTaken, LastBeat, Passes, Trail, Woken, ActiveIn, LastShownIn, NextBeatIn;
    hide LastDelivered;
    EachTurnPasses(loop, turns, i);
    assert turns[..i + 1] == turns[..i] + [turns[i]];
    EmptyTurnWaits(loop, turns[..i], turns[i]);
    TrailSnoc(loop, turns[..i], turns[i]);
    DeadlinesCount(loop, turns[..i], turns[i]);
    ActiveIsLastTaken(loop, turns[..i]);
  }

  lemma BatchIsInTime(loop: Loop, front: seq<Turn>, t: Turn)
    requires Passes(loop, front, t) && t.batch != [] && Left(loop, front).0 == []
    ensures t.heard >= 2 && Woken(loop, front, t)
    ensures loop.clock(t.heard - 2) < NextBeatIn(loop, front, t)
    ensures loop.clock(t.heard - 2) < loop.clock(Active(loop, front)) + loop.timeout
    ensures loop.clock(t.heard - 2) < loop.clock(t.woke + 1 + |t.Beats()|) + 2000
  {
    hide Woken, Works, Shows, Left, NextBeatIn, Active, SyncFault, NoPacketInTime, NoFrameInTime;
  }

  /** No turn waits on when it has something else to do: the `recv` that brings a batch was begun before the next
      heartbeat was due, while the last packets were younger than the timeout, and within two seconds. */
  lemma BatchesAreInTime(loop: Loop, turns: seq<Turn>, i: nat)
    requires Turns(loop, turns) && i < |turns| && turns[i].batch != [] && Left(loop, turns[..i]).0 == []
    ensures turns[i].heard >= 2
    ensures var begun := loop.clock(turns[i].heard - 2);
            && begun < loop.clock(LastBeat(loop, turns[..i + 1])) + 500
            && begun < loop.clock(LastTaken(loop, turns[..i])) + loop.timeout
            && begun < loop.clock(turns[i].woke + 1 + |turns[i].Beats()|) + 2000
  {
    hide Turns, Left, Active, LastTaken, LastBeat, Passes, Trail, Woken, ActiveIn, LastShownIn, NextBeatIn;
    hide LastDelivered;
    EachTurnPasses(loop, turns, i);
    assert turns[..i + 1] == turns[..i] + [turns[i]];
    BatchIsInTime(loop, turns[..i], turns[i]);
    TrailSnoc(loop, turns[..i], turns[i]);
    DeadlinesCount(loop, turns[..i], turns[i]);
    ActiveIsLastTaken(loop, turns[..i]);
  }

  /** The readings of a loop come one after the other: deliveries strictly in order, after the start and before the last
      check. */
  lemma {:induction false} ShownRises(loop: Loop, turns: seq<Turn>)
    requires Turns(loop, turns)
    ensures Rising(Shown(turns), loop.start + 2, Settled(loop, turns)) && Settled(loop, turns) > loop.start
    decreases |turns|
  {
    hide Takes, Shows, NoPacketInTime, NoFrameInTime, SyncFault, Taken, Beats, MaxSequence, AvOf, NextBeat, SyncsOf;
    hide AnsweredIn;
    if turns != [] {
      var front, t := turns[..|turns| - 1], turns[|turns| - 1];
      ShownRises(loop, front);
      RisingBoth(Shown(front), t.shown, loop.start + 2, Settled(loop, front), t.heard + 1, t.check);
    }
  }

  lemma RisingBoth(one: seq<nat>, other: seq<nat>, lo: nat, mid: nat, from: nat, hi: nat)
    requires Rising(one, lo, mid) && mid <= hi
    requires other != [] ==> Rising(other, from, hi) && lo <= from && mid <= from
    ensures Rising(one + other, lo, hi)
  {
  }
}
