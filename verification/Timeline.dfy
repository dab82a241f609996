/** What the client sends and when: the lines of a connection, and the turns of a media loop.

    Times are readings of the client's clocks, named by their place in the order in which they are taken. */
module Timeline {
  import opened Basics
  import opened Pprpc
  import opened Reassembler
  import opened Messages
  import opened Handshake
  import Crypto

  const HEARTBEAT_INTERVAL := 500

  /** A heartbeat: the reading at which it was due, its sequence number, the wall-clock reading it carries, and the AV
      sequence it acknowledges. */
  datatype Heartbeat = Heartbeat(tick: nat, sequence: nat, wallTick: nat, ack: Option<nat>)

  // ----- lines -----

  /** One thing the client sends. A request is sent before the reading `tick` and after `after` batches were read; a
      reply carries the wall-clock reading `tick`. */
  datatype Line =
    | Request(sequence: nat, commandId: nat, plaintext: bytes, tick: nat, after: nat)
    | Reply(packet: RPCPacket, tick: nat)
    | Beat(beat: Heartbeat)
  {
    function Tick(): nat {
      match this
      case Request(_, _, _, tick, _) => tick
      case Reply(_, tick) => tick
      case Beat(beat) => beat.tick
    }
  }

  /** The time-sync requests answered, in order. */
  function AnsweredIn(lines: seq<Line>): seq<RPCPacket> {
    if lines == [] then []
    else
      var last := lines[|lines| - 1];
      AnsweredIn(lines[..|lines| - 1]) + if last.Reply? then [last.packet] else []
  }

  /** The requests made, in order. */
  function RequestsIn(lines: seq<Line>): seq<Line> {
    if lines == [] then []
    else
      var last := lines[|lines| - 1];
      RequestsIn(lines[..|lines| - 1]) + if last.Request? then [last] else []
  }

  /** The heartbeats sent, in order. */
  function BeatsIn(lines: seq<Line>): seq<Heartbeat> {
    if lines == [] then []
    else
      var last := lines[|lines| - 1];
      BeatsIn(lines[..|lines| - 1]) + if last.Beat? then [last.beat] else []
  }

  lemma NoLines()
    ensures AnsweredIn([]) == [] && RequestsIn([]) == [] && BeatsIn([]) == []
  {
  }

  lemma LineSnoc(lines: seq<Line>, line: Line)
    ensures AnsweredIn(lines + [line]) == AnsweredIn(lines) + if line.Reply? then [line.packet] else []
    ensures RequestsIn(lines + [line]) == RequestsIn(lines) + if line.Request? then [line] else []
    ensures BeatsIn(lines + [line]) == BeatsIn(lines) + if line.Beat? then [line.beat] else []
  {
    assert (lines + [line])[..|lines|] == lines;
  }

  lemma {:induction false} LinesAppend(one: seq<Line>, other: seq<Line>)
    ensures AnsweredIn(one + other) == AnsweredIn(one) + AnsweredIn(other)
    ensures RequestsIn(one + other) == RequestsIn(one) + RequestsIn(other)
    ensures BeatsIn(one + other) == BeatsIn(one) + BeatsIn(other)
    decreases |other|
  {
    hide AnsweredIn, RequestsIn, BeatsIn;
    NoLines();
    if other == [] {
      assert one + other == one;
    } else {
      var front, last := other[..|other| - 1], other[|other| - 1];
      assert other == front + [last] && one + other == one + front + [last];
      LinesAppend(one, front);
      LineSnoc(one + front, last);
      LineSnoc(front, last);
    }
  }

  predicate OnlyReplies(lines: seq<Line>) {
    forall i | 0 <= i < |lines| :: lines[i].Reply?
  }

  lemma {:induction false} RepliesOnlyAnswer(lines: seq<Line>)
    requires OnlyReplies(lines)
    ensures RequestsIn(lines) == [] && BeatsIn(lines) == []
    decreases |lines|
  {
    if lines != [] {
      RepliesOnlyAnswer(lines[..|lines| - 1]);
    }
  }

  /** Everything added was sent after reading `lo` and before reading `hi` was taken. */
  predicate Within(lines: seq<Line>, from: nat, lo: nat, hi: nat) {
    forall i | from <= i < |lines| :: lo <= lines[i].Tick() < hi
  }

  lemma RepliesAskNothing(before: seq<Line>, after: seq<Line>)
    requires before <= after && OnlyReplies(after[|before|..])
    ensures RequestsIn(after) == RequestsIn(before) && BeatsIn(after) == BeatsIn(before)
  {
    LinesAppend(before, after[|before|..]);
    RepliesOnlyAnswer(after[|before|..]);
    assert after == before + after[|before|..];
  }

  // ----- from one place in a connection to a later one -----

  /** Where a connection stands: how many readings were taken, the whole input, what was seen, at which reading each
      batch was read, what lies ahead, and what was sent. */
  datatype Place = Place(
    ticks: nat,
    input: bytes,
    seen: seq<Packet>,
    heardAt: seq<nat>,
    ahead: Arrivals,
    log: seq<Line>)

  /** Batches were read in between, one after the other, each after the readings taken before. */
  predicate ReadLater(was: Place, now: Place) {
    && was.heardAt <= now.heardAt && was.ticks <= now.ticks
    && (forall i | |was.heardAt| <= i < |now.heardAt| :: was.ticks < now.heardAt[i] <= now.ticks)
    && forall i, j | |was.heardAt| <= i < j < |now.heardAt| :: now.heardAt[i] < now.heardAt[j]
  }

  /** The batches read in between are the first ones that lay ahead. */
  predicate ReadsOn(was: Place, now: Place) {
    && ReadLater(was, now)
    && var n := |now.heardAt| - |was.heardAt|;
       n <= |was.ahead.batches| && now.ahead == From(was.ahead.batches, was.ahead.ending, n)
  }

  /** A step that loses neither input nor packets. */
  predicate GoesOn(suite: Crypto.Suite, bootstrap: bytes, was: Place, now: Place) {
    && ReadsOn(was, now) && now.input == was.input && was.seen <= now.seen
    && now.seen + Heard(suite, bootstrap, now.ahead) == was.seen + Heard(suite, bootstrap, was.ahead)
  }

  /** Since `before`, replies only, in the order of their readings, from reading `lo` on and before `hi`. */
  predicate RepliedOnly(before: seq<Line>, after: seq<Line>, lo: nat, hi: nat) {
    && before <= after
    && (forall i | |before| <= i < |after| :: after[i].Reply? && lo <= after[i].tick < hi)
    && forall i, j | |before| <= i < j < |after| :: after[i].tick <= after[j].tick
  }

  /** Only replies were sent in between. */
  predicate Answering(was: Place, now: Place) {
    ReadLater(was, now) && RepliedOnly(was.log, now.log, was.ticks, now.ticks)
  }

  /** The batches and the log are in the order of their readings, and every request says which batches were read before
      it: those, and no others, were read by the reading before which it was sent. */
  predicate Paced(ticks: nat, heardAt: seq<nat>, log: seq<Line>) {
    && (forall i | 0 <= i < |log| :: log[i].Tick() <= ticks)
    && (forall i, j | 0 <= i < j < |log| :: log[i].Tick() <= log[j].Tick())
    && (forall k | 0 <= k < |heardAt| :: heardAt[k] <= ticks)
    && (forall k, m | 0 <= k < m < |heardAt| :: heardAt[k] < heardAt[m])
    && (forall i | 0 <= i < |log| && log[i].Request? ::
          && log[i].after <= |heardAt|
          && forall k | 0 <= k < |heardAt| :: heardAt[k] <= log[i].tick <==> k < log[i].after)
  }

  /** The batches from number `lo` on were read by a `recv` that was begun before `limit`: the clock was read before it,
      and once more to find out how long it may wait. */
  predicate HeardBefore(clock: nat -> int, heardAt: seq<nat>, lo: nat, limit: int) {
    forall i | lo <= i < |heardAt| :: heardAt[i] >= 2 && clock(heardAt[i] - 2) < limit
  }

  lemma NothingHeard(clock: nat -> int, heardAt: seq<nat>, limit: int)
    ensures HeardBefore(clock, heardAt, |heardAt|, limit)
  {
  }

  lemma HeardBeforeOn(clock: nat -> int, before: seq<nat>, after: seq<nat>, lo: nat, limit: int)
    requires before <= after && lo <= |before|
    requires HeardBefore(clock, before, lo, limit) && HeardBefore(clock, after, |before|, limit)
    ensures HeardBefore(clock, after, lo, limit)
  {
  }

  /** Two seconds ended the wait for the initial time syncs after `cut` batches: it began at `wait`, after all readings,
      batches and lines so far, with every time-sync request answered, and lasted until the third request. */
  predicate TwoSeconds(clock: nat -> int, wait: Place, cut: nat, heardAt: seq<nat>, log: seq<Line>) {
    var requests := RequestsIn(log);
    && |requests| >= 3 && requests[2].Request? && clock(requests[2].tick) >= clock(wait.ticks) + 2000
    && wait.heardAt <= heardAt && |wait.heardAt| + cut == requests[2].after && wait.log <= log
    && |RequestsIn(wait.log)| == 2 && AnsweredIn(wait.log) == SyncsOf(wait.seen)
    && Paced(wait.ticks, wait.heardAt, wait.log) && forall i | 0 <= i < |wait.log| :: wait.log[i].Tick() < wait.ticks
  }

  /** Whatever is read and sent afterwards, these two seconds stay. */
  lemma TwoSecondsStay(
      clock: nat -> int, wait: Place, cut: nat, heardAt: seq<nat>, log: seq<Line>, heardNow: seq<nat>,
      logNow: seq<Line>)
    requires TwoSeconds(clock, wait, cut, heardAt, log)
    requires heardAt <= heardNow && log <= logNow && RequestsIn(log) <= RequestsIn(logNow)
    ensures TwoSeconds(clock, wait, cut, heardNow, logNow)
  {
    hide RequestsIn, AnsweredIn, SyncsOf, Paced;
  }

  /** Replies keep the pace of earlier requests. */
  lemma AnsweringPaced(was: Place, now: Place)
    requires Paced(was.ticks, was.heardAt, was.log) && Answering(was, now)
    ensures Paced(now.ticks, now.heardAt, now.log)
  {
    forall i, j | 0 <= i < j < |now.log|
      ensures now.log[i].Tick() <= now.log[j].Tick()
    {
      if j < |was.log| {
        assert now.log[i] == was.log[i] && now.log[j] == was.log[j];
      } else if i < |was.log| {
        assert now.log[i] == was.log[i];
      }
    }
    forall i | 0 <= i < |now.log| && now.log[i].Request?
      ensures now.log[i].after <= |now.heardAt|
      ensures forall k | 0 <= k < |now.heardAt| :: now.heardAt[k] <= now.log[i].tick <==> k < now.log[i].after
    {
      assert now.log[i] == was.log[i];
      assert forall k | 0 <= k < |was.heardAt| :: now.heardAt[k] == was.heardAt[k];
    }
  }

  lemma RequestPaced(was: Place, line: Line)
    requires Paced(was.ticks, was.heardAt, was.log)
    requires line.Request? && line.tick == was.ticks && line.after == |was.heardAt|
    ensures Paced(was.ticks, was.heardAt, was.log + [line])
  {
  }

  /** One batch, or none, was read and dealt with. */
  lemma BatchGoesOn(suite: Crypto.Suite, bootstrap: bytes, was: Place, now: Place, batch: seq<Packet>, tick: nat)
    requires was.ahead == if batch == [] then now.ahead
                          else Arrivals([batch] + now.ahead.batches, now.ahead.ending)
    requires now.seen == was.seen + batch && now.input == was.input && was.ticks <= now.ticks
    requires now.heardAt == was.heardAt + if batch == [] then [] else [tick]
    requires batch != [] ==> was.ticks < tick <= now.ticks
    requires SyncFault(suite, bootstrap, batch) == None
    ensures GoesOn(suite, bootstrap, was, now)
  {
    hide SyncFault, Heard;
    BatchHeard(suite, bootstrap, was.seen, was.ahead, now.ahead, batch);
    NothingTaken(was.ahead);
  }

  /** Nothing more arrives. */
  lemma NothingGoesOn(suite: Crypto.Suite, bootstrap: bytes, was: Place, now: Place)
    requires was.ahead.batches == [] && StopOf(was.ahead.ending) == Blocked && now.ahead == Arrivals([], Waiting)
    requires now.seen == was.seen && now.input == was.input && was.ticks <= now.ticks && now.heardAt == was.heardAt
    ensures GoesOn(suite, bootstrap, was, now)
  {
    OnlyWaiting(was.ahead);
    NothingTaken(was.ahead);
    hide Heard, From, StopOf;
  }

  lemma OnlyWaiting(ahead: Arrivals)
    requires ahead.batches == [] && StopOf(ahead.ending) == Blocked
    ensures ahead == Arrivals([], Waiting)
  {
  }

  lemma NothingTaken(ahead: Arrivals)
    ensures From(ahead.batches, ahead.ending, 0) == ahead
  {
  }

  lemma StaysPut(suite: Crypto.Suite, bootstrap: bytes, was: Place, now: Place)
    requires now == was.(ticks := now.ticks) && was.ticks <= now.ticks
    ensures GoesOn(suite, bootstrap, was, now) && Answering(was, now)
    ensures forall sequence: nat, commandId: nat :: UnansweredSince(was, now, sequence, commandId)
  {
    NothingTaken(was.ahead);
    hide Heard, From, LastAnswer;
  }

  /** Only the receiving side moved. */
  lemma StaysSilent(was: Place, now: Place)
    requires now.log == was.log && ReadLater(was, now)
    ensures Answering(was, now)
  {
  }

  lemma NothingReplied(log: seq<Line>, tick: nat)
    ensures RepliedOnly(log, log, tick, tick)
  {
  }

  /** At most one more reply, at the next reading. */
  lemma RepliedOnce(
      before: seq<Line>, said: seq<Line>, now: seq<Line>, packet: Packet, lo: nat, tick: nat, hi: nat)
    requires RepliedOnly(before, said, lo, tick) && lo <= tick <= hi
    requires now == said || (packet.Rpc? && now == said + [Reply(packet.rpc, tick)] && tick < hi)
    ensures RepliedOnly(before, now, lo, hi)
  {
  }

  /** A wait that ends with the replies to a batch. */
  lemma BatchAnswered(was: Place, mid: Place, now: Place)
    requires Answering(was, mid) && RepliedOnly(mid.log, now.log, mid.ticks, now.ticks)
    requires now.heardAt == mid.heardAt && mid.ticks <= now.ticks
    ensures Answering(was, now)
  {
    AnsweringTrans(was, mid, now);
  }

  lemma GoesOnReads(suite: Crypto.Suite, bootstrap: bytes, was: Place, now: Place)
    requires GoesOn(suite, bootstrap, was, now)
    ensures ReadsOn(was, now)
  {
  }

  lemma GoesOnSees(suite: Crypto.Suite, bootstrap: bytes, was: Place, now: Place)
    requires GoesOn(suite, bootstrap, was, now)
    ensures was.seen <= now.seen
  {
  }

  lemma ReadsOnTrans(a: Place, b: Place, c: Place)
    requires ReadsOn(a, b) && ReadsOn(b, c)
    ensures ReadsOn(a, c)
  {
    var m, n := |b.heardAt| - |a.heardAt|, |c.heardAt| - |b.heardAt|;
    assert a.ahead.batches[m..][n..] == a.ahead.batches[m + n..];
  }

  lemma GoesOnTrans(suite: Crypto.Suite, bootstrap: bytes, a: Place, b: Place, c: Place)
    requires GoesOn(suite, bootstrap, a, b) && GoesOn(suite, bootstrap, b, c)
    ensures GoesOn(suite, bootstrap, a, c)
  {
    hide ReadsOn, Heard;
    ReadsOnTrans(a, b, c);
  }

  lemma AnsweringTrans(a: Place, b: Place, c: Place)
    requires Answering(a, b) && Answering(b, c)
    ensures Answering(a, c)
  {
    forall i | |a.log| <= i < |c.log|
      ensures c.log[i].Reply? && a.ticks <= c.log[i].tick < c.ticks
    {
      if i < |b.log| {
        assert c.log[i] == b.log[i];
      }
    }
    forall i, j | |a.log| <= i < j < |c.log|
      ensures c.log[i].tick <= c.log[j].tick
    {
      if i < |b.log| {
        assert c.log[i] == b.log[i];
        assert j < |b.log| ==> c.log[j] == b.log[j];
      }
    }
  }

  /** A part of a wait, which reads on and sends replies only. */
  predicate Waits(suite: Crypto.Suite, bootstrap: bytes, was: Place, now: Place) {
    GoesOn(suite, bootstrap, was, now) && Answering(was, now)
  }

  /** Two parts of a wait, and then perhaps some readings. */
  lemma WaitsOn(suite: Crypto.Suite, bootstrap: bytes, a: Place, b: Place, c: Place, d: Place)
    requires Waits(suite, bootstrap, a, b) && Waits(suite, bootstrap, b, c)
    requires d == c.(ticks := d.ticks) && c.ticks <= d.ticks
    ensures Waits(suite, bootstrap, a, d)
  {
    hide GoesOn, Answering;
    StaysPut(suite, bootstrap, c, d);
    GoesOnTrans(suite, bootstrap, a, b, c);
    GoesOnTrans(suite, bootstrap, a, c, d);
    AnsweringTrans(a, b, c);
    AnsweringTrans(a, c, d);
  }

  /** Lines were sent in between, but no heartbeat. */
  predicate Spoke(was: Place, now: Place) {
    && ReadLater(was, now) && was.log <= now.log && Within(now.log, |was.log|, was.ticks, now.ticks)
    && BeatsIn(now.log) == BeatsIn(was.log)
  }

  lemma NothingAsked(was: Place, now: Place)
    requires Answering(was, now)
    ensures Spoke(was, now) && RequestsIn(now.log) == RequestsIn(was.log)
  {
    hide RequestsIn, BeatsIn;
    RepliesAskNothing(was.log, now.log);
  }

  lemma SpokeOn(was: Place, now: Place)
    requires Spoke(was, now)
    ensures was.log <= now.log && was.heardAt <= now.heardAt && was.ticks <= now.ticks
  {
  }

  lemma SpokeTrans(a: Place, b: Place, c: Place)
    requires Spoke(a, b) && Spoke(b, c)
    ensures Spoke(a, c)
  {
    hide BeatsIn;
  }

  /** No batch read in between holds an answer to the request. */
  predicate UnansweredSince(was: Place, now: Place, sequence: nat, commandId: nat) {
    |was.heardAt| <= |now.heardAt|
    && Unanswered(was.ahead.batches, 0, |now.heardAt| - |was.heardAt|, sequence, commandId)
  }

  lemma UnansweredOn(
      suite: Crypto.Suite, bootstrap: bytes, a: Place, b: Place, c: Place, sequence: nat, commandId: nat)
    requires GoesOn(suite, bootstrap, a, b) && GoesOn(suite, bootstrap, b, c)
    requires UnansweredSince(a, b, sequence, commandId) && UnansweredSince(b, c, sequence, commandId)
    ensures UnansweredSince(a, c, sequence, commandId)
  {
    hide LastAnswer, Heard;
    var m := |b.heardAt| - |a.heardAt|;
    forall h | 0 <= h < |c.heardAt| - |a.heardAt|
      ensures LastAnswer(a.ahead.batches[h], sequence, commandId).None?
    {
      if h >= m {
        assert b.ahead.batches[h - m] == a.ahead.batches[h];
      }
    }
  }

  // ----- turns -----

  /** One turn of the media loop: the reading it starts with, the heartbeat it sends when one is due, the packets it
      takes and those of them it processes, the reading that follows the taking, the replies it sends, the readings at
      which it delivers frames, and the reading of its deadline check. */
  datatype Turn = Turn(
    woke: nat,
    beat: Option<Heartbeat>,
    batch: seq<Packet>,
    done: seq<Packet>,
    heard: nat,
    replies: seq<Line>,
    shown: seq<nat>,
    check: nat)
  {
    function Beats(): seq<Heartbeat> {
      if beat.Some? then [beat.value] else []
    }

    function Lines(): seq<Line> {
      (if beat.Some? then [Beat(beat.value)] else []) + replies
    }
  }

  const NO_TURN := Turn(0, None, [], [], 0, [], [], 0)

  /** A turn that has just begun. */
  function NewTurn(woke: nat, beat: Option<Heartbeat>): Turn {
    NO_TURN.(woke := woke, beat := beat)
  }

  /** The turn when it has just taken its packets. */
  function Taking(t: Turn, batch: seq<Packet>, tick: nat): Turn {
    t.(batch := batch, heard := tick, check := tick)
  }

  /** What a media loop finds: its clock and timeout, the keys, the reading it starts with, the next sequence number,
      what was sent, seen and read when before on the connection, the queue, and what lies ahead. */
  datatype Loop = Loop(
    clock: nat -> int,
    timeout: int,
    suite: Crypto.Suite,
    bootstrap: bytes,
    context: Context,
    start: nat,
    firstSequence: nat,
    said: seq<Line>,
    seen: seq<Packet>,
    heardAt: seq<nat>,
    queue: seq<Packet>,
    ahead: Arrivals)
  {
    /** All packets of the connection up to the first time-sync request that cannot be answered. */
    function AllHeard(): seq<Packet> {
      seen + Heard(suite, bootstrap, ahead)
    }

    /** How the loop stops when no deadline passes. */
    function Final(): Stop {
      MediaStop(suite, bootstrap, ahead)
    }
  }

  // ----- what a list of turns comes to -----

  /** The packets processed, in order. */
  function Taken(turns: seq<Turn>): seq<Packet> {
    if turns == [] then [] else Taken(turns[..|turns| - 1]) + turns[|turns| - 1].done
  }

  /** The heartbeats sent, in order. */
  function Beats(turns: seq<Turn>): seq<Heartbeat> {
    if turns == [] then [] else Beats(turns[..|turns| - 1]) + turns[|turns| - 1].Beats()
  }

  /** The lines sent, in order. */
  function Lines(turns: seq<Turn>): seq<Line> {
    if turns == [] then [] else Lines(turns[..|turns| - 1]) + turns[|turns| - 1].Lines()
  }

  /** The readings at which frames were delivered, in order. */
  function Shown(turns: seq<Turn>): seq<nat> {
    if turns == [] then [] else Shown(turns[..|turns| - 1]) + turns[|turns| - 1].shown
  }

  /** Queue and arrivals left when a batch was taken: the queue goes first, one packet at a time. */
  function AfterTaking(left: (seq<Packet>, Arrivals), batch: seq<Packet>): (seq<Packet>, Arrivals) {
    if batch == [] then left
    else if left.0 != [] then (left.0[1..], left.1)
    else if left.1.batches != [] then ([], left.1.Tail())
    else left
  }

  /** Queue and arrivals left after the turns. */
  function Left(loop: Loop, turns: seq<Turn>): (seq<Packet>, Arrivals) {
    if turns == [] then (loop.queue, loop.ahead)
    else AfterTaking(Left(loop, turns[..|turns| - 1]), turns[|turns| - 1].batch)
  }

  /** The packets of the batches taken from what lies ahead. */
  function Fresh(loop: Loop, turns: seq<Turn>): seq<Packet> {
    if turns == [] then []
    else
      var front := turns[..|turns| - 1];
      Fresh(loop, front) + FreshIn(Left(loop, front), turns[|turns| - 1].batch)
  }

  function FreshIn(left: (seq<Packet>, Arrivals), batch: seq<Packet>): seq<Packet> {
    if left.0 == [] then batch else []
  }

  /** When the batches taken from what lies ahead were read: just before the reading that follows. */
  function ReadAt(loop: Loop, turns: seq<Turn>): seq<nat> {
    if turns == [] then []
    else
      var front, last := turns[..|turns| - 1], turns[|turns| - 1];
      ReadAt(loop, front) + ReadIn(Left(loop, front), last.batch, last.heard)
  }

  function ReadIn(left: (seq<Packet>, Arrivals), batch: seq<Packet>, tick: nat): seq<nat> {
    if left.0 == [] && batch != [] then [tick] else []
  }

  /** Queue, packets seen, arrivals and their readings after the turns and the batch in hand, read before `tick`. */
  ghost predicate Keeps(
      loop: Loop, turns: seq<Turn>, inHand: seq<Packet>, tick: nat, queue: seq<Packet>, seen: seq<Packet>,
      ahead: Arrivals, heardAt: seq<nat>)
  {
    && (queue, ahead) == AfterTaking(Left(loop, turns), inHand)
    && seen == loop.seen + Fresh(loop, turns) + FreshIn(Left(loop, turns), inHand)
    && heardAt == loop.heardAt + ReadAt(loop, turns) + ReadIn(Left(loop, turns), inHand, tick)
  }

  /** The last reading taken. */
  function Settled(loop: Loop, turns: seq<Turn>): nat {
    if turns == [] then loop.start + 1 else turns[|turns| - 1].check
  }

  /** When packets were last taken, or the loop started. */
  function Active(loop: Loop, turns: seq<Turn>): nat
    decreases |turns|, 0
  {
    if turns == [] then loop.start else ActiveIn(loop, turns[..|turns| - 1], turns[|turns| - 1])
  }

  function ActiveIn(loop: Loop, front: seq<Turn>, t: Turn): nat
    decreases |front|, 1
  {
    if t.batch != [] then t.heard else Active(loop, front)
  }

  /** When a frame was last delivered, or the loop started. */
  function LastShown(loop: Loop, turns: seq<Turn>): nat
    decreases |turns|, 0
  {
    if turns == [] then loop.start else LastShownIn(loop, turns[..|turns| - 1], turns[|turns| - 1])
  }

  function LastShownIn(loop: Loop, front: seq<Turn>, t: Turn): nat
    decreases |front|, 1
  {
    if t.shown != [] then t.shown[|t.shown| - 1] else LastShown(loop, front)
  }

  /** When the next heartbeat is due. */
  function NextBeat(loop: Loop, turns: seq<Turn>): int
    decreases |turns|, 0
  {
    if turns == [] then loop.clock(loop.start + 1) + HEARTBEAT_INTERVAL
    else NextBeatIn(loop, turns[..|turns| - 1], turns[|turns| - 1])
  }

  function NextBeatIn(loop: Loop, front: seq<Turn>, t: Turn): int
    decreases |front|, 1
  {
    if t.beat.Some? then loop.clock(t.woke) + HEARTBEAT_INTERVAL else NextBeat(loop, front)
  }

  /** One more turn. */
  lemma TurnSnoc(loop: Loop, front: seq<Turn>, t: Turn)
    ensures Taken(front + [t]) == Taken(front) + t.done
    ensures Lines(front + [t]) == Lines(front) + t.Lines()
    ensures Beats(front + [t]) == Beats(front) + t.Beats()
    ensures Shown(front + [t]) == Shown(front) + t.shown
    ensures Left(loop, front + [t]) == AfterTaking(Left(loop, front), t.batch)
    ensures Fresh(loop, front + [t]) == Fresh(loop, front) + FreshIn(Left(loop, front), t.batch)
    ensures ReadAt(loop, front + [t]) == ReadAt(loop, front) + ReadIn(Left(loop, front), t.batch, t.heard)
    ensures Settled(loop, front + [t]) == t.check
    ensures Active(loop, front + [t]) == ActiveIn(loop, front, t)
    ensures LastShown(loop, front + [t]) == LastShownIn(loop, front, t)
    ensures NextBeat(loop, front + [t]) == NextBeatIn(loop, front, t)
  {
    assert (front + [t])[..|front|] == front;
  }

  /** A turn that has not begun adds nothing. */
  lemma BlankTurn(loop: Loop, turns: seq<Turn>)
    ensures Taken(turns + [NO_TURN]) == Taken(turns) && Lines(turns + [NO_TURN]) == Lines(turns)
    ensures Beats(turns + [NO_TURN]) == Beats(turns) && Shown(turns + [NO_TURN]) == Shown(turns)
    ensures ActiveIn(loop, turns, NO_TURN) == Active(loop, turns)
    ensures LastShownIn(loop, turns, NO_TURN) == LastShown(loop, turns)
    ensures NextBeatIn(loop, turns, NO_TURN) == NextBeat(loop, turns)
  {
    assert (turns + [NO_TURN])[..|turns|] == turns;
  }

  // ----- what each turn must do -----

  /** Readings in order, from `lo` on and before `hi`. */
  predicate Rising(ticks: seq<nat>, lo: nat, hi: nat) {
    && (forall i | 0 <= i < |ticks| :: lo <= ticks[i] < hi)
    && forall i, j | 0 <= i < j < |ticks| :: ticks[i] < ticks[j]
  }

  /** The one reading taken between two points, if any. */
  function ReadingsFrom(before: nat, after: nat): seq<nat> {
    if before < after then [before] else []
  }

  lemma RisingOn(ticks: seq<nat>, lo: nat, mid: nat, hi: nat)
    requires Rising(ticks, lo, mid) && lo <= mid <= hi
    ensures Rising(ticks, lo, hi) && Rising(ticks + ReadingsFrom(mid, hi), lo, hi)
  {
  }

  /** A turn starts with the reading after the last check, and sends a heartbeat exactly when that reading is an
      interval after the last one: under the next sequence number, with the wall clock read next, acknowledging the
      greatest AV sequence processed. */
  ghost predicate Woken(loop: Loop, front: seq<Turn>, t: Turn) {
    && t.woke == Settled(loop, front) + 1
    && t.beat == if loop.clock(t.woke) < NextBeat(loop, front) then None
                 else Some(Heartbeat(t.woke, loop.firstSequence + |Beats(front)|, t.woke + 1,
                                     MaxSequence(AvOf(Taken(front)))))
  }

  /** A turn takes the first queued packet at once, or the next batch when nothing is queued, by a `recv` begun before a
      heartbeat, the activity deadline or two seconds end its wait; it comes away with nothing only when one of them
      has. */
  ghost predicate Takes(loop: Loop, front: seq<Turn>, t: Turn) {
    var (queue, ahead) := Left(loop, front);
    if queue != [] then t.batch == [queue[0]] && t.heard == t.woke + 1 + |t.Beats()|
    else if t.batch != [] then
      && ahead.batches != [] && t.batch == ahead.batches[0] && t.heard >= 2
      && loop.clock(t.heard - 2) < NextBeatIn(loop, front, t)
      && loop.clock(t.heard - 2) < loop.clock(Active(loop, front)) + loop.timeout
      && loop.clock(t.heard - 2) < loop.clock(t.woke + 1 + |t.Beats()|) + 2000
    else
      && t.woke + 1 < t.check
      && (|| loop.clock(t.check - 1) >= NextBeatIn(loop, front, t)
          || loop.clock(t.check - 1) >= loop.clock(Active(loop, front)) + loop.timeout
          || loop.clock(t.check - 1) >= loop.clock(t.woke) + 2000)
  }

  /** After taking packets a turn reads the clock, and processes them before its check, each time-sync request once and
      in order. */
  ghost predicate Works(t: Turn) {
    && AnsweredIn(t.replies) == SyncsOf(t.done) && OnlyReplies(t.replies)
    && if t.batch == [] then t.done == [] && t.shown == [] && t.replies == []
       else t.woke < t.heard < t.check && Rising(t.shown, t.heard + 1, t.check)
            && Within(t.replies, 0, t.heard + 1, t.check)
  }

  /** A turn delivers a frame for each that its packets complete. */
  ghost predicate Shows(loop: Loop, front: seq<Turn>, t: Turn) {
    |Shown(front)| + |t.shown| == |FramesOf(loop.context, AvOf(Taken(front) + t.done))|
  }

  /** A turn that ran to its check. */
  ghost predicate Runs(loop: Loop, front: seq<Turn>, t: Turn) {
    && Woken(loop, front, t) && Takes(loop, front, t) && Works(t) && Shows(loop, front, t)
    && t.woke < t.check && t.done == t.batch && SyncFault(loop.suite, loop.bootstrap, t.batch) == None
  }

  /** By its check a turn has had no packet, or no frame, for the timeout. */
  predicate NoPacketInTime(loop: Loop, front: seq<Turn>, t: Turn) {
    loop.clock(t.check) >= loop.clock(ActiveIn(loop, front, t)) + loop.timeout
  }

  predicate NoFrameInTime(loop: Loop, front: seq<Turn>, t: Turn) {
    loop.clock(t.check) >= loop.clock(LastShownIn(loop, front, t)) + loop.timeout
  }

  ghost predicate Passes(loop: Loop, front: seq<Turn>, t: Turn) {
    Runs(loop, front, t) && !NoPacketInTime(loop, front, t) && !NoFrameInTime(loop, front, t)
  }

  /** Turns that all passed their checks. */
  ghost predicate Turns(loop: Loop, turns: seq<Turn>)
    decreases |turns|
  {
    turns != [] ==> Turns(loop, turns[..|turns| - 1]) && Passes(loop, turns[..|turns| - 1], turns[|turns| - 1])
  }

  lemma TurnsSnoc(loop: Loop, turns: seq<Turn>, t: Turn)
    requires Turns(loop, turns) && Passes(loop, turns, t)
    ensures Turns(loop, turns + [t])
  {
    hide Passes;
    assert (turns + [t])[..|turns|] == turns;
  }

  /** How the last turn ends the loop: at its check, by a deadline that has passed, activity first; or because nothing
      more arrives; or at a time-sync request that cannot be answered. */
  ghost predicate Ends(loop: Loop, front: seq<Turn>, t: Turn, stop: Stop) {
    var (queue, ahead) := Left(loop, front);
    var fault := SyncFault(loop.suite, loop.bootstrap, t.batch);
    if stop == Raised(NoActivity) then Runs(loop, front, t) && NoPacketInTime(loop, front, t)
    else if stop == Raised(NoFrame) then
      Runs(loop, front, t) && !NoPacketInTime(loop, front, t) && NoFrameInTime(loop, front, t)
    else
      && Woken(loop, front, t) && Works(t) && Shows(loop, front, t)
      && if t.batch == [] then queue == [] && ahead.batches == [] && stop == StopOf(ahead.ending)
         else Takes(loop, front, t) && fault.Some? && stop == Raised(fault.value)
              && t.done == BeforeFault(loop.suite, loop.bootstrap, t.batch)
  }
}
