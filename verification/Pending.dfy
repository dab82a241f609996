/** The pending-command protocol: session callers, one reader and one closer share a table of waiting commands.

    Each action is one atomic step of one thread; a thread between two steps is described by its program counter.
    A request is an allocated sequence number, known by its place in the history `requests`; a command waiting for
    its answer has a record under its request's number. */
module Pending {
  import opened Basics

  const FIRST_SEQUENCE := 5
  const TIME_SYNC := 107

  datatype Key = Key(command: nat, sequence: nat)

  /** An allocated sequence number: on which connection it was allocated, and on which it was sent, if it was. */
  datatype Request = Request(key: Key, allocatedOn: nat, sentOn: Option<nat>)

  /** A response packet: its key, and the request it answers when the camera answers honestly. */
  datatype Reply = Reply(key: Key, origin: Option<nat>)

  datatype Record = Record(event: bool, response: Option<Reply>, failed: bool)

  /** What a call to `send_control` came to. */
  datatype Outcome = SendError | TimeoutError | Failed | NoResponse | Answered(reply: Reply)

  // ----- program counters -----

  datatype CallerPc =
    | Outside
    | Checked
    | HoldsLock
    | Cleared
    | SequenceRead(sequence: nat, readOn: nat)
    | SequenceLoaded(sequence: nat, readOn: nat, loaded: nat, loadedOn: nat)
    | Allocated(id: nat)
    | Registered(id: nat)
    | SendFailed(id: nat)
    | Waiting(id: nat)
    | TimedOut(id: nat)
    | Woken(id: nat)
    | Unlocking

  /** A thread calling the session: its place, its command, and whether it only sends (`reboot`). */
  datatype Caller = Caller(pc: CallerPc, command: nat, fire: bool)

  /** `CameraClient.close`, from the socket test to the last event set. `half` is the record whose error is set and
      whose event is not. */
  datatype ClosePc =
    | TestSocket
    | CloseSocket
    | ClearSocket
    | AbortClear
    | Snapshot
    | Failing(todo: set<nat>, half: Option<nat>)
    | Closed
    | Aborted

  datatype Why = ConnectStart | ConnectFailed | StreamEnd | Final

  datatype ReaderPc =
    | Top
    | Closing(close: ClosePc, why: Why)
    | Opening
    | Resetting
    | Shaking(done: nat)
    | Entering
    | Streaming
    | Resolving(id: nat, reply: Reply)
    | ResponseSet(id: nat)
    | Leaving
    | Stopped
    | Dead

  datatype CloserPc = Idle | InClose(close: ClosePc) | Finished | Raised

  datatype State = State(
    socket: Option<nat>,
    connections: nat,
    generation: nat,
    connected: bool,
    stop: bool,
    nextSequence: nat,
    sequenceLock: Option<nat>,
    controlLock: Option<nat>,
    table: map<Key, nat>,
    records: map<nat, Record>,
    requests: seq<Request>,
    outcomes: map<nat, Outcome>,
    callers: map<nat, Caller>,
    reader: ReaderPc,
    closer: CloserPc,
    connectionsAtClose: nat)
  {
    function CallerAt(c: nat): Caller {
      if c in callers then callers[c] else Caller(Outside, 0, false)
    }

    function Pc(c: nat): CallerPc {
      CallerAt(c).pc
    }

    function Move(c: nat, pc: CallerPc): State {
      this.(callers := callers[c := CallerAt(c).(pc := pc)])
    }
  }

  const START := State(None, 0, 0, false, false, FIRST_SEQUENCE, None, None, map[], map[], [], map[], map[],
                       Top, Idle, 0)

  // ----- actions -----

  datatype CloseAction = Proceed | MarkFailed(id: nat)

  datatype Action =
    | CallerCheck(c: nat, command: nat, fire: bool)
    | CallerLock(c: nat)
    | CallerRecheck(c: nat)
    | CallerRead(c: nat)
    | CallerLoad(c: nat)
    | CallerStore(c: nat)
    | CallerRegister(c: nat)
    | CallerSend(c: nat, ok: bool)
    | CallerPopFailed(c: nat)
    | CallerWake(c: nat)
    | CallerTimeout(c: nat)
    | CallerPopTimedOut(c: nat)
    | CallerPopWoken(c: nat)
    | CallerUnlock(c: nat)
    | ReaderLoop
    | ReaderClose(step: CloseAction)
    | ReaderOpen(ok: bool)
    | ReaderReset
    | ReaderShake
    | ReaderShakeFails(inConnect: bool)
    | ReaderConnected
    | ReaderEnter(ok: bool)
    | ReaderBeat
    | ReaderReply(reply: Reply)
    | ReaderSetResponse
    | ReaderSetEvent
    | ReaderEnds
    | ReaderClear
    | CloserStop
    | CloserClose(step: CloseAction)
    | CloserFinish

  // ----- CameraClient.close and _fail_pending -----

  /** The state shared with `close`, and where the closing thread stands in it. */
  datatype Closer = Closer(socket: Option<nat>, table: map<Key, nat>, records: map<nat, Record>, pc: ClosePc)

  function CloseStep(s: Closer, a: CloseAction): Option<Closer> {
    match s.pc
    case TestSocket =>
      if a.MarkFailed? then None else Some(s.(pc := if s.socket.None? then Snapshot else CloseSocket))
    case CloseSocket =>
      if a.MarkFailed? then None else Some(s.(pc := if s.socket.None? then AbortClear else ClearSocket))
    case ClearSocket =>
      if a.MarkFailed? then None else Some(s.(socket := None, pc := Snapshot))
    case AbortClear =>
      if a.MarkFailed? then None else Some(s.(socket := None, pc := Aborted))
    case Snapshot =>
      if a.MarkFailed? then None else Some(s.(table := map[], pc := Failing(s.table.Values, None)))
    case Failing(todo, half) =>
      (match a
       case MarkFailed(id) =>
         if half.Some? || id !in todo || id !in s.records then None
         else Some(s.(records := s.records[id := s.records[id].(failed := true)], pc := Failing(todo, Some(id))))
       case Proceed =>
         if half.Some? then
           if half.value !in s.records then None
           else Some(s.(records := s.records[half.value := s.records[half.value].(event := true)],
                        pc := Failing(todo - {half.value}, None)))
         else if todo == {} then Some(s.(pc := Closed))
         else None)
    case Closed => None
    case Aborted => None
  }

  // ----- callers -----

  function CallerStep(s: State, a: Action): Option<State> {
    match a
    case CallerCheck(c, command, fire) =>
      if s.Pc(c) != Outside || !s.connected then None
      else Some(s.(callers := s.callers[c := Caller(Checked, command, fire)]))
    case CallerLock(c) =>
      if s.Pc(c) != Checked || s.controlLock.Some? then None
      else Some(s.Move(c, HoldsLock).(controlLock := Some(c)))
    case CallerRecheck(c) =>
      if s.Pc(c) != HoldsLock then None
      else Some(s.Move(c, if s.CallerAt(c).fire || s.connected then Cleared else Unlocking))
    case CallerRead(c) =>
      if s.Pc(c) != Cleared || s.sequenceLock.Some? then None
      else Some(s.Move(c, SequenceRead(s.nextSequence, s.generation)).(sequenceLock := Some(c)))
    case CallerLoad(c) =>
      if !s.Pc(c).SequenceRead? then None
      else Some(s.Move(c, SequenceLoaded(s.Pc(c).sequence, s.Pc(c).readOn, s.nextSequence, s.generation)))
    case CallerStore(c) =>
      if !s.Pc(c).SequenceLoaded? then None
      else
        var request := Request(Key(s.CallerAt(c).command, s.Pc(c).sequence), s.Pc(c).readOn, None);
        Some(s.Move(c, Allocated(|s.requests|)).(
               sequenceLock := None, nextSequence := s.Pc(c).loaded + 1, requests := s.requests + [request]))
    case CallerRegister(c) =>
      if !s.Pc(c).Allocated? || s.CallerAt(c).fire || s.Pc(c).id >= |s.requests| then None
      else
        var id := s.Pc(c).id;
        Some(s.Move(c, Registered(id)).(
               table := s.table[s.requests[id].key := id], records := s.records[id := Record(false, None, false)]))
    case CallerSend(c, ok) =>
      if !(s.Pc(c).Registered? || (s.Pc(c).Allocated? && s.CallerAt(c).fire)) || s.Pc(c).id >= |s.requests| then None
      else if ok && s.socket.None? then None
      else
        var id := s.Pc(c).id;
        var sent := if ok then s.(requests := s.requests[id := s.requests[id].(sentOn := s.socket)]) else s;
        Some(sent.Move(c, if s.CallerAt(c).fire then Unlocking else if ok then Waiting(id) else SendFailed(id)))
    case CallerPopFailed(c) =>
      if !s.Pc(c).SendFailed? then None else Pop(s, c, SendError)
    case CallerWake(c) =>
      if !s.Pc(c).Waiting? || s.Pc(c).id !in s.records || !s.records[s.Pc(c).id].event then None
      else Some(s.Move(c, Woken(s.Pc(c).id)))
    case CallerTimeout(c) =>
      if !s.Pc(c).Waiting? || s.Pc(c).id !in s.records || s.records[s.Pc(c).id].event then None
      else Some(s.Move(c, TimedOut(s.Pc(c).id)))
    case CallerPopTimedOut(c) =>
      if !s.Pc(c).TimedOut? then None else Pop(s, c, TimeoutError)
    case CallerPopWoken(c) =>
      if !s.Pc(c).Woken? || s.Pc(c).id !in s.records then None
      else Pop(s, c, OutcomeOf(s.records[s.Pc(c).id]))
    case CallerUnlock(c) =>
      if s.Pc(c) != Unlocking then None else Some(s.Move(c, Outside).(controlLock := None))
    case _ => None
  }

  /** An error wins over a response; neither is the branch that should not happen. */
  function OutcomeOf(r: Record): Outcome {
    if r.failed then Failed else if r.response.None? then NoResponse else Answered(r.response.value)
  }

  /** Removes the caller's key from the table, whatever is stored under it, and notes the outcome. */
  function Pop(s: State, c: nat, outcome: Outcome): Option<State> {
    if IdOf(s.Pc(c)).None? || IdOf(s.Pc(c)).value >= |s.requests| then None
    else
      var id := IdOf(s.Pc(c)).value;
      Some(s.Move(c, Unlocking).(table := s.table - {s.requests[id].key}, outcomes := s.outcomes[id := outcome]))
  }

  function IdOf(pc: CallerPc): Option<nat> {
    match pc
    case Allocated(id) => Some(id)
    case Registered(id) => Some(id)
    case SendFailed(id) => Some(id)
    case Waiting(id) => Some(id)
    case TimedOut(id) => Some(id)
    case Woken(id) => Some(id)
    case _ => None
  }

  // ----- the reader -----

  function AfterClose(why: Why, aborted: bool): ReaderPc {
    match why
    case ConnectStart => if aborted then Leaving else Opening
    case ConnectFailed => Leaving
    case StreamEnd => Leaving
    case Final => if aborted then Dead else Top
  }

  /** Authentication, connection sync, video start, audio start. */
  function HandshakeCommand(sequence: nat): nat {
    if sequence == 1 then 2650 else if sequence == 2 then 106 else if sequence == 3 then 2610 else 2614
  }

  /** A step of `close` by the reader, or what the reader does when `close` has returned or raised. */
  function CloseByReader(s: State, step: CloseAction): Option<State> {
    if !s.reader.Closing? then None
    else if s.reader.close in {Closed, Aborted} then
      if step.MarkFailed? then None
      else Some(s.(reader := AfterClose(s.reader.why, s.reader.close == Aborted)))
    else
      match CloseStep(Closer(s.socket, s.table, s.records, s.reader.close), step)
      case None => None
      case Some(n) =>
        Some(s.(socket := n.socket, table := n.table, records := n.records, reader := Closing(n.pc, s.reader.why)))
  }

  /** Connecting and starting: everything before the media loop. */
  function ConnectStep(s: State, a: Action): Option<State> {
    match a
    case ReaderLoop =>
      if s.reader != Top then None
      else Some(s.(reader := if s.stop then Stopped else Closing(TestSocket, ConnectStart)))
    case ReaderOpen(ok) =>
      if s.reader != Opening then None
      else if !ok then Some(s.(reader := Leaving))
      else Some(s.(socket := Some(s.connections + 1), connections := s.connections + 1, reader := Resetting))
    case ReaderReset =>
      if s.reader != Resetting then None
      else Some(s.(generation := s.connections, nextSequence := FIRST_SEQUENCE, reader := Shaking(0)))
    case ReaderShake =>
      if !s.reader.Shaking? || s.reader.done >= 4 || s.socket.None? then None
      else
        var request := Request(Key(HandshakeCommand(s.reader.done + 1), s.reader.done + 1), s.generation, s.socket);
        Some(s.(requests := s.requests + [request], reader := Shaking(s.reader.done + 1)))
    case ReaderShakeFails(inConnect) =>
      if !s.reader.Shaking? || (inConnect && s.reader.done > 3) || (!inConnect && s.reader.done < 3) then None
      else Some(s.(reader := if inConnect then Closing(TestSocket, ConnectFailed) else Leaving))
    case ReaderConnected =>
      if !s.reader.Shaking? || s.reader.done < 3 then None
      else Some(s.(connected := true, reader := Entering))
    case ReaderEnter(ok) =>
      if s.reader != Entering || (ok && s.socket.None?) then None
      else Some(s.(reader := if ok then Streaming else Leaving))
    case _ => None
  }

  /** The media loop and what follows it. */
  function StreamStep(s: State, a: Action): Option<State> {
    match a
    case ReaderBeat =>
      if s.reader != Streaming || s.sequenceLock.Some? then None
      else
        var request := Request(Key(TIME_SYNC, s.nextSequence), s.generation, s.socket);
        Some(s.(nextSequence := s.nextSequence + 1, requests := s.requests + [request],
                reader := if s.socket.None? then Closing(Snapshot, StreamEnd) else Streaming))
    case ReaderReply(reply) =>
      if s.reader != Streaming then None
      else if reply.origin.Some?
              && !(reply.origin.value < |s.requests|
                   && s.requests[reply.origin.value].key == reply.key
                   && s.requests[reply.origin.value].sentOn == Some(s.connections)) then None
      else if reply.key in s.table then Some(s.(reader := Resolving(s.table[reply.key], reply)))
      else Some(s)
    case ReaderSetResponse =>
      if !s.reader.Resolving? || s.reader.id !in s.records then None
      else
        var id := s.reader.id;
        Some(s.(records := s.records[id := s.records[id].(response := Some(s.reader.reply))],
                reader := ResponseSet(id)))
    case ReaderSetEvent =>
      if !s.reader.ResponseSet? || s.reader.id !in s.records then None
      else
        var id := s.reader.id;
        Some(s.(records := s.records[id := s.records[id].(event := true)], reader := Streaming))
    case ReaderEnds =>
      if s.reader != Streaming then None else Some(s.(reader := Closing(Snapshot, StreamEnd)))
    case ReaderClear =>
      if s.reader != Leaving then None
      else Some(s.(connected := false, reader := Closing(TestSocket, Final)))
    case _ => None
  }

  predicate IsConnectAction(a: Action) {
    a.ReaderLoop? || a.ReaderOpen? || a.ReaderReset? || a.ReaderShake? || a.ReaderShakeFails? || a.ReaderConnected?
    || a.ReaderEnter?
  }

  function ReaderStep(s: State, a: Action): Option<State> {
    if a.ReaderClose? then CloseByReader(s, a.step)
    else if IsConnectAction(a) then ConnectStep(s, a)
    else StreamStep(s, a)
  }

  // ----- the closer -----

  function CloserStep(s: State, a: Action): Option<State> {
    match a
    case CloserStop =>
      if s.closer != Idle then None else Some(s.(stop := true, closer := InClose(TestSocket)))
    case CloserClose(step) =>
      if !s.closer.InClose? then None
      else if s.closer.close == Aborted then
        if step.MarkFailed? then None else Some(s.(closer := Raised))
      else
        (match CloseStep(Closer(s.socket, s.table, s.records, s.closer.close), step)
         case None => None
         case Some(n) =>
           Some(s.(socket := n.socket, table := n.table, records := n.records, closer := InClose(n.pc),
                   connectionsAtClose :=
                     if n.pc == Snapshot then s.connections else s.connectionsAtClose)))
    case CloserFinish =>
      if s.closer != InClose(Closed) then None else Some(s.(connected := false, closer := Finished))
    case _ => None
  }

  function Step(s: State, a: Action): Option<State> {
    if CallerStep(s, a).Some? then CallerStep(s, a)
    else if ReaderStep(s, a).Some? then ReaderStep(s, a)
    else CloserStep(s, a)
  }

  /** The state after a list of actions from `s`, when each of them is possible in its turn. */
  function Run(s: State, actions: seq<Action>): Option<State>
    decreases |actions|
  {
    if actions == [] then Some(s)
    else
      match Step(s, actions[0])
      case None => None
      case Some(n) => Run(n, actions[1..])
  }
}
