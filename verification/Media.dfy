/** The state a camera's reader shares with the viewers: the newest frame, the audio ring, and the viewers' loops.

    Other threads act whenever a viewer does not hold the lock: `others` lists, for each such moment in turn, what
    they publish. A run that uses up the list stops there, like a viewer whose peer has gone. */
module Media {
  import opened Basics
  import opened AudioLog
  import opened Sampling

  datatype Publication =
    | NewFrame(frame: bytes)
    | NewAudio(chunk: bytes)
    | Connection(connected: bool, error: Option<string>)

  datatype Waited<T> = Got(value: T) | TimedOut | Over

  const VIEWER_TIMEOUT := 15_000

  function PublishedFrames(batch: seq<Publication>): seq<bytes> {
    if batch == [] then []
    else
      var last := batch[|batch| - 1];
      PublishedFrames(batch[..|batch| - 1]) + if last.NewFrame? then [last.frame] else []
  }

  function PublishedAudio(batch: seq<Publication>): seq<bytes> {
    if batch == [] then []
    else
      var last := batch[|batch| - 1];
      PublishedAudio(batch[..|batch| - 1]) + if last.NewAudio? then [last.chunk] else []
  }

  // ----- what a viewer sees of a schedule -----

  /** Takes one moment after the other until audio beyond `cursor` is there: the log, the moments left, and whether
      there was any. Timeouts of the wait make no difference to it. */
  function AwaitAudio(log: seq<bytes>, cursor: nat, others: seq<seq<Publication>>)
    : (r: (seq<bytes>, seq<seq<Publication>>, bool))
    ensures r.2 ==> |r.1| < |others| && cursor < |r.0|
    decreases |others|
  {
    if others == [] then (log, [], false)
    else
      var more := log + PublishedAudio(others[0]);
      if |more| <= cursor then AwaitAudio(more, cursor, others[1..]) else (more, others[1..], true)
  }

  /** All that a listener at `cursor` writes over a schedule. */
  function ListenFrom(log: seq<bytes>, cursor: nat, others: seq<seq<Publication>>): seq<Chunk>
    decreases |others|, 0
  {
    var (more, rest, found) := AwaitAudio(log, cursor, others);
    if !found then [] else WriteFrom(more, AudioLog.Poll(more, cursor, |more|), |more|, rest)
  }

  /** Each write takes one moment; then the listener waits again. */
  function WriteFrom(log: seq<bytes>, chunks: seq<Chunk>, cursor: nat, others: seq<seq<Publication>>): seq<Chunk>
    decreases |others|, 1
  {
    if chunks == [] then ListenFrom(log, cursor, others)
    else if others == [] then []
    else [chunks[0]] + WriteFrom(log + PublishedAudio(others[0]), chunks[1..], cursor, others[1..])
  }

  /** What a viewer of frames finds: the log, the moments ahead, and the number of readings of its clock so far. */
  datatype Scene = Scene(frames: seq<bytes>, others: seq<seq<Publication>>, tick: nat) {
    function Next(): Scene
      requires others != []
    {
      Scene(frames + PublishedFrames(others[0]), others[1..], tick)
    }

    function Read(): Scene {
      this.(tick := tick + 1)
    }
  }

  /** Waits for a frame other than number `after`, one moment after the other: where the viewer then stands, and whether
      there is one. A wait reads the clock once for its deadline and once after each moment without a new frame; when
      the deadline has passed another wait begins. */
  function AwaitFrame(clock: nat -> int, timeout: int, s: Scene, after: int): (r: (Scene, bool))
    ensures r.1 ==> |r.0.others| < |s.others| && r.0.frames != [] && |r.0.frames| != after
    ensures r.0.tick > s.tick
    decreases |s.others|, 1
  {
    AwaitUntil(clock, timeout, s.Read(), after, clock(s.tick) + timeout)
  }

  /** In a wait, before the next moment. */
  function AwaitUntil(clock: nat -> int, timeout: int, s: Scene, after: int, deadline: int): (r: (Scene, bool))
    ensures r.1 ==> |r.0.others| < |s.others| && r.0.frames != [] && |r.0.frames| != after
    ensures r.0.tick >= s.tick
    decreases |s.others|, 0
  {
    if s.others == [] then (s, false) else AwaitAt(clock, timeout, s.Next(), after, deadline)
  }

  /** In a wait, after a moment. */
  function AwaitAt(clock: nat -> int, timeout: int, s: Scene, after: int, deadline: int): (r: (Scene, bool))
    ensures r.1 ==> |r.0.others| <= |s.others| && r.0.frames != [] && |r.0.frames| != after
    ensures r.0.tick >= s.tick
    decreases |s.others|, 2
  {
    if s.frames != [] && |s.frames| != after then (s, true)
    else if clock(s.tick) >= deadline then AwaitFrame(clock, timeout, s.Read(), after)
    else AwaitUntil(clock, timeout, s.Read(), after, deadline)
  }

  lemma AwaitBegins(clock: nat -> int, timeout: int, s: Scene, after: int)
    ensures AwaitFrame(clock, timeout, s, after)
         == AwaitUntil(clock, timeout, s.Read(), after, clock(s.tick) + timeout)
  {
  }

  lemma AwaitOn(clock: nat -> int, timeout: int, s: Scene, after: int, deadline: int)
    ensures s.others == [] ==> AwaitUntil(clock, timeout, s, after, deadline) == (s, false)
    ensures s.others != [] ==>
              AwaitUntil(clock, timeout, s, after, deadline) == AwaitAt(clock, timeout, s.Next(), after, deadline)
  {
    hide AwaitAt;
  }

  lemma AwaitStands(clock: nat -> int, timeout: int, s: Scene, after: int, deadline: int)
    ensures AwaitAt(clock, timeout, s, after, deadline)
         == if s.frames != [] && |s.frames| != after then (s, true)
            else if clock(s.tick) >= deadline then AwaitFrame(clock, timeout, s.Read(), after)
            else AwaitUntil(clock, timeout, s.Read(), after, deadline)
  {
    hide AwaitFrame, AwaitUntil;
  }

  /** The frames published when `k` more moments have passed. */
  function FramesAt(frames: seq<bytes>, others: seq<seq<Publication>>, k: nat): seq<bytes>
    requires k <= |others|
    decreases k
  {
    if k == 0 then frames else FramesAt(frames + PublishedFrames(others[0]), others[1..], k - 1)
  }

  /** The audio published when `k` more moments have passed. */
  function AudioAt(log: seq<bytes>, others: seq<seq<Publication>>, k: nat): seq<bytes>
    requires k <= |others|
    decreases k
  {
    if k == 0 then log else AudioAt(log + PublishedAudio(others[0]), others[1..], k - 1)
  }

  predicate OtherThan(frames: seq<bytes>, after: int) {
    frames != [] && |frames| != after
  }

  /** A wait for a frame ends at the first moment at which there is one other than number `after`, with all frames
      published by then, whatever the clock shows and however often the wait times out on the way. */
  lemma FrameAwaited(clock: nat -> int, timeout: int, s: Scene, after: int, k: nat)
    requires 1 <= k <= |s.others|
    requires forall j | 1 <= j < k :: !OtherThan(FramesAt(s.frames, s.others, j), after)
    ensures var (now, found) := AwaitFrame(clock, timeout, s, after);
            if OtherThan(FramesAt(s.frames, s.others, k), after) then
              found && now.frames == FramesAt(s.frames, s.others, k) && now.others == s.others[k..]
            else found ==> |now.others| < |s.others| - k
  {
    hide AwaitFrame, AwaitUntil, PublishedFrames;
    AwaitBegins(clock, timeout, s, after);
    FrameAwaitedOn(clock, timeout, s.Read(), after, clock(s.tick) + timeout, k);
  }

  lemma {:induction false} FrameAwaitedOn(clock: nat -> int, timeout: int, s: Scene, after: int, deadline: int, k: nat)
    requires 1 <= k <= |s.others|
    requires forall j | 1 <= j < k :: !OtherThan(FramesAt(s.frames, s.others, j), after)
    ensures var (now, found) := AwaitUntil(clock, timeout, s, after, deadline);
            if OtherThan(FramesAt(s.frames, s.others, k), after) then
              found && now.frames == FramesAt(s.frames, s.others, k) && now.others == s.others[k..]
            else found ==> |now.others| < |s.others| - k
    decreases k
  {
    hide AwaitFrame, AwaitUntil, AwaitAt, PublishedFrames;
    var next := s.Next();
    AwaitOn(clock, timeout, s, after, deadline);
    AwaitStands(clock, timeout, next, after, deadline);
    assert forall j | 1 <= j <= k ::
        FramesAt(s.frames, s.others, j) == FramesAt(next.frames, next.others, j - 1);
    if k > 1 {
      assert !OtherThan(FramesAt(s.frames, s.others, 1), after);
      assert forall j | 1 <= j < k - 1 :: FramesAt(next.frames, next.others, j) == FramesAt(s.frames, s.others, j + 1);
      if clock(next.tick) >= deadline {
        AwaitBegins(clock, timeout, next.Read(), after);
        FrameAwaitedOn(clock, timeout, next.Read().Read(), after, clock(next.Read().tick) + timeout, k - 1);
      } else {
        FrameAwaitedOn(clock, timeout, next.Read(), after, deadline, k - 1);
      }
    }
  }

  /** A wait for audio ends at the first moment at which there is any beyond the cursor, with all audio published
      by then; without such a moment it does not end. */
  lemma {:induction false} AudioAwaited(log: seq<bytes>, cursor: nat, others: seq<seq<Publication>>, k: nat)
    requires k <= |others| && forall j | 1 <= j < k :: |AudioAt(log, others, j)| <= cursor
    ensures 1 <= k && |AudioAt(log, others, k)| > cursor ==>
              AwaitAudio(log, cursor, others) == (AudioAt(log, others, k), others[k..], true)
    ensures k == |others| && (k == 0 || |AudioAt(log, others, k)| <= cursor) ==> !AwaitAudio(log, cursor, others).2
    decreases k
  {
    hide PublishedAudio;
    if k > 0 {
      var more := log + PublishedAudio(others[0]);
      assert forall j | 1 <= j <= k :: AudioAt(log, others, j) == AudioAt(more, others[1..], j - 1);
      if k > 1 {
        assert |AudioAt(log, others, 1)| <= cursor;
        assert forall j | 1 <= j < k - 1 :: AudioAt(more, others[1..], j) == AudioAt(log, others, j + 1);
        AudioAwaited(more, cursor, others[1..], k - 1);
      }
    }
  }

  /** The poll of a frame: with an interval the limiter reads the clock when the wait is over. */
  function PollOf(clock: nat -> int, s: Scene, interval: int): Poll
    requires s.frames != []
  {
    Poll(s.tick, if interval == 0 then 0 else clock(s.tick), |s.frames|, s.frames[|s.frames| - 1])
  }

  function Polled(s: Scene, interval: int): Scene {
    if interval == 0 then s else s.Read()
  }

  /** The limiter's threshold after sending a poll; without an interval it is never used. */
  function NextThreshold(nextAt: int, sent: Poll, interval: int): int {
    if interval == 0 then nextAt else sent.at + interval
  }

  /** The polls of a viewer, from `after` and a limiter threshold on: each takes the newest frame at the first moment at
      which there is another one, and a frame that is sent takes one more moment. */
  function ViewFrom(clock: nat -> int, s: Scene, after: int, interval: int, nextAt: int): seq<Poll>
    decreases |s.others|, 0
  {
    var (now, found) := AwaitFrame(clock, VIEWER_TIMEOUT, s, after);
    if !found then []
    else [PollOf(clock, now, interval)] + AfterPoll(clock, now, interval, nextAt)
  }

  /** The polls after the one at `now`. */
  function AfterPoll(clock: nat -> int, now: Scene, interval: int, nextAt: int): seq<Poll>
    requires now.frames != []
    decreases |now.others|, 1
  {
    var p, left := PollOf(clock, now, interval), Polled(now, interval);
    if interval != 0 && p.at < nextAt then ViewFrom(clock, left, |now.frames|, interval, nextAt)
    else if left.others == [] then []
    else ViewFrom(clock, left.Next(), |now.frames|, interval, NextThreshold(nextAt, p, interval))
  }

  /** What lies ahead after a poll that the limiter holds back, and after one that is sent. */
  lemma AfterPollIs(clock: nat -> int, now: Scene, interval: int, nextAt: int)
    requires now.frames != []
    ensures var p, left := PollOf(clock, now, interval), Polled(now, interval);
            AfterPoll(clock, now, interval, nextAt)
            == if interval != 0 && p.at < nextAt then ViewFrom(clock, left, |now.frames|, interval, nextAt)
               else if left.others == [] then []
               else ViewFrom(clock, left.Next(), |now.frames|, interval, NextThreshold(nextAt, p, interval))
  {
    hide ViewFrom, PollOf;
  }

  // ----- the class -----

  /** The chunks a scan of the ring keeps: those with an id above `after`. */
  function Newer(chunks: seq<Chunk>, after: nat): seq<Chunk> {
    if chunks == [] then []
    else
      var last := chunks[|chunks| - 1];
      Newer(chunks[..|chunks| - 1], after) + if last.0 > after then [last] else []
  }

  lemma EntriesSnoc(log: seq<bytes>, lo: nat, hi: nat)
    requires lo < hi <= |log|
    ensures Entries(log, lo, hi) == Entries(log, lo, hi - 1) + [(hi, log[hi - 1])]
  {
  }

  lemma NewerSnoc(chunks: seq<Chunk>, last: Chunk, after: nat)
    ensures Newer(chunks + [last], after) == Newer(chunks, after) + if last.0 > after then [last] else []
  {
    assert (chunks + [last])[..|chunks|] == chunks;
  }

  /** Scanning consecutive chunks keeps a suffix of them. */
  lemma {:induction false} NewerOfEntries(log: seq<bytes>, lo: nat, hi: nat, after: nat)
    requires lo <= hi <= |log| && after <= hi
    ensures Newer(Entries(log, lo, hi), after) == Entries(log, Max(lo, after), hi)
    decreases hi
  {
    hide Entries;
    if after == hi {
      NoneNewer(log, lo, hi, after);
      assert Entries(log, hi, hi) == [];
    } else if lo < hi {
      EntriesSnoc(log, lo, hi);
      NewerSnoc(Entries(log, lo, hi - 1), (hi, log[hi - 1]), after);
      NewerOfEntries(log, lo, hi - 1, after);
      EntriesSnoc(log, Max(lo, after), hi);
    }
  }

  lemma {:induction false} NoneNewer(log: seq<bytes>, lo: nat, hi: nat, after: nat)
    requires lo <= hi <= |log| && after >= hi
    ensures Newer(Entries(log, lo, hi), after) == []
    decreases hi
  {
    hide Entries;
    if lo < hi {
      EntriesSnoc(log, lo, hi);
      NewerSnoc(Entries(log, lo, hi - 1), (hi, log[hi - 1]), after);
      NoneNewer(log, lo, hi - 1, after);
    }
  }

  /** Polled frames are frames of the log, under their ids. */
  predicate FromLog(frames: seq<bytes>, polls: seq<Poll>) {
    forall i | 0 <= i < |polls| :: 1 <= polls[i].id <= |frames| && polls[i].frame == frames[polls[i].id - 1]
  }

  class CameraState {
    const clock: nat -> int
    var ticks: nat
    var others: seq<seq<Publication>>
    var frame: Option<bytes>
    var frameId: nat
    var audioChunks: seq<Chunk>
    var audioId: nat
    var connected: bool
    var error: Option<string>
    ghost var frames: seq<bytes>
    ghost var audio: seq<bytes>

    /** The cell holds the newest frame and the ring the last 128 chunks, each under its place in the log. */
    ghost predicate Valid()
      reads `frame, `frameId, `audioChunks, `audioId, `frames, `audio
    {
      && frameId == |frames| && frame == (if frames == [] then None else Some(frames[|frames| - 1]))
      && audioId == |audio| && audioChunks == Ring(audio)
    }

    constructor (clock: nat -> int, others: seq<seq<Publication>>)
      ensures Valid() && frames == [] && audio == [] && !connected && error == None
      ensures this.clock == clock && this.others == others && ticks == 0
    {
      this.clock, this.others, ticks := clock, others, 0;
      frame, frameId, audioChunks, audioId, connected, error := None, 0, [], 0, false, None;
      frames, audio := [], [];
    }

    method Now() returns (now: int)
      modifies `ticks
      ensures now == clock(old(ticks)) && ticks == old(ticks) + 1
    {
      now := clock(ticks);
      ticks := ticks + 1;
    }

    method SetConnected(connected: bool, error: Option<string>)
      requires Valid()
      modifies `connected, `error
      ensures Valid() && this.connected == connected && this.error == error
    {
      this.connected, this.error := connected, error;
    }

    method Publish(frame: bytes)
      requires Valid()
      modifies `frame, `frameId, `connected, `error, `frames
      ensures Valid() && frames == old(frames) + [frame] && connected && error == None
    {
      this.frame := Some(frame);
      frameId := frameId + 1;
      connected := true;
      error := None;
      frames := frames + [frame];
    }

    /** Appends to the bounded deque, which drops its oldest entry when it is full. */
    method PublishAudio(chunk: bytes)
      requires Valid()
      modifies `audioChunks, `audioId, `audio
      ensures Valid() && audio == old(audio) + [chunk]
    {
      hide Ring, Entries;
      RingSnoc(audio, chunk);
      audioId := audioId + 1;
      audioChunks := audioChunks + [(audioId, chunk)];
      if |audioChunks| > RING_SIZE {
        audioChunks := audioChunks[1..];
      }
      audio := audio + [chunk];
    }

    method Perform(publication: Publication)
      requires Valid()
      modifies `frame, `frameId, `connected, `error, `frames, `audioChunks, `audioId, `audio
      ensures Valid()
      ensures frames == old(frames) + (if publication.NewFrame? then [publication.frame] else [])
      ensures audio == old(audio) + (if publication.NewAudio? then [publication.chunk] else [])
    {
      match publication
      case NewFrame(image) => Publish(image);
      case NewAudio(chunk) => PublishAudio(chunk);
      case Connection(up, reason) => SetConnected(up, reason);
    }

    /** A moment without the lock: the other threads publish their next batch, or the run is over. */
    method Elapse() returns (over: bool)
      requires Valid()
      modifies `others, `frame, `frameId, `connected, `error, `frames, `audioChunks, `audioId, `audio
      ensures Valid() && (over <==> old(others) == [])
      ensures over ==> others == [] && frames == old(frames) && audio == old(audio)
      ensures !over ==>
                && others == old(others)[1..]
                && frames == old(frames) + PublishedFrames(old(others)[0])
                && audio == old(audio) + PublishedAudio(old(others)[0])
    {
      if others == [] {
        return true;
      }
      var batch := others[0];
      others := others[1..];
      assert batch[..0] == [];
      for i := 0 to |batch|
        invariant Valid() && others == old(others)[1..]
        invariant frames == old(frames) + PublishedFrames(batch[..i])
        invariant audio == old(audio) + PublishedAudio(batch[..i])
      {
        assert batch[..i + 1][..i] == batch[..i];
        Perform(batch[i]);
      }
      assert batch[..|batch|] == batch;
      return false;
    }

    /** What a viewer finds now. */
    ghost function Sight(): Scene
      reads `frames, `others, `ticks
    {
      Scene(frames, others, ticks)
    }

    /** Waits for a frame other than number `after`, after taking the lock; what it returns is the newest frame of that
        moment. */
    method WaitForFrame(after: int, timeout: int) returns (r: Waited<(nat, bytes)>)
      requires Valid()
      modifies this
      ensures Valid() && old(frames) <= frames && old(audio) <= audio
      ensures (r.Over? ==> others == []) && (!r.Over? ==> |others| < |old(others)|) && ticks > old(ticks)
      ensures r.Got? ==> frames != [] && |frames| != after && r.value == (|frames|, frames[|frames| - 1])
      ensures r.TimedOut? ==>
                (frames == [] || frameId == after) && clock(ticks - 1) >= clock(old(ticks)) + timeout
      ensures AwaitFrame(clock, timeout, old(Sight()), after)
           == if r.TimedOut? then AwaitFrame(clock, timeout, Sight(), after) else (Sight(), r.Got?)
    {
      hide PublishedFrames, PublishedAudio, AwaitFrame, AwaitUntil, AwaitAt, Valid;
      AwaitBegins(clock, timeout, Sight(), after);
      var now := Now();
      var deadline := now + timeout;
      AwaitOn(clock, timeout, Sight(), after, deadline);
      var over := Elapse();
      if over {
        return Over;
      }
      Newest();
      while frame.None? || frameId == after
        invariant Valid() && old(frames) <= frames && old(audio) <= audio
        invariant frameId == |frames| && frame == if frames == [] then None else Some(frames[|frames| - 1])
        invariant AwaitFrame(clock, timeout, old(Sight()), after)
               == AwaitAt(clock, timeout, Sight(), after, deadline)
        invariant |others| < |old(others)| && ticks > old(ticks)
        decreases |others|
      {
        AwaitStands(clock, timeout, Sight(), after, deadline);
        now := Now();
        if deadline - now <= 0 {
          return TimedOut;
        }
        AwaitOn(clock, timeout, Sight(), after, deadline);
        over := Elapse();
        if over {
          return Over;
        }
        Newest();
      }
      AwaitStands(clock, timeout, Sight(), after, deadline);
      return Got((frameId, frame.value));
    }

    lemma Newest()
      requires Valid()
      ensures frameId == |frames| && frame == if frames == [] then None else Some(frames[|frames| - 1])
    {
    }

    method AudioCursor() returns (cursor: nat)
      requires Valid()
      ensures cursor == |audio|
    {
      cursor := audioId;
    }

    /** Waits for audio after `after`, after taking the lock; what it returns is what is still held of it. */
    method WaitForAudio(after: nat, timeout: int) returns (r: Waited<seq<Chunk>>)
      requires Valid()
      modifies this
      ensures Valid() && old(frames) <= frames && old(audio) <= audio
      ensures (r.Over? ==> others == []) && (!r.Over? ==> |others| < |old(others)|) && ticks > old(ticks)
      ensures r.Got? ==> after < |audio| && r.value == AudioLog.Poll(audio, after, |audio|) != []
      ensures r.TimedOut? ==> |audio| <= after && clock(ticks - 1) >= clock(old(ticks)) + timeout
      ensures AwaitAudio(old(audio), after, old(others))
           == if r.TimedOut? then AwaitAudio(audio, after, others) else (audio, others, r.Got?)
    {
      hide PublishedFrames, PublishedAudio;
      var now := Now();
      var deadline := now + timeout;
      var over := Elapse();
      if over {
        return Over;
      }
      while audioId <= after
        invariant Valid() && old(frames) <= frames && old(audio) <= audio
        invariant AwaitAudio(old(audio), after, old(others))
               == if |audio| <= after then AwaitAudio(audio, after, others) else (audio, others, true)
        invariant |others| < |old(others)| && ticks > old(ticks)
        decreases |others|
      {
        now := Now();
        if deadline - now <= 0 {
          return TimedOut;
        }
        over := Elapse();
        if over {
          return Over;
        }
      }
      var kept := StillHeld(after);
      return Got(kept);
    }

    /** The chunks after `after` that the ring still holds. */
    method StillHeld(after: nat) returns (kept: seq<Chunk>)
      requires Valid() && after < |audio|
      ensures kept == AudioLog.Poll(audio, after, |audio|)
    {
      HeldIsPoll(after);
      hide Newer, AudioLog.Poll, Valid;
      NoneScanned(after);
      kept := [];
      assert audioChunks[..0] == [];
      for i := 0 to |audioChunks|
        invariant kept == Newer(audioChunks[..i], after)
      {
        assert audioChunks[..i + 1] == audioChunks[..i] + [audioChunks[i]];
        NewerSnoc(audioChunks[..i], audioChunks[i], after);
        if audioChunks[i].0 > after {
          kept := kept + [audioChunks[i]];
        }
      }
      assert audioChunks[..|audioChunks|] == audioChunks;
    }

    lemma HeldIsPoll(after: nat)
      requires Valid() && after < |audio|
      ensures Newer(audioChunks, after) == AudioLog.Poll(audio, after, |audio|)
    {
      NewerOfEntries(audio, Oldest(|audio|), |audio|, after);
    }

    lemma NoneScanned(after: nat)
      ensures Newer([], after) == []
    {
    }
  }

  /** Where the id of the last chunk of a poll puts the cursor. */
  lemma PollEndsAtHead(log: seq<bytes>, cursor: nat, head: nat)
    requires cursor < head <= |log|
    ensures var chunks := AudioLog.Poll(log, cursor, head); chunks != [] && Last(chunks).0 == head
  {
  }

  lemma MarksSnoc(log: seq<bytes>, marks: seq<nat>, head: nat)
    requires Advancing(marks, |log|) && Last(marks) < head <= |log|
    ensures Advancing(marks + [head], |log|)
    ensures Delivered(log, marks + [head]) == Delivered(log, marks) + AudioLog.Poll(log, Last(marks), head)
  {
    assert Front(marks + [head]) == marks;
  }

  /** Writes a poll's chunks one by one, in order; each write gives the other threads a moment. */
  method WriteChunks(state: CameraState, chunks: seq<Chunk>, cursor: nat)
    returns (over: bool, written: seq<Chunk>, next: nat)
    requires state.Valid() && chunks != []
    modifies state
    ensures WriteFrom(old(state.audio), chunks, Last(chunks).0, old(state.others))
         == written + if over then [] else ListenFrom(state.audio, next, state.others)
    ensures state.Valid() && old(state.frames) <= state.frames && old(state.audio) <= state.audio
    ensures |state.others| <= |old(state.others)| && written <= chunks
    ensures over ==> state.others == []
    ensures !over ==> |state.others| < |old(state.others)| && written == chunks && next == Last(chunks).0
  {
    hide ListenFrom, CameraState.Valid, PublishedAudio, PublishedFrames;
    written, next := [], cursor;
    ghost var end := Last(chunks).0;
    assert chunks[0..] == chunks;
    for i := 0 to |chunks|
      invariant state.Valid() && old(state.frames) <= state.frames && old(state.audio) <= state.audio
      invariant |state.others| + i == |old(state.others)|
      invariant WriteFrom(old(state.audio), chunks, end, old(state.others))
             == written + WriteFrom(state.audio, chunks[i..], end, state.others)
      invariant written == chunks[..i] && next == if i == 0 then cursor else chunks[i - 1].0
    {
      assert chunks[i..] != [] && chunks[i..][0] == chunks[i] && chunks[i..][1..] == chunks[i + 1..];
      over := state.Elapse();
      if over {
        return;
      }
      next := chunks[i].0;
      written := written + [chunks[i]];
    }
    return false, written, next;
  }

  /** A listener: it starts at the newest chunk and writes what every poll returns.

      What it has written is determined by the schedule alone, whatever the clock, and is what its polls delivered, up
      to where the last one was cut off; the marks of the run are its starting cursor and the number of chunks
      published at each poll. */
  method Listen(state: CameraState) returns (written: seq<Chunk>, ghost marks: seq<nat>)
    requires state.Valid()
    modifies state
    ensures state.Valid() && old(state.frames) <= state.frames && old(state.audio) <= state.audio
    ensures state.others == []
    ensures Advancing(marks, |state.audio|) && marks[0] == |old(state.audio)|
    ensures written == ListenFrom(old(state.audio), |old(state.audio)|, old(state.others))
    ensures written <= Delivered(state.audio, marks)
    ensures |marks| > 1 ==> Delivered(state.audio, Front(marks)) <= written
  {
    hide AudioLog.Poll, Delivered, CameraState.Valid, AwaitAudio, WriteFrom;
    var cursor := state.AudioCursor();
    written, marks := [], [cursor];
    assert Delivered(state.audio, marks) == [] by {
      NothingYet(state.audio, marks);
    }
    while true
      invariant state.Valid() && old(state.frames) <= state.frames && old(state.audio) <= state.audio
      invariant Advancing(marks, |state.audio|) && marks[0] == |old(state.audio)| && cursor == Last(marks)
      invariant written == Delivered(state.audio, marks)
      invariant ListenFrom(old(state.audio), |old(state.audio)|, old(state.others))
             == written + ListenFrom(state.audio, cursor, state.others)
      decreases |state.others|
    {
      ghost var log := state.audio;
      var waited := state.WaitForAudio(cursor, VIEWER_TIMEOUT);
      DeliveredGrows(log, state.audio, marks);
      if waited.Over? {
        EarlierIsPrefix(state.audio, marks);
        return;
      }
      if waited.Got? {
        ghost var head := |state.audio|;
        ghost var before := marks;
        MarksSnoc(state.audio, before, head);
        PollEndsAtHead(state.audio, cursor, head);
        marks := before + [head];
        assert Front(marks) == before;
        log := state.audio;
        var over, chunks;
        over, chunks, cursor := WriteChunks(state, waited.value, cursor);
        written := written + chunks;
        DeliveredGrows(log, state.audio, marks);
        DeliveredGrows(log, state.audio, before);
        if over {
          return;
        }
      }
    }
  }

  lemma EarlierIsPrefix(log: seq<bytes>, marks: seq<nat>)
    requires Advancing(marks, |log|)
    ensures |marks| > 1 ==> Delivered(log, Front(marks)) <= Delivered(log, marks)
  {
  }

  lemma NothingYet(log: seq<bytes>, marks: seq<nat>)
    requires Advancing(marks, |log|) && |marks| == 1
    ensures Delivered(log, marks) == []
  {
  }

  lemma SampledSnoc(polls: seq<Poll>, p: Poll, interval: int)
    ensures Sampled(polls + [p], interval)
         == if interval != 0 && p.at < NextFrameAt(Sampled(polls, interval), interval) then Sampled(polls, interval)
            else Sampled(polls, interval) + [p]
  {
    assert (polls + [p])[..|polls|] == polls;
  }

  /** Polling a newer frame later keeps the polls in order. */
  lemma PollsSnoc(frames: seq<bytes>, polls: seq<Poll>, p: Poll)
    requires FromLog(frames, polls) && IncreasingIds(polls)
    requires p.id > (if polls == [] then 0 else polls[|polls| - 1].id)
    requires 1 <= p.id <= |frames| && p.frame == frames[p.id - 1]
    ensures FromLog(frames, polls + [p]) && IncreasingIds(polls + [p])
  {
  }

  /** One more poll with a later reading. */
  lemma ReadSnoc(clock: nat -> int, polls: seq<Poll>, interval: int, lo: nat, mid: nat, hi: nat, p: Poll)
    requires ReadFrom(clock, polls, interval, lo, mid) && lo <= mid <= hi
    requires if interval == 0 then p.at == 0 else mid <= p.tick < hi && p.at == clock(p.tick)
    ensures ReadFrom(clock, polls + [p], interval, lo, hi)
  {
  }

  /** What a viewer has polled and sent when it stands at `s`: frames of the log, read from the start on. */
  ghost predicate Watched(
      clock: nat -> int, start: Scene, s: Scene, interval: int, polls: seq<Poll>, sent: seq<Poll>)
  {
    && start.frames <= s.frames && start.tick <= s.tick && sent == Sampled(polls, interval)
    && FromLog(s.frames, polls) && IncreasingIds(polls) && ReadFrom(clock, polls, interval, start.tick, s.tick)
  }

  /** A viewer under way: what it has polled and what it will poll are the polls of the whole view. */
  ghost predicate Watching(
      clock: nat -> int, start: Scene, s: Scene, interval: int, polls: seq<Poll>, sent: seq<Poll>, after: int,
      nextAt: int)
  {
    && Watched(clock, start, s, interval, polls, sent)
    && after == (if polls == [] then -1 else polls[|polls| - 1].id) && (polls != [] ==> after <= |s.frames|)
    && (interval != 0 ==> nextAt == NextFrameAt(sent, interval))
    && ViewFrom(clock, start, -1, interval, 0) == polls + ViewFrom(clock, s, after, interval, nextAt)
  }

  lemma WatchStarts(clock: nat -> int, start: Scene, interval: int)
    ensures Watching(clock, start, start, interval, [], [], -1, 0)
  {
    hide ViewFrom;
    assert [] + ViewFrom(clock, start, -1, interval, 0) == ViewFrom(clock, start, -1, interval, 0);
  }

  lemma WatchedLater(
      clock: nat -> int, start: Scene, s: Scene, later: Scene, interval: int, polls: seq<Poll>, sent: seq<Poll>)
    requires Watched(clock, start, s, interval, polls, sent) && s.frames <= later.frames && s.tick <= later.tick
    ensures Watched(clock, start, later, interval, polls, sent)
  {
    hide Sampled;
  }

  /** A wait without a new frame changes nothing ahead, and ends the view when no moment is left. */
  lemma WatchWaits(
      clock: nat -> int, start: Scene, s: Scene, later: Scene, interval: int, polls: seq<Poll>, sent: seq<Poll>,
      after: int, nextAt: int)
    requires Watching(clock, start, s, interval, polls, sent, after, nextAt)
    requires s.frames <= later.frames && s.tick <= later.tick
    ensures Watched(clock, start, later, interval, polls, sent)
    ensures AwaitFrame(clock, VIEWER_TIMEOUT, later, after) == AwaitFrame(clock, VIEWER_TIMEOUT, s, after) ==>
              Watching(clock, start, later, interval, polls, sent, after, nextAt)
    ensures !AwaitFrame(clock, VIEWER_TIMEOUT, s, after).1 ==> ViewFrom(clock, start, -1, interval, 0) == polls
  {
    hide AwaitFrame, Sampled, NextFrameAt, AfterPoll, Watched;
    WatchedLater(clock, start, s, later, interval, polls, sent);
    assert polls + [] == polls;
  }

  /** A poll adds a frame of the log; the view ahead is what comes after it. */
  lemma WatchPolls(
      clock: nat -> int, start: Scene, s: Scene, now: Scene, interval: int, polls: seq<Poll>, sent: seq<Poll>,
      after: int, nextAt: int)
    requires Watching(clock, start, s, interval, polls, sent, after, nextAt) && s.frames <= now.frames
    requires AwaitFrame(clock, VIEWER_TIMEOUT, s, after) == (now, true)
    ensures var p := PollOf(clock, now, interval);
            && ViewFrom(clock, start, -1, interval, 0) == polls + [p] + AfterPoll(clock, now, interval, nextAt)
            && Watched(clock, start, Polled(now, interval), interval, polls + [p],
                       if interval != 0 && p.at < nextAt then sent else sent + [p])
  {
    hide AwaitFrame, Sampled, AfterPoll, FromLog, ReadFrom, IncreasingIds;
    var p, left := PollOf(clock, now, interval), Polled(now, interval);
    assert polls + ([p] + AfterPoll(clock, now, interval, nextAt))
        == polls + [p] + AfterPoll(clock, now, interval, nextAt);
    LogGrows(s.frames, now.frames, polls);
    PollsSnoc(now.frames, polls, p);
    SampledSnoc(polls, p, interval);
    ReadSnoc(clock, polls, interval, start.tick, s.tick, left.tick, p);
  }

  /** After a poll the view goes on, or ends with it. */
  lemma WatchGoesOn(
      clock: nat -> int, start: Scene, now: Scene, interval: int, polls: seq<Poll>, sent: seq<Poll>, nextAt: int)
    requires now.frames != [] && var p, left := PollOf(clock, now, interval), Polled(now, interval);
             && ViewFrom(clock, start, -1, interval, 0) == polls + [p] + AfterPoll(clock, now, interval, nextAt)
             && Watched(clock, start, left, interval, polls + [p],
                        if interval != 0 && p.at < nextAt then sent else sent + [p])
             && (interval != 0 ==> nextAt == NextFrameAt(sent, interval))
    ensures var p, left := PollOf(clock, now, interval), Polled(now, interval);
            if interval != 0 && p.at < nextAt then
              Watching(clock, start, left, interval, polls + [p], sent, p.id, nextAt)
            else if left.others == [] then ViewFrom(clock, start, -1, interval, 0) == polls + [p]
            else
              && Watching(clock, start, left.Next(), interval, polls + [p], sent + [p], p.id,
                          NextThreshold(nextAt, p, interval))
  {
    hide Sampled, AfterPoll, ViewFrom, Watched;
    var p, left := PollOf(clock, now, interval), Polled(now, interval);
    AfterPollIs(clock, now, interval, nextAt);
    if !(interval != 0 && p.at < nextAt) {
      if left.others == [] {
        assert polls + [p] + [] == polls + [p];
      } else {
        WatchedLater(clock, start, left, left.Next(), interval, polls + [p], sent + [p]);
      }
    }
  }

  lemma LogGrows(frames: seq<bytes>, more: seq<bytes>, polls: seq<Poll>)
    requires FromLog(frames, polls) && frames <= more
    ensures FromLog(more, polls)
  {
  }

  /** Waits for the next frame, and reads the clock for the limiter when there is one. */
  method NextPoll(state: CameraState, after: int, interval: int) returns (waited: Waited<Poll>)
    requires state.Valid()
    modifies state
    ensures state.Valid() && old(state.frames) <= state.frames && old(state.audio) <= state.audio
    ensures waited.Over? ==> state.others == []
    ensures !waited.Over? ==> |state.others| < |old(state.others)|
    ensures state.ticks > old(state.ticks)
    ensures var (now, found) := AwaitFrame(state.clock, VIEWER_TIMEOUT, old(state.Sight()), after);
            match waited
            case Over => !found
            case TimedOut =>
              AwaitFrame(state.clock, VIEWER_TIMEOUT, state.Sight(), after) == (now, found)
            case Got(p) =>
              && found && p == PollOf(state.clock, now, interval) && state.Sight() == Polled(now, interval)
  {
    hide CameraState.Valid, AwaitFrame;
    var next := state.WaitForFrame(after, VIEWER_TIMEOUT);
    if next.Over? {
      return Over;
    }
    if next.TimedOut? {
      return TimedOut;
    }
    var (id, image) := next.value;
    var tick, now: int := state.ticks, 0;
    if interval != 0 {
      now := state.Now();
    }
    return Got(Poll(tick, now, id, image));
  }

  /** A viewer of the frame stream, sampled when `interval` is not 0.

      Its polls are determined by the schedule and by what the clock shows: it polls the newest frame as soon as there
      is another one, reads the clock then, and sends exactly what the limiter makes of the frames polled: frames of the
      log with strictly increasing ids. */
  method Stream(state: CameraState, interval: int) returns (sent: seq<Poll>, ghost polls: seq<Poll>)
    requires state.Valid()
    modifies state
    ensures state.Valid() && old(state.frames) <= state.frames && old(state.audio) <= state.audio
    ensures state.others == []
    ensures polls == ViewFrom(state.clock, old(state.Sight()), -1, interval, 0)
    ensures sent == Sampled(polls, interval)
    ensures FromLog(state.frames, polls) && IncreasingIds(polls)
    ensures ReadFrom(state.clock, polls, interval, old(state.ticks), state.ticks)
    ensures Nondecreasing(state.clock) && state.clock(old(state.ticks)) >= 0 ==> Clocked(polls)
  {
    hide Sampled, CameraState.Valid, FromLog, IncreasingIds, ReadFrom, ViewFrom, AwaitFrame, Clocked, Nondecreasing;
    hide AfterPoll, PublishedFrames, Watching, Watched, NextFrameAt;
    ghost var start := state.Sight();
    sent, polls := [], [];
    var after: int, nextFrameAt: int := -1, 0;
    WatchStarts(state.clock, start, interval);
    while true
      invariant state.Valid() && start.frames <= state.frames && old(state.audio) <= state.audio
      invariant Watching(state.clock, start, state.Sight(), interval, polls, sent, after, nextFrameAt)
      decreases |state.others|
    {
      ghost var was := state.Sight();
      var waited := NextPoll(state, after, interval);
      ghost var s, now := state.Sight(), AwaitFrame(state.clock, VIEWER_TIMEOUT, was, after).0;
      WatchWaits(state.clock, start, was, s, interval, polls, sent, after, nextFrameAt);
      if waited.Over? {
        break;
      }
      if waited.TimedOut? {
        continue;
      }
      var poll := waited.value;
      WatchPolls(state.clock, start, was, now, interval, polls, sent, after, nextFrameAt);
      WatchThreshold(state.clock, start, was, interval, polls, sent, after, nextFrameAt);
      WatchGoesOn(state.clock, start, now, interval, polls, sent, nextFrameAt);
      polls := polls + [poll];
      after := poll.id;
      if interval != 0 {
        if poll.at < nextFrameAt {
          continue;
        }
        nextFrameAt := poll.at + interval;
      }
      sent := sent + [poll];
      var over := state.Elapse();
      if over {
        break;
      }
    }
    WatchedParts(state.clock, start, state.Sight(), interval, polls, sent);
  }

  lemma WatchThreshold(
      clock: nat -> int, start: Scene, s: Scene, interval: int, polls: seq<Poll>, sent: seq<Poll>, after: int,
      nextAt: int)
    requires Watching(clock, start, s, interval, polls, sent, after, nextAt)
    ensures interval != 0 ==> nextAt == NextFrameAt(sent, interval)
  {
  }

  lemma WatchedParts(
      clock: nat -> int, start: Scene, s: Scene, interval: int, polls: seq<Poll>, sent: seq<Poll>)
    requires Watched(clock, start, s, interval, polls, sent)
    ensures sent == Sampled(polls, interval) && FromLog(s.frames, polls) && IncreasingIds(polls)
    ensures ReadFrom(clock, polls, interval, start.tick, s.tick)
    ensures Nondecreasing(clock) && clock(start.tick) >= 0 ==> Clocked(polls)
  {
    hide ReadFrom, Clocked, Sampled, FromLog, IncreasingIds;
    if Nondecreasing(clock) && clock(start.tick) >= 0 {
      ReadIsClocked(clock, polls, interval, start.tick, s.tick);
    }
  }
}
