/** When a connection starts: which batches must hold which packets, whatever else arrives. */
module HandshakeLaws {
  import opened Basics
  import opened Pprpc
  import opened Framing
  import opened Messages
  import opened Handshake
  import Crypto

  // ----- batches and the byte stream -----

  lemma RemainderIsStable(data: bytes)
    requires ParseStream(data).Success?
    ensures ParseStream(ParseStream(data).value.1) == Success(([], ParseStream(data).value.1))
  {
    var _ := FramingSound(data);
  }

  /** The place of the first `recv` that returns no bytes, or the number of them all when there is none. */
  function FirstEmpty(events: seq<RecvEvent>): (n: nat)
    ensures n <= |events| && Data([]) !in events[..n] && (n < |events| ==> events[n] == Data([]))
  {
    if events == [] || events[0] == Data([]) then 0
    else
      assert events[..1 + FirstEmpty(events[1..])] == [events[0]] + events[1..][..FirstEmpty(events[1..])];
      1 + FirstEmpty(events[1..])
  }

  lemma BytesOfFirst(events: seq<RecvEvent>, k: nat)
    requires 0 < k <= |events|
    ensures BytesOf(events[..k])
         == (if events[0].Data? then events[0].data else []) + BytesOf(events[1..][..k - 1])
  {
    assert events[..k][1..] == events[1..][..k - 1];
  }

  /** What the stream of the first `k` outcomes parses to. */
  function ParsedBy(rest: bytes, events: seq<RecvEvent>, k: nat): ParseResult
    requires k <= |events|
  {
    ParseStream(rest + BytesOf(events[..k]))
  }

  /** What one more outcome adds to the packets, if it adds any. */
  function Added(before: ParseResult, after: ParseResult): Option<seq<Packet>> {
    if before.Failure? || after.Failure? || |after.value.0| <= |before.value.0| then None
    else Some(after.value.0[|before.value.0|..])
  }

  /** What each `recv` before the first empty one completes, if it completes anything. */
  function Completed(rest: bytes, events: seq<RecvEvent>): (marks: seq<Option<seq<Packet>>>)
    ensures |marks| == FirstEmpty(events)
  {
    seq(FirstEmpty(events), k requires 0 <= k < FirstEmpty(events) =>
      Added(ParsedBy(rest, events, k), ParsedBy(rest, events, k + 1)))
  }

  /** The batches are a cut of the stream's packets up to where the peer closes, and what comes after them is decided by
      the bytes up to there: they do not parse, or the peer has closed, or there is more to wait for. */
  lemma {:induction false} ArrivalsAreTheStream(rest: bytes, events: seq<RecvEvent>)
    requires ParseStream(rest) == Success(([], rest))
    ensures var arrivals, n := ArrivalsOf(rest, events), FirstEmpty(events);
            var whole := ParseStream(rest + BytesOf(events[..n]));
            && (whole.Failure? <==> arrivals.ending.Malformed?)
            && (whole.Failure? ==> arrivals.ending == Malformed(whole.error))
            && (arrivals.ending.PeerLeft? <==> n < |events| && whole.Success?)
            && (arrivals.ending.Waiting? <==> n == |events| && whole.Success?)
            && (whole.Success? ==> whole.value.0 == Concat(arrivals.batches))
            && [] !in arrivals.batches
    decreases |events|
  {
    hide ParseStream, FirstEmpty;
    var n := FirstEmpty(events);
    if events == [] || events[0] == Data([]) {
      EmptyAtOnce(events);
      assert rest + BytesOf(events[..0]) == rest;
    } else {
      EmptyLater(events);
      BytesOfFirst(events, n);
      var data, later := rest + (if events[0].Data? then events[0].data else []), BytesOf(events[1..][..n - 1]);
      assert rest + BytesOf(events[..n]) == data + later;
      if events[0].Quiet? {
        assert data == rest;
        ArrivalsAreTheStream(rest, events[1..]);
      } else {
        ParseAppend(data, later);
        if ParseStream(data).Success? {
          var (packets, left) := ParseStream(data).value;
          RemainderIsStable(data);
          ArrivalsAreTheStream(left, events[1..]);
          ConcatCons(packets, ArrivalsOf(left, events[1..]).batches);
          if packets == [] {
            assert packets + Concat(ArrivalsOf(left, events[1..]).batches)
                == Concat(ArrivalsOf(left, events[1..]).batches);
          }
        }
      }
    }
  }

  lemma EmptyAtOnce(events: seq<RecvEvent>)
    ensures events == [] || events[0] == Data([]) ==> FirstEmpty(events) == 0
  {
  }

  lemma EmptyLater(events: seq<RecvEvent>)
    requires events != [] && events[0] != Data([])
    ensures FirstEmpty(events) == 1 + FirstEmpty(events[1..])
  {
  }

  lemma AddedBehind(packets: seq<Packet>, before: ParseResult, after: ParseResult)
    ensures Added(Prepend(packets, before), Prepend(packets, after)) == Added(before, after)
  {
    if before.Success? && after.Success? && |after.value.0| > |before.value.0| {
      var one, other := packets + before.value.0, packets + after.value.0;
      assert other[|one|..] == after.value.0[|before.value.0|..];
    }
  }

  lemma NothingParses()
    ensures ParseStream([]) == Success(([], []))
  {
  }

  /** The arrivals of a connection that its peer does not close. */
  lemma OpenArrivals(events: seq<RecvEvent>)
    requires Data([]) !in events
    ensures var arrivals, whole := ArrivalsOf([], events), ParseStream(BytesOf(events));
            if whole.Failure? then arrivals.ending == Malformed(whole.error)
            else arrivals.ending == Waiting && whole.value.0 == Concat(arrivals.batches)
  {
    hide ParseStream, ArrivalsOf;
    NothingParses();
    ArrivalsAreTheStream([], events);
    assert events[..|events|] == events && [] + BytesOf(events) == BytesOf(events);
  }

  /** What the outcomes after the first one add. */
  lemma CompletedCons(rest: bytes, events: seq<RecvEvent>)
    requires events != [] && events[0] != Data([]) && ParseStream(rest) == Success(([], rest))
    ensures var parsed := ParseStream(rest + if events[0].Data? then events[0].data else []);
            var marks := Completed(rest, events);
            if parsed.Failure? then forall i | 0 <= i < |marks| :: marks[i].None?
            else marks == [if parsed.value.0 == [] then None else Some(parsed.value.0)]
                          + Completed(parsed.value.1, events[1..])
  {
    hide ParseStream, FirstEmpty, Added, Prepend;
    EmptyLater(events);
    var data := rest + if events[0].Data? then events[0].data else [];
    var parsed, n := ParseStream(data), FirstEmpty(events);
    assert rest + BytesOf(events[..0]) == rest;
    FirstAdded(rest, parsed);
    forall k | 0 < k <= n
      ensures ParsedBy(rest, events, k)
           == if parsed.Failure? then Failure(parsed.error)
              else Prepend(parsed.value.0, ParsedBy(parsed.value.1, events[1..], k - 1))
    {
      BytesOfFirst(events, k);
      var later := BytesOf(events[1..][..k - 1]);
      assert rest + BytesOf(events[..k]) == data + later;
      ParseAppend(data, later);
    }
    if parsed.Failure? {
      NothingAdded(ParsedBy(rest, events, 0), Failure(parsed.error));
      NothingAdded(Failure(parsed.error), Failure(parsed.error));
    } else {
      var (packets, left) := parsed.value;
      forall k | 0 < k < n
        ensures Added(ParsedBy(rest, events, k), ParsedBy(rest, events, k + 1))
             == Added(ParsedBy(left, events[1..], k - 1), ParsedBy(left, events[1..], k))
      {
        AddedBehind(packets, ParsedBy(left, events[1..], k - 1), ParsedBy(left, events[1..], k));
      }
      RemainderIsStable(data);
      assert left + BytesOf(events[1..][..0]) == left;
      PrependEmpty(packets, left);
    }
  }

  lemma FirstAdded(rest: bytes, parsed: ParseResult)
    ensures parsed.Success? ==>
              Added(Success(([], rest)), parsed) == if parsed.value.0 == [] then None else Some(parsed.value.0)
  {
    assert parsed.Success? ==> parsed.value.0[0..] == parsed.value.0;
  }

  lemma NothingAdded(before: ParseResult, after: ParseResult)
    ensures before.Failure? || after.Failure? ==> Added(before, after) == None
  {
  }

  lemma PrependEmpty(packets: seq<Packet>, left: bytes)
    ensures Prepend(packets, Success(([], left))) == Success((packets, left))
  {
    assert packets + [] == packets;
  }

  /** The batches are what the outcomes complete, one batch for each that completes anything. */
  lemma {:induction false} BatchesAreCompleted(rest: bytes, events: seq<RecvEvent>)
    requires ParseStream(rest) == Success(([], rest))
    ensures Picks(Completed(rest, events), ArrivalsOf(rest, events).batches)
    decreases |events|
  {
    hide ParseStream, FirstEmpty, Completed, Picks;
    if events == [] || events[0] == Data([]) {
      EmptyAtOnce(events);
      NothingPicked<seq<Packet>>();
      assert Completed(rest, events) == [];
    } else {
      var data := rest + if events[0].Data? then events[0].data else [];
      var parsed := ParseStream(data);
      CompletedCons(rest, events);
      if parsed.Failure? {
        assert events[0].Data? by {
          assert rest + [] == rest;
        }
        NonePicked(Completed(rest, events));
      } else {
        var (packets, left) := parsed.value;
        RemainderIsStable(data);
        BatchesAreCompleted(left, events[1..]);
        PicksCons(if packets == [] then None else Some(packets), Completed(left, events[1..]),
                  ArrivalsOf(left, events[1..]).batches);
        if events[0].Quiet? {
          assert data == rest;
        }
        var later := ArrivalsOf(left, events[1..]);
        assert [] + later.batches == later.batches;
      }
    }
  }

  /** Without a fault everything is heard, and the loop stops as the arrivals end. */
  lemma {:induction false} AllIsHeard(suite: Crypto.Suite, bootstrap: bytes, ahead: Arrivals)
    requires SyncFault(suite, bootstrap, Concat(ahead.batches)) == None
    ensures Heard(suite, bootstrap, ahead) == Concat(ahead.batches)
    ensures MediaStop(suite, bootstrap, ahead) == StopOf(ahead.ending)
    decreases |ahead.batches|
  {
    if ahead.batches != [] {
      hide SyncFault;
      SyncFaultAppend(suite, bootstrap, ahead.batches[0], Concat(ahead.batches[1..]));
      AllIsHeard(suite, bootstrap, ahead.Tail());
    }
  }

  // ----- what each wait finds, by the position of the batches -----

  predicate Replies(batch: seq<Packet>, sequence: nat, commandId: nat) {
    LastAnswer(batch, sequence, commandId).Some?
  }

  /** No time-sync request in these batches is unreadable. */
  predicate Clean(suite: Crypto.Suite, bootstrap: bytes, batches: seq<seq<Packet>>, lo: nat, hi: nat) {
    forall h | lo <= h < hi && h < |batches| :: SyncFault(suite, bootstrap, batches[h]) == None
  }

  /** Batch `i` is the first one, from `from` on, with an answer to the request, and its last answer accepts it. */
  predicate Answered(
      suite: Crypto.Suite, bootstrap: bytes, batches: seq<seq<Packet>>, from: nat, i: nat,
      sequence: nat, commandId: nat)
  {
    && from <= i < |batches| && Clean(suite, bootstrap, batches, from, i + 1)
    && (forall h | from <= h < i :: !Replies(batches[h], sequence, commandId))
    && LastAnswer(batches[i], sequence, commandId).Some?
    && LastAnswer(batches[i], sequence, commandId).value.responseCode == Some(0)
  }

  /** The number of time-sync requests in a range of batches. */
  function SyncCount(batches: seq<seq<Packet>>, lo: nat, hi: nat): nat
    requires lo <= hi <= |batches|
    decreases hi - lo
  {
    if lo == hi then 0 else |SyncsOf(batches[lo])| + SyncCount(batches, lo + 1, hi)
  }

  lemma {:induction false} SyncCountGrows(batches: seq<seq<Packet>>, lo: nat, mid: nat, hi: nat)
    requires lo <= mid <= hi <= |batches|
    ensures SyncCount(batches, lo, mid) <= SyncCount(batches, lo, hi)
    decreases mid - lo
  {
    if lo < mid {
      SyncCountGrows(batches, lo + 1, mid, hi);
    }
  }

  /** Before batch `m` the wait for two time syncs, of which `replies` were there before, is over: two are there, or
      two seconds have ended it after `cut` batches. */
  predicate SyncsOver(batches: seq<seq<Packet>>, from: nat, m: nat, replies: nat, cut: Option<nat>)
    requires from <= m <= |batches|
  {
    replies + SyncCount(batches, from, m) >= 2 || (cut.Some? && m - from >= cut.value)
  }

  /** It is over before batch `m` and not earlier. */
  predicate Synced(
      suite: Crypto.Suite, bootstrap: bytes, batches: seq<seq<Packet>>, from: nat, m: nat, replies: nat,
      cut: Option<nat>)
  {
    && from <= m <= |batches| && Clean(suite, bootstrap, batches, from, m)
    && SyncsOver(batches, from, m, replies, cut)
    && (forall h | from <= h < m :: !SyncsOver(batches, from, h, replies, cut))
  }

  lemma {:induction false} AwaitFinds(
      suite: Crypto.Suite, bootstrap: bytes, batches: seq<seq<Packet>>, ending: Ending, from: nat,
      sequence: nat, commandId: nat) returns (i: nat)
    requires from <= |batches|
    requires AwaitAnswer(suite, bootstrap, From(batches, ending, from), sequence, commandId).Success?
    ensures Answered(suite, bootstrap, batches, from, i, sequence, commandId)
    ensures AwaitAnswer(suite, bootstrap, From(batches, ending, from), sequence, commandId)
         == Success((LastAnswer(batches[i], sequence, commandId).value, From(batches, ending, i + 1)))
    decreases |batches| - from
  {
    hide SyncFault;
    i := from;
    assert from < |batches|;
    assert From(batches, ending, from).Tail() == From(batches, ending, from + 1);
    if !Replies(batches[from], sequence, commandId) {
      i := AwaitFinds(suite, bootstrap, batches, ending, from + 1, sequence, commandId);
    }
  }

  lemma {:induction false} AwaitAt(
      suite: Crypto.Suite, bootstrap: bytes, batches: seq<seq<Packet>>, ending: Ending, from: nat, i: nat,
      sequence: nat, commandId: nat)
    requires Answered(suite, bootstrap, batches, from, i, sequence, commandId)
    ensures AwaitAnswer(suite, bootstrap, From(batches, ending, from), sequence, commandId)
         == Success((LastAnswer(batches[i], sequence, commandId).value, From(batches, ending, i + 1)))
    decreases i - from
  {
    hide SyncFault;
    assert From(batches, ending, from).Tail() == From(batches, ending, from + 1);
    assert SyncFault(suite, bootstrap, batches[from]) == None;
    if from < i {
      assert !Replies(batches[from], sequence, commandId);
      AwaitAt(suite, bootstrap, batches, ending, from + 1, i, sequence, commandId);
    }
  }

  function OneLess(cut: Option<nat>): Option<nat>
    requires cut != Some(0)
  {
    if cut.None? then None else Some(cut.value - 1)
  }

  /** Reading one batch on the way. */
  lemma SyncsOverNext(batches: seq<seq<Packet>>, from: nat, m: nat, replies: nat, cut: Option<nat>)
    requires from < m <= |batches| && cut != Some(0)
    ensures SyncsOver(batches, from, m, replies, cut)
        <==> SyncsOver(batches, from + 1, m, replies + |SyncsOf(batches[from])|, OneLess(cut))
  {
  }

  lemma {:induction false} SyncsFind(
      suite: Crypto.Suite, bootstrap: bytes, batches: seq<seq<Packet>>, ending: Ending, from: nat, replies: nat,
      cut: Option<nat>) returns (m: nat)
    requires from <= |batches| && AwaitSyncs(suite, bootstrap, From(batches, ending, from), replies, cut).Success?
    ensures Synced(suite, bootstrap, batches, from, m, replies, cut)
    ensures AwaitSyncs(suite, bootstrap, From(batches, ending, from), replies, cut)
         == Success(From(batches, ending, m))
    decreases |batches| - from
  {
    hide SyncFault;
    m := from;
    if replies < 2 && cut != Some(0) {
      assert from < |batches|;
      assert From(batches, ending, from).Tail() == From(batches, ending, from + 1);
      var more := replies + |SyncsOf(batches[from])|;
      m := SyncsFind(suite, bootstrap, batches, ending, from + 1, more, OneLess(cut));
      forall h | from <= h <= m
        ensures SyncsOver(batches, from, h, replies, cut) <==> h == m
      {
        if h > from {
          SyncsOverNext(batches, from, h, replies, cut);
        }
      }
    }
  }

  lemma {:induction false} SyncsAt(
      suite: Crypto.Suite, bootstrap: bytes, batches: seq<seq<Packet>>, ending: Ending, from: nat, m: nat,
      replies: nat, cut: Option<nat>)
    requires Synced(suite, bootstrap, batches, from, m, replies, cut)
    ensures AwaitSyncs(suite, bootstrap, From(batches, ending, from), replies, cut)
         == Success(From(batches, ending, m))
    decreases m - from
  {
    hide SyncFault;
    if from < m {
      assert !SyncsOver(batches, from, from, replies, cut);
      assert From(batches, ending, from).Tail() == From(batches, ending, from + 1);
      assert SyncFault(suite, bootstrap, batches[from]) == None;
      var next, more, less := from + 1, replies + |SyncsOf(batches[from])|, OneLess(cut);
      forall h | next <= h <= m
        ensures SyncsOver(batches, next, h, more, less) <==> h == m
      {
        SyncsOverNext(batches, from, h, replies, cut);
      }
      SyncsAt(suite, bootstrap, batches, ending, next, m, more, less);
    }
  }

  // ----- when a connection starts -----

  /** The batches that carry a start: `i` grants the prefix and is the first to answer the authentication; `j` is the
      first after it to answer the synchronisation; `k` is the first batch to answer the video start after two time
      syncs in the batches behind `j`, or after the two seconds that end the wait for them. Every answer counts only in
      a batch after the one that ended the wait before it. */
  predicate Connects(
      suite: Crypto.Suite, bootstrap: bytes, batches: seq<seq<Packet>>, prefix: bytes, i: nat, j: nat, k: nat,
      cut: Option<nat>)
  {
    && Answered(suite, bootstrap, batches, 0, i, 1, LAN_AUTH_COMMAND)
    && GrantedPrefix(suite, bootstrap, LastAnswer(batches[i], 1, LAN_AUTH_COMMAND).value) == Success(prefix)
    && Answered(suite, bootstrap, batches, i + 1, j, 2, SYNC_COMMAND)
    && AnsweredAfterSyncs(suite, bootstrap, batches, j + 1, k, cut)
  }

  predicate AnsweredAfterSyncs(
      suite: Crypto.Suite, bootstrap: bytes, batches: seq<seq<Packet>>, from: nat, k: nat, cut: Option<nat>)
  {
    && from <= k < |batches| && Clean(suite, bootstrap, batches, from, k + 1)
    && SyncsOver(batches, from, k, 0, cut)
    && (forall h | from <= h < k && Replies(batches[h], 3, VIDEO_START_COMMAND) ::
          !SyncsOver(batches, from, h, 0, cut))
    && LastAnswer(batches[k], 3, VIDEO_START_COMMAND).Some?
    && LastAnswer(batches[k], 3, VIDEO_START_COMMAND).value.responseCode == Some(0)
  }

  /** Batch `l` is the first after `k` to answer the audio start, and its offer is acceptable; without audio `l` is
      `k`. */
  predicate HearsAudio(
      suite: Crypto.Suite, bootstrap: bytes, batches: seq<seq<Packet>>, startAudio: bool, k: nat, l: nat)
  {
    if startAudio then
      && Answered(suite, bootstrap, batches, k + 1, l, 4, AUDIO_START_COMMAND)
      && AudioOffer(suite, bootstrap, LastAnswer(batches[l], 4, AUDIO_START_COMMAND).value).Success?
    else l == k
  }

  ghost predicate Starts(
      suite: Crypto.Suite, bootstrap: bytes, batches: seq<seq<Packet>>, startAudio: bool, prefix: bytes,
      cut: Option<nat>)
  {
    exists i: nat, j: nat, k: nat, l: nat ::
      && Connects(suite, bootstrap, batches, prefix, i, j, k, cut)
      && HearsAudio(suite, bootstrap, batches, startAudio, k, l)
  }

  lemma SyncsStayOver(batches: seq<seq<Packet>>, from: nat, m: nat, h: nat, cut: Option<nat>)
    requires from <= m <= h <= |batches| && SyncsOver(batches, from, m, 0, cut)
    ensures SyncsOver(batches, from, h, 0, cut)
  {
    SyncCountGrows(batches, from, m, h);
  }

  /** The end of the wait for time syncs and the answer after it are found where they are. */
  lemma VideoFinds(
      suite: Crypto.Suite, bootstrap: bytes, batches: seq<seq<Packet>>, ending: Ending, from: nat, cut: Option<nat>)
    returns (k: nat)
    requires from <= |batches| && AwaitSyncs(suite, bootstrap, From(batches, ending, from), 0, cut).Success?
    requires var ahead := AwaitSyncs(suite, bootstrap, From(batches, ending, from), 0, cut).value;
             AwaitAnswer(suite, bootstrap, ahead, 3, VIDEO_START_COMMAND).Success?
    ensures AnsweredAfterSyncs(suite, bootstrap, batches, from, k, cut)
    ensures var ahead := AwaitSyncs(suite, bootstrap, From(batches, ending, from), 0, cut).value;
            AwaitAnswer(suite, bootstrap, ahead, 3, VIDEO_START_COMMAND).value.1 == From(batches, ending, k + 1)
  {
    hide SyncFault, AwaitSyncs, AwaitAnswer, LastAnswer, SyncsOver;
    var m := SyncsFind(suite, bootstrap, batches, ending, from, 0, cut);
    k := AwaitFinds(suite, bootstrap, batches, ending, m, 3, VIDEO_START_COMMAND);
    SyncsStayOver(batches, from, m, k, cut);
  }

  lemma {:induction false} FirstSynced(
      suite: Crypto.Suite, bootstrap: bytes, batches: seq<seq<Packet>>, from: nat, k: nat, cut: Option<nat>)
    returns (m: nat)
    requires from <= k <= |batches| && Clean(suite, bootstrap, batches, from, k)
    requires SyncsOver(batches, from, k, 0, cut)
    ensures m <= k && Synced(suite, bootstrap, batches, from, m, 0, cut)
    decreases k
  {
    hide SyncsOver;
    if h: nat :| from <= h < k && SyncsOver(batches, from, h, 0, cut) {
      m := FirstSynced(suite, bootstrap, batches, from, h, cut);
    } else {
      m := k;
    }
  }

  lemma VideoAt(
      suite: Crypto.Suite, bootstrap: bytes, batches: seq<seq<Packet>>, ending: Ending, from: nat, k: nat,
      cut: Option<nat>)
    requires AnsweredAfterSyncs(suite, bootstrap, batches, from, k, cut)
    ensures var synced := AwaitSyncs(suite, bootstrap, From(batches, ending, from), 0, cut);
            && synced.Success?
            && AwaitAnswer(suite, bootstrap, synced.value, 3, VIDEO_START_COMMAND)
               == Success((LastAnswer(batches[k], 3, VIDEO_START_COMMAND).value, From(batches, ending, k + 1)))
  {
    hide SyncFault, AwaitSyncs, AwaitAnswer, LastAnswer, SyncsOver;
    var m := FirstSynced(suite, bootstrap, batches, from, k, cut);
    SyncsAt(suite, bootstrap, batches, ending, from, m, 0, cut);
    forall h | m <= h < k
      ensures !Replies(batches[h], 3, VIDEO_START_COMMAND)
    {
      SyncsStayOver(batches, from, m, h, cut);
    }
    AwaitAt(suite, bootstrap, batches, ending, m, k, 3, VIDEO_START_COMMAND);
  }

  lemma ConnectFinds(
      suite: Crypto.Suite, bootstrap: bytes, batches: seq<seq<Packet>>, ending: Ending, cut: Option<nat>)
    returns (i: nat, j: nat, k: nat)
    requires ConnectOutcome(suite, bootstrap, Arrivals(batches, ending), cut).Success?
    ensures var (prefix, ahead) := ConnectOutcome(suite, bootstrap, Arrivals(batches, ending), cut).value;
            Connects(suite, bootstrap, batches, prefix, i, j, k, cut) && ahead == From(batches, ending, k + 1)
  {
    hide SyncFault, AwaitSyncs, AwaitAnswer, LastAnswer, GrantedPrefix;
    assert Arrivals(batches, ending) == From(batches, ending, 0);
    i := AwaitFinds(suite, bootstrap, batches, ending, 0, 1, LAN_AUTH_COMMAND);
    j := AwaitFinds(suite, bootstrap, batches, ending, i + 1, 2, SYNC_COMMAND);
    k := VideoFinds(suite, bootstrap, batches, ending, j + 1, cut);
  }

  lemma ConnectAt(
      suite: Crypto.Suite, bootstrap: bytes, batches: seq<seq<Packet>>, ending: Ending, prefix: bytes,
      i: nat, j: nat, k: nat, cut: Option<nat>)
    requires Connects(suite, bootstrap, batches, prefix, i, j, k, cut)
    ensures ConnectOutcome(suite, bootstrap, Arrivals(batches, ending), cut)
         == Success((prefix, From(batches, ending, k + 1)))
  {
    hide SyncFault, AwaitSyncs, AwaitAnswer, LastAnswer, GrantedPrefix;
    assert Arrivals(batches, ending) == From(batches, ending, 0);
    AwaitAt(suite, bootstrap, batches, ending, 0, i, 1, LAN_AUTH_COMMAND);
    AwaitAt(suite, bootstrap, batches, ending, i + 1, j, 2, SYNC_COMMAND);
    VideoAt(suite, bootstrap, batches, ending, j + 1, k, cut);
  }

  /** A connection whose awaited answers come before their deadlines starts with a prefix exactly when the batches carry
      that start: each awaited answer comes in a batch after the one that ended the wait before it, and the last answer
      of the first answering batch grants the prefix. */
  lemma StartsIff(
      suite: Crypto.Suite, bootstrap: bytes, batches: seq<seq<Packet>>, ending: Ending, startAudio: bool,
      prefix: bytes, cut: Option<nat>)
    ensures (var start := StartOutcome(suite, bootstrap, Arrivals(batches, ending), startAudio, cut);
             start.Success? && start.value.0 == prefix)
            <==> Starts(suite, bootstrap, batches, startAudio, prefix, cut)
  {
    hide SyncFault, AwaitAnswer, LastAnswer, GrantedPrefix, ConnectOutcome, AudioOffer, Connects;
    var start := StartOutcome(suite, bootstrap, Arrivals(batches, ending), startAudio, cut);
    if start.Success? && start.value.0 == prefix {
      var i, j, k := ConnectFinds(suite, bootstrap, batches, ending, cut);
      ConnectBounds(suite, bootstrap, batches, prefix, i, j, k, cut);
      var l := k;
      if startAudio {
        l := AwaitFinds(suite, bootstrap, batches, ending, k + 1, 4, AUDIO_START_COMMAND);
      }
      assert HearsAudio(suite, bootstrap, batches, startAudio, k, l);
    }
    if i: nat, j: nat, k: nat, l: nat :| Connects(suite, bootstrap, batches, prefix, i, j, k, cut)
                                         && HearsAudio(suite, bootstrap, batches, startAudio, k, l) {
      ConnectAt(suite, bootstrap, batches, ending, prefix, i, j, k, cut);
      if startAudio {
        AwaitAt(suite, bootstrap, batches, ending, k + 1, l, 4, AUDIO_START_COMMAND);
      }
    }
  }

  lemma ConnectBounds(
      suite: Crypto.Suite, bootstrap: bytes, batches: seq<seq<Packet>>, prefix: bytes, i: nat, j: nat, k: nat,
      cut: Option<nat>)
    requires Connects(suite, bootstrap, batches, prefix, i, j, k, cut)
    ensures i < j < k < |batches|
  {
    hide SyncFault, LastAnswer, GrantedPrefix;
  }

  lemma ConnectsAnyCut(
      suite: Crypto.Suite, bootstrap: bytes, batches: seq<seq<Packet>>, prefix: bytes, i: nat, j: nat, k: nat,
      cut: Option<nat>)
    requires Connects(suite, bootstrap, batches, prefix, i, j, k, None)
    requires forall h | j < h < k :: !Replies(batches[h], 3, VIDEO_START_COMMAND)
    ensures Connects(suite, bootstrap, batches, prefix, i, j, k, cut)
  {
    hide SyncFault, LastAnswer, GrantedPrefix, SyncCount;
  }

  /** When the video start is answered in no earlier batch after the synchronisation, the two-second deadline makes no
      difference: wherever it cuts the wait for time syncs, the connection starts with the same prefix. */
  lemma CutMakesNoDifference(
      suite: Crypto.Suite, bootstrap: bytes, batches: seq<seq<Packet>>, ending: Ending, startAudio: bool,
      prefix: bytes, i: nat, j: nat, k: nat, l: nat, cut: Option<nat>)
    requires Connects(suite, bootstrap, batches, prefix, i, j, k, None)
    requires HearsAudio(suite, bootstrap, batches, startAudio, k, l)
    requires forall h | j < h < k :: !Replies(batches[h], 3, VIDEO_START_COMMAND)
    ensures var start := StartOutcome(suite, bootstrap, Arrivals(batches, ending), startAudio, cut);
            start.Success? && start.value.0 == prefix
  {
    hide SyncFault, LastAnswer, GrantedPrefix, StartOutcome, HearsAudio;
    ConnectsAnyCut(suite, bootstrap, batches, prefix, i, j, k, cut);
    StartsIff(suite, bootstrap, batches, ending, startAudio, prefix, cut);
  }

  /** The batch that answers request `n` of a start. */
  function AnswerBatch(i: nat, j: nat, k: nat, l: nat, n: nat): nat {
    if n == 0 then i else if n == 1 then j else if n == 2 then k else l
  }

  /** What lies ahead at each request of a start. */
  lemma AheadPlaces(
      suite: Crypto.Suite, bootstrap: bytes, batches: seq<seq<Packet>>, ending: Ending, prefix: bytes,
      i: nat, j: nat, k: nat, cut: Option<nat>) returns (m: nat)
    requires Connects(suite, bootstrap, batches, prefix, i, j, k, cut)
    ensures i < j < m <= k < |batches|
    ensures var all := Arrivals(batches, ending);
            && AheadAt(suite, bootstrap, all, cut, 0) == Some(From(batches, ending, 0))
            && AheadAt(suite, bootstrap, all, cut, 1) == Some(From(batches, ending, i + 1))
            && AheadAt(suite, bootstrap, all, cut, 2) == Some(From(batches, ending, m))
            && AheadAt(suite, bootstrap, all, cut, 3) == Some(From(batches, ending, k + 1))
  {
    hide SyncFault, AwaitSyncs, AwaitAnswer, LastAnswer, GrantedPrefix, SyncsOver;
    assert Arrivals(batches, ending) == From(batches, ending, 0);
    ConnectBounds(suite, bootstrap, batches, prefix, i, j, k, cut);
    AwaitAt(suite, bootstrap, batches, ending, 0, i, 1, LAN_AUTH_COMMAND);
    AwaitAt(suite, bootstrap, batches, ending, i + 1, j, 2, SYNC_COMMAND);
    VideoAt(suite, bootstrap, batches, ending, j + 1, k, cut);
    m := FirstSynced(suite, bootstrap, batches, j + 1, k, cut);
    SyncsAt(suite, bootstrap, batches, ending, j + 1, m, 0, cut);
  }

  /** Every request of a start is sent before its answer is read. */
  lemma AskedBeforeAnswer(
      suite: Crypto.Suite, bootstrap: bytes, batches: seq<seq<Packet>>, ending: Ending, startAudio: bool,
      prefix: bytes, i: nat, j: nat, k: nat, l: nat, cut: Option<nat>, n: nat, after: nat)
    requires Connects(suite, bootstrap, batches, prefix, i, j, k, None)
    requires HearsAudio(suite, bootstrap, batches, startAudio, k, l)
    requires forall h | j < h < k :: !Replies(batches[h], 3, VIDEO_START_COMMAND)
    requires n < 3 || (n == 3 && startAudio)
    requires after <= |batches|
    requires AheadAt(suite, bootstrap, Arrivals(batches, ending), cut, n) == Some(From(batches, ending, after))
    ensures after <= AnswerBatch(i, j, k, l, n) < |batches|
    ensures LastAnswer(batches[AnswerBatch(i, j, k, l, n)], n + 1, CommandAt(n)).Some?
  {
    hide SyncFault, LastAnswer, GrantedPrefix, AudioOffer, AheadAt, SyncsOver;
    ConnectsAnyCut(suite, bootstrap, batches, prefix, i, j, k, cut);
    var m := AheadPlaces(suite, bootstrap, batches, ending, prefix, i, j, k, cut);
    var place := if n == 0 then 0 else if n == 1 then i + 1 else if n == 2 then m else k + 1;
    SamePlace(batches, ending, after, place);
  }

  lemma SamePlace(batches: seq<seq<Packet>>, ending: Ending, one: nat, other: nat)
    requires one <= |batches| && other <= |batches|
    ensures From(batches, ending, one) == From(batches, ending, other) ==> one == other
  {
    assert |From(batches, ending, one).batches| == |batches| - one;
    assert |From(batches, ending, other).batches| == |batches| - other;
  }

  /** The only batch with an answer to the request, and the answer accepts it. */
  predicate OnlyAnswer(batches: seq<seq<Packet>>, i: nat, sequence: nat, commandId: nat) {
    && i < |batches| && (forall h | 0 <= h < |batches| && h != i :: !Replies(batches[h], sequence, commandId))
    && LastAnswer(batches[i], sequence, commandId).Some?
    && LastAnswer(batches[i], sequence, commandId).value.responseCode == Some(0)
  }

  /** For a camera that answers every request in one batch each, and whose time syncs can be read, the connection
      starts exactly when those batches come in the order of the requests, with two time syncs in the batches strictly
      between the second answer and the third: no awaited answer shares a batch with, or precedes, the end of an earlier
      wait. */
  lemma StartsIffInOrder(
      suite: Crypto.Suite, bootstrap: bytes, batches: seq<seq<Packet>>, startAudio: bool, prefix: bytes,
      a: nat, b: nat, c: nat, d: nat)
    requires Clean(suite, bootstrap, batches, 0, |batches|)
    requires OnlyAnswer(batches, a, 1, LAN_AUTH_COMMAND) && OnlyAnswer(batches, b, 2, SYNC_COMMAND)
    requires OnlyAnswer(batches, c, 3, VIDEO_START_COMMAND)
    requires startAudio ==> OnlyAnswer(batches, d, 4, AUDIO_START_COMMAND)
    requires GrantedPrefix(suite, bootstrap, LastAnswer(batches[a], 1, LAN_AUTH_COMMAND).value) == Success(prefix)
    requires startAudio ==>
               AudioOffer(suite, bootstrap, LastAnswer(batches[d], 4, AUDIO_START_COMMAND).value).Success?
    ensures Starts(suite, bootstrap, batches, startAudio, prefix, None) <==>
            a < b < c && SyncCount(batches, b + 1, c) >= 2 && (startAudio ==> c < d)
  {
    hide SyncFault, LastAnswer, GrantedPrefix, AudioOffer, SyncCount;
    if i: nat, j: nat, k: nat, l: nat :| Connects(suite, bootstrap, batches, prefix, i, j, k, None)
                                         && HearsAudio(suite, bootstrap, batches, startAudio, k, l) {
      assert i == a && j == b && k == c;
      assert startAudio ==> l == d;
    }
    if a < b < c && SyncCount(batches, b + 1, c) >= 2 && (startAudio ==> c < d) {
      assert Connects(suite, bootstrap, batches, prefix, a, b, c, None);
      assert HearsAudio(suite, bootstrap, batches, startAudio, c, if startAudio then d else c);
    }
  }
}
