/** The preview limiter: which of the frames a viewer polls are sent on. */
module Sampling {
  import opened Basics
  import opened Timing

  /** A frame obtained by a poll: at which reading of the clock, what it showed, the frame's id, and the image. */
  datatype Poll = Poll(tick: nat, at: int, id: nat, frame: bytes)

  function TimesOf(polls: seq<Poll>): (times: seq<int>)
    ensures |times| == |polls|
    ensures forall i | 0 <= i < |polls| :: times[i] == polls[i].at
  {
    seq(|polls|, i requires 0 <= i < |polls| => polls[i].at)
  }

  /** The limiter's threshold after the frames sent so far. */
  function NextFrameAt(sent: seq<Poll>, interval: int): int {
    if sent == [] then 0 else sent[|sent| - 1].at + interval
  }

  /** The polls that are sent: all of them without an interval, otherwise each that is not too early. */
  function Sampled(polls: seq<Poll>, interval: int): seq<Poll> {
    if polls == [] then []
    else
      var before, last := Sampled(polls[..|polls| - 1], interval), polls[|polls| - 1];
      if interval != 0 && last.at < NextFrameAt(before, interval) then before else before + [last]
  }

  /** Times that are readings of a clock, one after the other, from reading `lo` on and before reading `hi`; a viewer
      without an interval takes none and has 0 instead. */
  ghost predicate ReadFrom(clock: nat -> int, polls: seq<Poll>, interval: int, lo: nat, hi: nat) {
    && (forall i | 0 <= i < |polls| ::
          if interval == 0 then polls[i].at == 0
          else lo <= polls[i].tick < hi && polls[i].at == clock(polls[i].tick))
    && (interval != 0 ==> forall i, j | 0 <= i < j < |polls| :: polls[i].tick < polls[j].tick)
  }

  ghost predicate Nondecreasing(clock: nat -> int) {
    forall i: nat, j: nat | i <= j :: clock(i) <= clock(j)
  }

  /** Readings of a nondecreasing clock that shows no negative time are nondecreasing and not negative. */
  lemma ReadIsClocked(clock: nat -> int, polls: seq<Poll>, interval: int, lo: nat, hi: nat)
    requires ReadFrom(clock, polls, interval, lo, hi)
    requires Nondecreasing(clock) && clock(lo) >= 0
    ensures Clocked(polls)
  {
    forall i, j | 0 <= i <= j < |polls|
      ensures 0 <= polls[i].at <= polls[j].at
    {
      if interval != 0 {
        assert clock(lo) <= clock(polls[i].tick) <= clock(polls[j].tick);
      }
    }
  }

  lemma {:induction false} ReadSelection(
      clock: nat -> int, chosen: seq<Poll>, polls: seq<Poll>, interval: int, lo: nat, hi: nat)
    requires ReadFrom(clock, polls, interval, lo, hi) && IsSelection(chosen, polls)
    ensures ReadFrom(clock, chosen, interval, lo, hi)
    decreases |polls|
  {
    if polls != [] {
      var front, last := polls[..|polls| - 1], polls[|polls| - 1];
      assert ReadFrom(clock, front, interval, lo, hi);
      if IsSelection(chosen, front) {
        ReadSelection(clock, chosen, front, interval, lo, hi);
      } else {
        var shorter := chosen[..|chosen| - 1];
        ReadSelection(clock, shorter, front, interval, lo, hi);
        SelectionWithin(shorter, front);
        assert chosen == shorter + [last];
        forall i | 0 <= i < |shorter| && interval != 0
          ensures shorter[i].tick < last.tick
        {
          assert shorter[i] in front;
          var k :| 0 <= k < |front| && front[k] == shorter[i];
          assert polls[k] == front[k];
        }
      }
    }
  }

  /** Polls of a nondecreasing clock that never shows a negative time. */
  predicate Clocked(polls: seq<Poll>) {
    && (forall i | 0 <= i < |polls| :: 0 <= polls[i].at)
    && forall i, j | 0 <= i <= j < |polls| :: polls[i].at <= polls[j].at
  }

  predicate IncreasingIds(polls: seq<Poll>) {
    forall i, j | 0 <= i < j < |polls| :: polls[i].id < polls[j].id
  }

  /** `chosen` picks some of the polls, in order. */
  predicate IsSelection(chosen: seq<Poll>, polls: seq<Poll>) {
    if polls == [] then chosen == []
    else
      var front := polls[..|polls| - 1];
      || IsSelection(chosen, front)
      || (chosen != [] && chosen[|chosen| - 1] == polls[|polls| - 1]
          && IsSelection(chosen[..|chosen| - 1], front))
  }

  lemma {:induction false} SelectionWithin(chosen: seq<Poll>, polls: seq<Poll>)
    requires IsSelection(chosen, polls)
    ensures |chosen| <= |polls|
    ensures forall c | c in chosen :: c in polls
    decreases |polls|
  {
    if polls != [] {
      var front := polls[..|polls| - 1];
      if IsSelection(chosen, front) {
        SelectionWithin(chosen, front);
      } else {
        SelectionWithin(chosen[..|chosen| - 1], front);
        assert forall c | c in chosen :: c in chosen[..|chosen| - 1] || c == polls[|polls| - 1];
      }
    }
  }

  /** Frames picked from polls with increasing ids keep increasing ids. */
  lemma {:induction false} SelectionKeepsOrder(chosen: seq<Poll>, polls: seq<Poll>)
    requires IsSelection(chosen, polls) && IncreasingIds(polls)
    ensures IncreasingIds(chosen)
    decreases |polls|
  {
    if polls != [] {
      var front, last := polls[..|polls| - 1], polls[|polls| - 1];
      if IsSelection(chosen, front) {
        SelectionKeepsOrder(chosen, front);
      } else {
        var shorter := chosen[..|chosen| - 1];
        SelectionKeepsOrder(shorter, front);
        SelectionWithin(shorter, front);
        assert polls == front + [last];
        OrderSnoc(shorter, front, last);
        assert chosen == shorter + [last];
      }
    }
  }

  lemma OrderSnoc(shorter: seq<Poll>, front: seq<Poll>, last: Poll)
    requires IncreasingIds(shorter) && IncreasingIds(front + [last])
    requires forall c | c in shorter :: c in front
    ensures IncreasingIds(shorter + [last])
  {
    forall i | 0 <= i < |shorter|
      ensures shorter[i].id < last.id
    {
      assert shorter[i] in front;
      var k :| 0 <= k < |front| && front[k] == shorter[i];
      assert (front + [last])[k].id < (front + [last])[|front|].id;
    }
  }

  /** What is sent is a selection of the polls. */
  lemma {:induction false} SampledIsSelection(polls: seq<Poll>, interval: int)
    ensures IsSelection(Sampled(polls, interval), polls)
    ensures interval == 0 ==> Sampled(polls, interval) == polls
    decreases |polls|
  {
    if polls != [] {
      var front, last := polls[..|polls| - 1], polls[|polls| - 1];
      SampledIsSelection(front, interval);
      var before := Sampled(front, interval);
      assert (before + [last])[..|before|] == before;
      assert polls == front + [last];
    }
  }

  /** Frames sent under an interval are at least one interval apart. */
  lemma {:induction false} SampledIsSpaced(polls: seq<Poll>, interval: int)
    requires interval != 0
    ensures Spaced(TimesOf(Sampled(polls, interval)), interval)
    decreases |polls|
  {
    if polls != [] {
      SampledIsSpaced(polls[..|polls| - 1], interval);
    }
  }

  /** Nothing is held back for long: every polled frame is sent, or a frame was sent less than an interval before. */
  lemma {:induction false} SampledIsFresh(polls: seq<Poll>, interval: int, k: nat)
    requires interval > 0 && Clocked(polls) && k < |polls|
    ensures exists j | 0 <= j < |Sampled(polls, interval)| ::
              var sent := Sampled(polls, interval)[j]; sent.at <= polls[k].at < sent.at + interval
    decreases |polls|
  {
    var front, last := polls[..|polls| - 1], polls[|polls| - 1];
    var before, all := Sampled(front, interval), Sampled(polls, interval);
    SampledIsSelection(front, interval);
    SelectionWithin(before, front);
    if k < |front| {
      SampledIsFresh(front, interval, k);
      var j :| 0 <= j < |before| && before[j].at <= polls[k].at < before[j].at + interval;
      assert all[j] == before[j];
    } else if last.at < NextFrameAt(before, interval) {
      assert before[|before| - 1] in front;
      assert all[|before| - 1] == before[|before| - 1];
    } else {
      assert all[|before|] == last;
    }
  }

  /** The limiter is optimal: no other choice of polled frames at least one interval apart sends more of them. */
  lemma {:induction false} SampledIsLargest(polls: seq<Poll>, interval: int, chosen: seq<Poll>)
    requires interval > 0 && Clocked(polls)
    requires IsSelection(chosen, polls) && Spaced(TimesOf(chosen), interval)
    ensures |chosen| <= |Sampled(polls, interval)|
    ensures chosen != [] && |chosen| == |Sampled(polls, interval)| ==>
              Sampled(polls, interval)[|chosen| - 1].at <= chosen[|chosen| - 1].at
    decreases |polls|
  {
    if polls != [] {
      var front, last := polls[..|polls| - 1], polls[|polls| - 1];
      var before := Sampled(front, interval);
      if IsSelection(chosen, front) {
        SampledIsLargest(front, interval, chosen);
      } else {
        var shorter := chosen[..|chosen| - 1];
        assert forall i | 0 <= i < |shorter| :: TimesOf(shorter)[i] == TimesOf(chosen)[i];
        SampledIsLargest(front, interval, shorter);
        SampledIsSelection(front, interval);
        SelectionWithin(before, front);
        if shorter != [] && |shorter| == |before| {
          assert TimesOf(chosen)[|shorter| - 1] + interval <= TimesOf(chosen)[|shorter|];
        } else if before != [] {
          assert before[|before| - 1] in front;
        }
      }
    }
  }

  function ReadingsOf(clock: nat -> int, polls: seq<Poll>): (times: seq<int>)
    ensures |times| == |polls|
    ensures forall i | 0 <= i < |polls| :: times[i] == clock(polls[i].tick)
  {
    seq(|polls|, i requires 0 <= i < |polls| => clock(polls[i].tick))
  }

  /** By the readings of the clock at which they were sent, a window of length `width` sees at most
      width / interval + 1 preview frames, and consecutive ones are an interval apart. */
  lemma PreviewRate(
      clock: nat -> int, polls: seq<Poll>, interval: int, lo: nat, hi: nat, from: int, width: nat)
    requires interval > 0 && ReadFrom(clock, polls, interval, lo, hi)
    ensures Spaced(ReadingsOf(clock, Sampled(polls, interval)), interval)
    ensures CountWithin(ReadingsOf(clock, Sampled(polls, interval)), from, from + width) <= width / interval + 1
  {
    SampledIsSelection(polls, interval);
    ReadSelection(clock, Sampled(polls, interval), polls, interval, lo, hi);
    SampledIsSpaced(polls, interval);
    assert ReadingsOf(clock, Sampled(polls, interval)) == TimesOf(Sampled(polls, interval));
    WindowBound(ReadingsOf(clock, Sampled(polls, interval)), interval, from, width);
  }
}
