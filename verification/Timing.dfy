/** Events that keep a minimum interval: how many fit into a window, and the greedy way to choose them. */
module Timing {

  /** Consecutive times are at least one interval apart. */
  predicate Spaced(times: seq<int>, interval: int) {
    forall i | 0 < i < |times| :: times[i - 1] + interval <= times[i]
  }

  /** How many of the times lie between `from` and `to`, both included. */
  function CountWithin(times: seq<int>, from: int, to: int): nat {
    if times == [] then 0
    else
      var last := times[|times| - 1];
      CountWithin(times[..|times| - 1], from, to) + if from <= last <= to then 1 else 0
  }

  lemma {:induction false} SpacedIsBelowLast(times: seq<int>, interval: int, i: nat)
    requires Spaced(times, interval) && interval >= 0
    requires i < |times| - 1
    ensures times[i] + interval <= times[|times| - 1]
    decreases |times| - i
  {
    assert times[i] + interval <= times[i + 1];
    if i + 1 < |times| - 1 {
      SpacedIsBelowLast(times, interval, i + 1);
    }
  }

  /** Moving the upper end of a window does not change its count while no time lies between. */
  lemma {:induction false} CountWithinShrinks(times: seq<int>, from: int, to: int, bound: int)
    requires bound <= to
    requires forall i | 0 <= i < |times| :: times[i] <= bound
    ensures CountWithin(times, from, to) == CountWithin(times, from, bound)
    ensures bound < from ==> CountWithin(times, from, to) == 0
  {
    if times != [] {
      CountWithinShrinks(times[..|times| - 1], from, to, bound);
    }
  }

  lemma MulMonotone(a: int, b: int, d: nat)
    requires a <= b
    ensures a * d <= b * d
  {
  }

  lemma OneMore(n: int, d: int, w: int)
    requires (n - 1) * d <= w - d
    ensures n * d <= w
  {
    assert (n - 1) * d == n * d - d;
  }

  /** More than w / d intervals of length d exceed w. */
  lemma Exceeds(m: int, w: nat, d: int)
    requires d > 0 && m > w / d
    ensures m * d > w
  {
    MulMonotone(w / d + 1, m, d);
  }

  /** The events in a window span one interval less than their number. */
  lemma {:induction false} WindowSpan(times: seq<int>, interval: int, from: int, width: nat)
    requires interval > 0 && Spaced(times, interval)
    ensures var n := CountWithin(times, from, from + width); n == 0 || (n - 1) * interval <= width
    decreases |times|
  {
    if times != [] {
      var front, last := times[..|times| - 1], times[|times| - 1];
      if from <= last <= from + width {
        forall i | 0 <= i < |front|
          ensures front[i] <= last - interval
        {
          SpacedIsBelowLast(times, interval, i);
        }
        var n := CountWithin(front, from, from + width);
        CountWithinShrinks(front, from, from + width, last - interval);
        if n > 0 {
          WindowSpan(front, interval, from, last - interval - from);
          OneMore(n, interval, last - from);
        }
      } else {
        WindowSpan(front, interval, from, width);
      }
    }
  }

  /** A window of length `width` holds at most width / interval + 1 spaced events, wherever it starts. */
  lemma WindowBound(times: seq<int>, interval: int, from: int, width: nat)
    requires interval > 0 && Spaced(times, interval)
    ensures CountWithin(times, from, from + width) <= width / interval + 1
  {
    WindowSpan(times, interval, from, width);
    var n := CountWithin(times, from, from + width);
    if n - 1 > width / interval {
      Exceeds(n - 1, width, interval);
    }
  }
}
