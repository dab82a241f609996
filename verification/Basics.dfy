/** Bytes, failure-compatible results and the few sequence helpers every layer uses. */
module Basics {

  type byte = x: int | 0 <= x < 256

  type bytes = seq<byte>

  datatype Option<+T> = None | Some(value: T)

  datatype Result<+T, +E> = Success(value: T) | Failure(error: E) {

    predicate IsFailure() {
      Failure?
    }

    function PropagateFailure<U>(): Result<U, E>
      requires Failure?
    {
      Failure(error)
    }

    function Extract(): T
      requires Success?
    {
      value
    }
  }

  /** Joins a list of chunks, as `b"".join(...)` does. */
  function Concat<T>(chunks: seq<seq<T>>): seq<T> {
    if chunks == [] then [] else chunks[0] + Concat(chunks[1..])
  }

  /** The sum of the chunk lengths. */
  function TotalLength<T>(chunks: seq<seq<T>>): (n: nat)
    ensures n == |Concat(chunks)|
  {
    if chunks == [] then 0 else |chunks[0]| + TotalLength(chunks[1..])
  }

  lemma ConcatCons<T>(first: seq<T>, rest: seq<seq<T>>)
    ensures Concat([first] + rest) == first + Concat(rest)
  {
    assert ([first] + rest)[1..] == rest;
  }

  lemma {:induction false} ConcatSnoc<T>(chunks: seq<seq<T>>, last: seq<T>)
    ensures Concat(chunks + [last]) == Concat(chunks) + last
  {
    if chunks == [] {
      assert chunks + [last] == [last];
      assert Concat([last]) == last + Concat([]);
    } else {
      ConcatSnoc(chunks[1..], last);
      assert (chunks + [last])[1..] == chunks[1..] + [last];
    }
  }

  lemma {:induction false} ConcatAppend<T>(left: seq<seq<T>>, right: seq<seq<T>>)
    ensures Concat(left + right) == Concat(left) + Concat(right)
  {
    if left == [] {
      assert left + right == right;
    } else {
      var both := left + right;
      assert both[0] == left[0] && both[1..] == left[1..] + right;
      ConcatAppend(left[1..], right);
      assert left[0] + (Concat(left[1..]) + Concat(right)) == left[0] + Concat(left[1..]) + Concat(right);
    }
  }

  lemma TotalLengthSnoc<T>(chunks: seq<seq<T>>, last: seq<T>)
    ensures TotalLength(chunks + [last]) == TotalLength(chunks) + |last|
  {
    ConcatSnoc(chunks, last);
  }

  // ----- lists picked from lists -----

  function Somes<T>(marks: seq<Option<T>>): nat {
    if marks == [] then 0 else Somes(marks[..|marks| - 1]) + if marks[|marks| - 1].Some? then 1 else 0
  }

  /** `picked` holds the values of the marks that have one, each at its place among them, and nothing else. */
  ghost predicate Picks<T>(marks: seq<Option<T>>, picked: seq<T>) {
    && |picked| == Somes(marks)
    && forall i | 0 <= i < |marks| && marks[i].Some? ::
         Somes(marks[..i]) < |picked| && picked[Somes(marks[..i])] == marks[i].value
  }

  lemma NothingPicked<T>()
    ensures Picks<T>([], [])
  {
  }

  lemma PicksSnoc<T>(marks: seq<Option<T>>, last: Option<T>, picked: seq<T>)
    requires Picks(marks, picked)
    ensures Picks(marks + [last], picked + if last.Some? then [last.value] else [])
  {
    var all := marks + [last];
    assert all[..|marks|] == marks;
    forall i | 0 <= i < |all|
      ensures all[..i] == marks[..i]
    {
    }
  }

  lemma {:induction false} SomesCons<T>(first: Option<T>, marks: seq<Option<T>>)
    ensures Somes([first] + marks) == (if first.Some? then 1 else 0) + Somes(marks)
    decreases |marks|
  {
    var all := [first] + marks;
    if marks == [] {
      assert all == [first] && all[..0] == [];
    } else {
      SomesCons(first, marks[..|marks| - 1]);
      assert all[..|all| - 1] == [first] + marks[..|marks| - 1];
    }
  }

  lemma PicksCons<T>(first: Option<T>, marks: seq<Option<T>>, picked: seq<T>)
    requires Picks(marks, picked)
    ensures Picks([first] + marks, (if first.Some? then [first.value] else []) + picked)
  {
    var all := [first] + marks;
    SomesCons(first, marks);
    forall i | 0 < i < |all|
      ensures Somes(all[..i]) == (if first.Some? then 1 else 0) + Somes(marks[..i - 1])
      ensures all[i] == marks[i - 1]
    {
      assert all[..i] == [first] + marks[..i - 1];
      SomesCons(first, marks[..i - 1]);
    }
    assert all[..0] == [];
  }

  lemma {:induction false} NonePicked<T>(marks: seq<Option<T>>)
    requires forall i | 0 <= i < |marks| :: marks[i].None?
    ensures Picks(marks, [])
    decreases |marks|
  {
    if marks != [] {
      NonePicked(marks[..|marks| - 1]);
    }
  }

  /** Picking leaves no choice: the marks decide the list. */
  lemma {:induction false} PicksOnly<T>(marks: seq<Option<T>>, one: seq<T>, other: seq<T>)
    requires Picks(marks, one) && Picks(marks, other)
    ensures one == other
    decreases |marks|
  {
    if marks != [] {
      var front, last := marks[..|marks| - 1], marks[|marks| - 1];
      assert forall i | 0 <= i < |front| :: front[..i] == marks[..i];
      assert marks[..|front|] == front;
      SomesBelow(front);
      if last.Some? {
        var a, b := one[..|one| - 1], other[..|other| - 1];
        PicksOnly(front, a, b);
        assert one == a + [last.value] && other == b + [last.value];
      } else {
        PicksOnly(front, one, other);
      }
    }
  }

  lemma {:induction false} SomesBelow<T>(marks: seq<Option<T>>)
    ensures forall i | 0 <= i < |marks| && marks[i].Some? :: Somes(marks[..i]) < Somes(marks)
    decreases |marks|
  {
    if marks != [] {
      var front := marks[..|marks| - 1];
      SomesBelow(front);
      assert forall i | 0 <= i < |front| :: front[..i] == marks[..i];
    }
  }
}
