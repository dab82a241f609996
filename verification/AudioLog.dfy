/** The unbounded log behind the bounded audio ring, and what a listener that polls the ring gets of it. */
module AudioLog {
  import opened Basics

  const RING_SIZE := 128

  /** A published audio chunk and its id; ids count from 1. */
  type Chunk = (nat, bytes)

  /** The chunks with ids lo + 1, ..., hi. */
  function Entries(log: seq<bytes>, lo: nat, hi: nat): (chunks: seq<Chunk>)
    requires lo <= hi <= |log|
    ensures |chunks| == hi - lo
    ensures forall i | 0 <= i < |chunks| :: chunks[i] == (lo + i + 1, log[lo + i])
  {
    seq(hi - lo, i requires 0 <= i < hi - lo => (lo + i + 1, log[lo + i]))
  }

  /** The first id still held when `head` chunks were published is one more than this. */
  function Oldest(head: nat): nat {
    if head > RING_SIZE then head - RING_SIZE else 0
  }

  /** What the ring holds: the last chunks of the log, at most 128. */
  function Ring(log: seq<bytes>): seq<Chunk> {
    Entries(log, Oldest(|log|), |log|)
  }

  function Max(a: nat, b: nat): nat {
    if a > b then a else b
  }

  /** One poll by a listener that has everything up to `cursor`, when `head` chunks were published. */
  function Poll(log: seq<bytes>, cursor: nat, head: nat): seq<Chunk>
    requires cursor <= head <= |log|
  {
    Entries(log, Max(cursor, Oldest(head)), head)
  }

  /** How far a listener had fallen behind, and how much of that the ring had dropped. */
  function Skipped(cursor: nat, head: nat): nat {
    if head > cursor + RING_SIZE then head - cursor - RING_SIZE else 0
  }

  // ----- a whole run of polls -----

  // A run is given by its marks: the starting cursor, then the number of published chunks at each poll.

  /** Each poll of a run found something new. */
  predicate Advancing(marks: seq<nat>, published: nat) {
    && marks != [] && Last(marks) <= published
    && forall i | 0 < i < |marks| :: marks[i - 1] < marks[i]
  }

  function Last<T>(s: seq<T>): T
    requires s != []
  {
    s[|s| - 1]
  }

  function Front<T>(s: seq<T>): seq<T>
    requires s != []
  {
    s[..|s| - 1]
  }

  /** All that the polls of a run return, one after the other. */
  function Delivered(log: seq<bytes>, marks: seq<nat>): seq<Chunk>
    requires Advancing(marks, |log|)
  {
    if |marks| == 1 then [] else Delivered(log, Front(marks)) + Poll(log, Last(Front(marks)), Last(marks))
  }

  /** The number of chunks a run loses: the lag beyond 128 at each poll. */
  function TotalSkipped(marks: seq<nat>): nat {
    if |marks| <= 1 then 0 else TotalSkipped(Front(marks)) + Skipped(Last(Front(marks)), Last(marks))
  }

  /** No poll of a run lagged more than 128 chunks. */
  predicate KeepsUp(marks: seq<nat>) {
    forall i | 0 < i < |marks| :: marks[i] <= marks[i - 1] + 128
  }

  /** Chunks of the log in strictly increasing id order, after `start` and up to `end`. */
  predicate InOrder(log: seq<bytes>, start: nat, end: nat, chunks: seq<Chunk>) {
    && (forall i | 0 <= i < |chunks| ::
          start < chunks[i].0 <= end <= |log| && chunks[i].1 == log[chunks[i].0 - 1])
    && (forall i, j | 0 <= i < j < |chunks| :: chunks[i].0 < chunks[j].0)
  }

  predicate Has(chunks: seq<Chunk>, id: nat) {
    exists k | 0 <= k < |chunks| :: chunks[k].0 == id
  }

  /** Some poll found the chunk after the cursor but no longer among the last 128. */
  predicate Outrun(marks: seq<nat>, id: nat) {
    exists i | 0 < i < |marks| :: marks[i - 1] < id && id + 128 <= marks[i]
  }

  lemma EntriesSplit(log: seq<bytes>, lo: nat, mid: nat, hi: nat)
    requires lo <= mid <= hi <= |log|
    ensures Entries(log, lo, hi) == Entries(log, lo, mid) + Entries(log, mid, hi)
  {
  }

  /** Publishing one more chunk appends to the ring and, when it was full, drops its oldest chunk. */
  lemma RingSnoc(log: seq<bytes>, chunk: bytes)
    ensures var longer := Ring(log) + [(|log| + 1, chunk)];
            Ring(log + [chunk]) == if |longer| > 128 then longer[1..] else longer
  {
  }

  /** The log only grows, and what was delivered from it stays the same. */
  lemma {:induction false} DeliveredGrows(log: seq<bytes>, more: seq<bytes>, marks: seq<nat>)
    requires log <= more && Advancing(marks, |log|)
    ensures Advancing(marks, |more|) && Delivered(more, marks) == Delivered(log, marks)
    decreases |marks|
  {
    if |marks| > 1 {
      DeliveredGrows(log, more, Front(marks));
      assert Poll(more, Last(Front(marks)), Last(marks)) == Poll(log, Last(Front(marks)), Last(marks));
    }
  }

  lemma {:induction false} FirstIsLeast(marks: seq<nat>, published: nat)
    requires Advancing(marks, published)
    ensures forall i | 0 <= i < |marks| :: marks[0] <= marks[i] <= Last(marks)
    decreases |marks|
  {
    if |marks| > 1 {
      FirstIsLeast(Front(marks), published);
    }
  }

  /** A run delivers chunks of the log in strictly increasing id order, each at most once, after the starting cursor. */
  lemma {:induction false} DeliveredInOrder(log: seq<bytes>, marks: seq<nat>)
    requires Advancing(marks, |log|)
    ensures InOrder(log, marks[0], Last(marks), Delivered(log, marks))
    decreases |marks|
  {
    FirstIsLeast(marks, |log|);
    if |marks| > 1 {
      DeliveredInOrder(log, Front(marks));
    }
  }

  /** A run loses exactly the lag beyond 128 at each of its polls, and nothing else. */
  lemma {:induction false} DeliveredCount(log: seq<bytes>, marks: seq<nat>)
    requires Advancing(marks, |log|)
    ensures |Delivered(log, marks)| + TotalSkipped(marks) + marks[0] == Last(marks)
    decreases |marks|
  {
    if |marks| > 1 {
      DeliveredCount(log, Front(marks));
    }
  }

  /** Which chunks are lost: an id that was published during the run is missing exactly when some poll found it after
      the cursor but no longer among the last 128. */
  lemma {:induction false} MissingIff(log: seq<bytes>, marks: seq<nat>, id: nat)
    requires Advancing(marks, |log|)
    requires marks[0] < id <= Last(marks)
    ensures Has(Delivered(log, marks), id) <==> !Outrun(marks, id)
    decreases |marks|
  {
    var before, cursor, head := Front(marks), Last(Front(marks)), Last(marks);
    var early, poll := Delivered(log, before), Poll(log, cursor, head);
    assert Delivered(log, marks) == early + poll;
    DeliveredInOrder(log, before);
    FirstIsLeast(before, |log|);
    HasAppend(early, poll, id);
    assert Has(poll, id) <==> id > Max(cursor, Oldest(head)) by {
      var lo := Max(cursor, Oldest(head));
      if id > lo {
        assert poll[id - lo - 1].0 == id;
      }
    }
    assert Outrun(marks, id) <==> Outrun(before, id) || (cursor < id && id + RING_SIZE <= head) by {
      assert forall i | 0 <= i < |before| :: before[i] == marks[i];
      if cursor < id && id + RING_SIZE <= head {
        assert marks[|marks| - 2] == cursor && marks[|marks| - 1] == head;
      }
    }
    if id <= cursor {
      MissingIff(log, before, id);
    }
  }

  lemma HasAppend(one: seq<Chunk>, other: seq<Chunk>, id: nat)
    ensures Has(one + other, id) <==> Has(one, id) || Has(other, id)
  {
    var both := one + other;
    assert forall k | 0 <= k < |one| :: both[k] == one[k];
    assert forall k | 0 <= k < |other| :: both[|one| + k] == other[k];
  }

  lemma {:induction false} KeepsUpIff(marks: seq<nat>)
    ensures KeepsUp(marks) <==> TotalSkipped(marks) == 0
  {
    if |marks| > 1 {
      KeepsUpIff(Front(marks));
      assert forall i | 0 <= i < |marks| - 1 :: Front(marks)[i] == marks[i];
      assert KeepsUp(marks) <==> KeepsUp(Front(marks)) && Last(marks) <= Last(Front(marks)) + RING_SIZE;
    }
  }

  /** A run is the contiguous slice of the log from its starting cursor exactly when it never lags more than 128. */
  lemma {:induction false} ContiguousIff(log: seq<bytes>, marks: seq<nat>)
    requires Advancing(marks, |log|)
    ensures marks[0] <= Last(marks)
    ensures KeepsUp(marks) <==> Delivered(log, marks) == Entries(log, marks[0], Last(marks))
    decreases |marks|
  {
    hide KeepsUp;
    FirstIsLeast(marks, |log|);
    DeliveredCount(log, marks);
    KeepsUpIff(marks);
    if |marks| > 1 && KeepsUp(marks) {
      FirstIsLeast(Front(marks), |log|);
      KeepsUpIff(Front(marks));
      ContiguousIff(log, Front(marks));
      EntriesSplit(log, marks[0], Last(Front(marks)), Last(marks));
    }
  }
}
