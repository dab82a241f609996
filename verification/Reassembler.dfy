/** Reassembly of fragmented, head-encrypted MJPEG frames.

    `SlotStep` is the per-sequence automaton; `MJPEGReassembler` is the class with four dictionaries, proved
    to run one independent automaton per AV sequence. */
module Reassembler {
  import opened Basics
  import opened Pprpc
  import Crypto
  import Keys

  const MJPEG_FORMAT := 4
  const FINAL_INDEX := 0xFF
  const SOI: bytes := [0xFF, 0xD8]
  const EOI: bytes := [0xFF, 0xD9]

  /** What a reassembler is built with. */
  datatype Context = Context(suite: Crypto.Suite, sessionPrefix: bytes, maxFrameBytes: int)

  // ----- one complete frame -----

  predicate EoiAt(frame: bytes, i: nat) {
    i + 2 <= |frame| && frame[i] == EOI[0] && frame[i + 1] == EOI[1]
  }

  /** `frame.find(EOI, from)`: the first index at or after `from` where the marker stands. */
  function FindEoi(frame: bytes, from: nat): (r: Option<nat>)
    ensures r.Some? ==> from <= r.value && EoiAt(frame, r.value)
    ensures r.Some? ==> forall i | from <= i < r.value :: !EoiAt(frame, i)
    ensures r.None? ==> forall i | from <= i :: !EoiAt(frame, i)
    decreases |frame| - from
  {
    if from + 2 > |frame| then None
    else if EoiAt(frame, from) then Some(from)
    else FindEoi(frame, from + 1)
  }

  /** The plain text of an assembled frame: the encrypted head opened, the rest as it came. */
  function OpenHead(context: Context, metadata: AVPacket, assembled: bytes): (frame: bytes)
    requires metadata.encryptedLength <= |assembled| && metadata.encryptedLength % Crypto.BLOCK_SIZE == 0
    ensures |frame| == |assembled|
  {
    var n := metadata.encryptedLength;
    var key := Keys.DeriveAvKey(context.suite, context.sessionPrefix, metadata.sequence, metadata.timestamp,
                                metadata.channel);
    Crypto.DecryptUnpadded(context.suite, assembled[..n], key, key[16..]).value + assembled[n..]
  }

  /** Opens the head of an assembled frame and trims it after its end-of-image marker. */
  function FinishFrame(context: Context, metadata: AVPacket, assembled: bytes): Option<bytes> {
    var n := metadata.encryptedLength;
    if n == 0 || n > |assembled| || n % Crypto.BLOCK_SIZE != 0 then None
    else
      var frame := OpenHead(context, metadata, assembled);
      if !(SOI <= frame) then None
      else
        match FindEoi(frame, 2)
        case None => None
        case Some(eoi) => Some(frame[..eoi + 2])
  }

  // ----- the automaton of one sequence -----

  /** Whether `push` looks at the packet at all. */
  predicate Relevant(p: AVPacket) {
    p.mediaFormat == MJPEG_FORMAT && |p.payload| >= 3
  }

  predicate WellMarked(p: AVPacket) {
    Relevant(p) && p.payload[0] == 1 && p.payload[2] == 0
  }

  function FragmentIndex(p: AVPacket): byte
    requires Relevant(p)
  {
    p.payload[1]
  }

  function FragmentOf(p: AVPacket): bytes
    requires Relevant(p)
  {
    p.payload[3..]
  }

  datatype Slot =
    | Idle
    | Collecting(fragments: seq<bytes>, expected: nat, metadata: Option<AVPacket>)

  function SlotStep(context: Context, slot: Slot, p: AVPacket): (Slot, Option<bytes>)
    requires Relevant(p)
  {
    if !WellMarked(p) then (Idle, None)
    else
      var index := FragmentIndex(p);
      var start := if index == 1 then Collecting([], 1, None) else slot;
      if start.Idle? || (index != FINAL_INDEX && index != start.expected) then (Idle, None)
      else
        StoreStep(context, start, p)
  }

  /** Appends an accepted fragment, and closes the frame when it is the final one. */
  function StoreStep(context: Context, start: Slot, p: AVPacket): (Slot, Option<bytes>)
    requires Relevant(p) && start.Collecting?
  {
    var fragments := start.fragments + [FragmentOf(p)];
    var metadata := if start.metadata.None? && p.encryptedLength != 0 then Some(p) else start.metadata;
    if TotalLength(fragments) > context.maxFrameBytes then (Idle, None)
    else if FragmentIndex(p) != FINAL_INDEX then (Collecting(fragments, start.expected + 1, metadata), None)
    else (Idle, if metadata.None? then None else FinishFrame(context, metadata.value, Concat(fragments)))
  }

  predicate AllRelevant(packets: seq<AVPacket>) {
    forall i | 0 <= i < |packets| :: Relevant(packets[i])
  }

  /** The slot of a sequence after a history of its own relevant packets. */
  function SlotAfter(context: Context, history: seq<AVPacket>): Slot
    requires AllRelevant(history)
  {
    if history == [] then Idle
    else SlotStep(context, SlotAfter(context, history[..|history| - 1]), history[|history| - 1]).0
  }

  /** The relevant packets of one sequence, in order. */
  function OfSequence(history: seq<AVPacket>, sequence: nat): (own: seq<AVPacket>)
    ensures AllRelevant(own)
    ensures forall i | 0 <= i < |own| :: own[i].sequence == sequence
    ensures |own| <= |history|
  {
    if history == [] then []
    else
      var last := history[|history| - 1];
      var before := OfSequence(history[..|history| - 1], sequence);
      if Relevant(last) && last.sequence == sequence then before + [last] else before
  }

  /** What pushing `p` after `history` returns. */
  function OutputFor(context: Context, history: seq<AVPacket>, p: AVPacket): Option<bytes> {
    if !Relevant(p) then None
    else SlotStep(context, SlotAfter(context, OfSequence(history, p.sequence)), p).1
  }

  /** The frames a fresh reassembler returns over a list of packets, in order. */
  function FramesOf(context: Context, packets: seq<AVPacket>): seq<bytes> {
    if packets == [] then []
    else
      var before, last := packets[..|packets| - 1], packets[|packets| - 1];
      match OutputFor(context, before, last)
      case None => FramesOf(context, before)
      case Some(frame) => FramesOf(context, before) + [frame]
  }

  lemma EmptyTotal<T>(chunks: seq<seq<T>>)
    ensures chunks == [] ==> TotalLength(chunks) == 0
  {
  }

  // ----- the class -----

  /** One sequence's share of the four dictionaries. */
  datatype Entry = Entry(
    fragments: Option<seq<bytes>>,
    size: Option<nat>,
    metadata: Option<AVPacket>,
    expected: Option<nat>)
  {
    /** All of fragments, size and expected index or none; the size is the sum of the fragment lengths and
        within the cap, the expected index is in 2..255 and one more than the fragment count, and metadata
        belongs to a sequence that is being collected. */
    predicate Ok(sequence: nat, cap: int) {
      && (fragments.Some? <==> size.Some?) && (fragments.Some? <==> expected.Some?)
      && (metadata.Some? ==>
            fragments.Some? && metadata.value.sequence == sequence && metadata.value.encryptedLength > 0)
      && (fragments.Some? ==>
            && size.value == TotalLength(fragments.value) <= cap
            && 2 <= expected.value <= 255
            && |fragments.value| == expected.value - 1)
    }

    /** The slot these entries stand for. */
    function ToSlot(): Slot {
      if expected.None? then Idle
      else Collecting(if fragments.Some? then fragments.value else [], expected.value, metadata)
    }
  }

  const NOTHING := Entry(None, None, None, None)

  class MJPEGReassembler {
    const context: Context
    var fragments: map<nat, seq<bytes>>
    var sizes: map<nat, nat>
    var metadata: map<nat, AVPacket>
    var expectedIndex: map<nat, nat>
    ghost var history: seq<AVPacket>

    /** What the four dictionaries hold under one sequence. */
    ghost function EntryAt(s: nat): Entry
      reads `fragments, `sizes, `metadata, `expectedIndex
    {
      Entry(if s in fragments then Some(fragments[s]) else None,
            if s in sizes then Some(sizes[s]) else None,
            if s in metadata then Some(metadata[s]) else None,
            if s in expectedIndex then Some(expectedIndex[s]) else None)
    }

    /** The dictionaries agree with each other, key by key. */
    ghost predicate Consistent()
      reads `fragments, `sizes, `metadata, `expectedIndex
    {
      forall s: nat :: EntryAt(s).Ok(s, context.maxFrameBytes)
    }

    /** Consistency, and the state under each sequence is what its own packets alone produce. */
    ghost predicate Valid()
      reads this
    {
      && Consistent()
      && forall s: nat :: EntryAt(s).ToSlot() == SlotAfter(context, OfSequence(history, s))
    }

    constructor (context: Context)
      ensures Valid() && this.context == context && history == []
    {
      this.context := context;
      fragments, sizes, metadata, expectedIndex := map[], map[], map[], map[];
      history := [];
    }

    /** Forgets everything stored under a sequence. */
    method Drop(sequence: nat)
      modifies this`fragments, this`sizes, this`metadata, this`expectedIndex
      ensures EntryAt(sequence) == NOTHING
      ensures forall s: nat | s != sequence :: EntryAt(s) == old(EntryAt(s))
    {
      fragments := fragments - {sequence};
      sizes := sizes - {sequence};
      metadata := metadata - {sequence};
      expectedIndex := expectedIndex - {sequence};
    }

    /** The second half of `push`: the fragment has its turn and is stored. */
    method Store(packet: AVPacket) returns (frame: Option<bytes>)
      requires WellMarked(packet) && packet.sequence in expectedIndex
      requires FragmentIndex(packet) in {FINAL_INDEX, expectedIndex[packet.sequence]}
      requires if FragmentIndex(packet) == 1 then EntryAt(packet.sequence) == NOTHING.(expected := Some(1))
               else EntryAt(packet.sequence).Ok(packet.sequence, context.maxFrameBytes)
      modifies this`fragments, this`sizes, this`metadata, this`expectedIndex
      ensures EntryAt(packet.sequence).Ok(packet.sequence, context.maxFrameBytes)
      ensures (EntryAt(packet.sequence).ToSlot(), frame)
                == StoreStep(context, old(EntryAt(packet.sequence)).ToSlot(), packet)
      ensures FragmentIndex(packet) == FINAL_INDEX ==> EntryAt(packet.sequence) == NOTHING
      ensures forall s: nat | s != packet.sequence :: EntryAt(s) == old(EntryAt(s))
    {
      hide Concat, FinishFrame, TotalLength;
      var sequence, index, expected := packet.sequence, packet.payload[1], expectedIndex[packet.sequence];
      var fragment := packet.payload[3..];
      var before := if sequence in fragments then fragments[sequence] else [];
      var size := if sequence in sizes then sizes[sequence] else 0;
      assert TotalLength(before + [fragment]) == size + |fragment| by {
        TotalLengthSnoc(before, fragment);
        EmptyTotal(before);
      }
      fragments := fragments[sequence := before + [fragment]];
      sizes := sizes[sequence := size + |fragment|];
      if sizes[sequence] > context.maxFrameBytes {
        Drop(sequence);
        return None;
      }
      if packet.encryptedLength != 0 && sequence !in metadata {
        metadata := metadata[sequence := packet];
      }
      if index != FINAL_INDEX {
        expectedIndex := expectedIndex[sequence := expected + 1];
        return None;
      }
      var collected := fragments[sequence];
      var first := if sequence in metadata then Some(metadata[sequence]) else None;
      Drop(sequence);
      if first.None? {
        return None;
      }
      return FinishFrame(context, first.value, Concat(collected));
    }

    /** The four-dictionary update of one packet is one step of its sequence's automaton and leaves every
        other sequence alone. */
    method Advance(packet: AVPacket) returns (frame: Option<bytes>)
      requires EntryAt(packet.sequence).Ok(packet.sequence, context.maxFrameBytes)
      modifies this`fragments, this`sizes, this`metadata, this`expectedIndex
      ensures EntryAt(packet.sequence).Ok(packet.sequence, context.maxFrameBytes)
      ensures !Relevant(packet) ==> frame == None && EntryAt(packet.sequence) == old(EntryAt(packet.sequence))
      ensures Relevant(packet) ==>
                (EntryAt(packet.sequence).ToSlot(), frame)
                  == SlotStep(context, old(EntryAt(packet.sequence)).ToSlot(), packet)
      ensures WellMarked(packet) && FragmentIndex(packet) == FINAL_INDEX ==> EntryAt(packet.sequence) == NOTHING
      ensures forall s: nat | s != packet.sequence :: EntryAt(s) == old(EntryAt(s))
    {
      hide StoreStep, Concat, TotalLength;
      if packet.mediaFormat != MJPEG_FORMAT || |packet.payload| < 3 {
        return None;
      }
      var marker, index, reserved := packet.payload[0], packet.payload[1], packet.payload[2];
      var sequence := packet.sequence;
      if marker != 1 || reserved != 0 {
        Drop(sequence);
        return None;
      }
      if index == 1 {
        Drop(sequence);
        expectedIndex := expectedIndex[sequence := 1];
      }
      if sequence !in expectedIndex {
        return None;
      }
      if index != FINAL_INDEX && index != expectedIndex[sequence] {
        Drop(sequence);
        return None;
      }
      frame := Store(packet);
    }

    /** Pushing returns what the packet's own sequence alone determines, whatever was interleaved. */
    method Push(packet: AVPacket) returns (frame: Option<bytes>)
      requires Valid()
      modifies this
      ensures Valid()
      ensures history == old(history) + [packet]
      ensures frame == OutputFor(context, old(history), packet)
      ensures WellMarked(packet) && FragmentIndex(packet) == FINAL_INDEX ==> EntryAt(packet.sequence) == NOTHING
    {
      hide SlotStep, Entry.Ok;
      ghost var before := history;
      assert EntryAt(packet.sequence).Ok(packet.sequence, context.maxFrameBytes);
      frame := Advance(packet);
      history := history + [packet];
      assert history[..|history| - 1] == before;
      forall s: nat
        ensures EntryAt(s).Ok(s, context.maxFrameBytes)
        ensures EntryAt(s).ToSlot() == SlotAfter(context, OfSequence(history, s))
      {
        assert old(EntryAt(s)).Ok(s, context.maxFrameBytes);
        var own := OfSequence(before, s);
        assert old(EntryAt(s)).ToSlot() == SlotAfter(context, own);
        if Relevant(packet) && s == packet.sequence {
          assert (own + [packet])[..|own|] == own;
        }
      }
    }
  }
}
