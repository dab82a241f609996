/** What the filters of packets, lines and publications select: each item that counts, once and in its place. */
module Selections {
  import opened Basics
  import opened Pprpc
  import opened Reassembler
  import opened Messages
  import opened Timeline
  import opened Media

  /** Every AV packet. */
  function AvMarks(packets: seq<Packet>): (marks: seq<Option<AVPacket>>)
    ensures |marks| == |packets|
  {
    seq(|packets|, i requires 0 <= i < |packets| => if packets[i].Av? then Some(packets[i].av) else None)
  }

  lemma {:induction false} AvPicks(packets: seq<Packet>)
    ensures Picks(AvMarks(packets), AvOf(packets))
    decreases |packets|
  {
    if packets == [] {
      NothingPicked<AVPacket>();
      assert AvMarks(packets) == [];
    } else {
      var front, last := packets[..|packets| - 1], packets[|packets| - 1];
      AvPicks(front);
      var marks := AvMarks(packets);
      PicksSnoc(AvMarks(front), marks[|front|], AvOf(front));
      assert marks == AvMarks(front) + [marks[|front|]];
    }
  }

  /** Every RPC request 107. */
  function SyncMarks(packets: seq<Packet>): (marks: seq<Option<RPCPacket>>)
    ensures |marks| == |packets|
  {
    seq(|packets|, i requires 0 <= i < |packets| =>
      if packets[i].Rpc? && packets[i].rpc.rpcType == 0 && packets[i].rpc.commandId == 107 then Some(packets[i].rpc)
      else None)
  }

  lemma {:induction false} SyncPicks(packets: seq<Packet>)
    ensures Picks(SyncMarks(packets), SyncsOf(packets))
    decreases |packets|
  {
    if packets == [] {
      NothingPicked<RPCPacket>();
      assert SyncMarks(packets) == [];
    } else {
      var front, last := packets[..|packets| - 1], packets[|packets| - 1];
      SyncPicks(front);
      var marks := SyncMarks(packets);
      PicksSnoc(SyncMarks(front), marks[|front|], SyncsOf(front));
      assert marks == SyncMarks(front) + [marks[|front|]];
    }
  }

  /** Every packet that a step of the handshake leaves for later: neither a time-sync request nor the awaited answer. */
  function KeptMarks(packets: seq<Packet>, awaited: Option<(nat, nat)>): (marks: seq<Option<Packet>>)
    ensures |marks| == |packets|
  {
    seq(|packets|, i requires 0 <= i < |packets| =>
      if IsTimeSync(packets[i]) || (awaited.Some? && Answers(packets[i], awaited.value.0, awaited.value.1)) then None
      else Some(packets[i]))
  }

  lemma {:induction false} KeptPicks(packets: seq<Packet>, awaited: Option<(nat, nat)>)
    ensures Picks(KeptMarks(packets, awaited), Deferred(packets, awaited))
    decreases |packets|
  {
    if packets == [] {
      NothingPicked<Packet>();
      assert KeptMarks(packets, awaited) == [];
    } else {
      var front, last := packets[..|packets| - 1], packets[|packets| - 1];
      KeptPicks(front, awaited);
      var marks := KeptMarks(packets, awaited);
      PicksSnoc(KeptMarks(front, awaited), marks[|front|], Deferred(front, awaited));
      assert marks == KeptMarks(front, awaited) + [marks[|front|]];
    }
  }

  /** Every A-law chunk. */
  function AudioMarks(packets: seq<AVPacket>): (marks: seq<Option<bytes>>)
    ensures |marks| == |packets|
  {
    seq(|packets|, i requires 0 <= i < |packets| => ExtractAlaw(packets[i]))
  }

  lemma {:induction false} AudioPicks(packets: seq<AVPacket>)
    ensures Picks(AudioMarks(packets), AudioOf(packets))
    decreases |packets|
  {
    if packets == [] {
      NothingPicked<bytes>();
      assert AudioMarks(packets) == [];
    } else {
      var front, last := packets[..|packets| - 1], packets[|packets| - 1];
      AudioPicks(front);
      var marks := AudioMarks(packets);
      PicksSnoc(AudioMarks(front), marks[|front|], AudioOf(front));
      assert marks == AudioMarks(front) + [marks[|front|]];
    }
  }

  /** Every frame that a packet completes after those before it. */
  function FrameMarks(context: Context, packets: seq<AVPacket>): (marks: seq<Option<bytes>>)
    ensures |marks| == |packets|
  {
    seq(|packets|, i requires 0 <= i < |packets| => OutputFor(context, packets[..i], packets[i]))
  }

  lemma {:induction false} FramePicks(context: Context, packets: seq<AVPacket>)
    ensures Picks(FrameMarks(context, packets), FramesOf(context, packets))
    decreases |packets|
  {
    hide OutputFor, Picks;
    if packets == [] {
      NothingPicked<bytes>();
      assert FrameMarks(context, packets) == [];
    } else {
      var front, last := packets[..|packets| - 1], packets[|packets| - 1];
      FramePicks(context, front);
      var before, mark := FrameMarks(context, front), OutputFor(context, front, last);
      PicksSnoc(before, mark, FramesOf(context, front));
      assert forall i | 0 <= i < |front| :: front[..i] == packets[..i];
      assert FrameMarks(context, packets) == before + [mark];
      assert FramesOf(context, front) + [] == FramesOf(context, front);
    }
  }

  /** Every MJPEG packet of a sequence that is long enough to hold a fragment. */
  function OwnMarks(history: seq<AVPacket>, sequence: nat): (marks: seq<Option<AVPacket>>)
    ensures |marks| == |history|
  {
    seq(|history|, i requires 0 <= i < |history| =>
      var p := history[i];
      if p.mediaFormat == 4 && |p.payload| >= 3 && p.sequence == sequence then Some(p) else None)
  }

  lemma {:induction false} OwnPicks(history: seq<AVPacket>, sequence: nat)
    ensures Picks(OwnMarks(history, sequence), OfSequence(history, sequence))
    decreases |history|
  {
    if history == [] {
      NothingPicked<AVPacket>();
      assert OwnMarks(history, sequence) == [];
    } else {
      var front, last := history[..|history| - 1], history[|history| - 1];
      OwnPicks(front, sequence);
      var marks := OwnMarks(history, sequence);
      PicksSnoc(OwnMarks(front, sequence), marks[|front|], OfSequence(front, sequence));
      assert marks == OwnMarks(front, sequence) + [marks[|front|]];
    }
  }

  /** Every request that a line answers. */
  function AnsweredMarks(lines: seq<Line>): (marks: seq<Option<RPCPacket>>)
    ensures |marks| == |lines|
  {
    seq(|lines|, i requires 0 <= i < |lines| => if lines[i].Reply? then Some(lines[i].packet) else None)
  }

  lemma {:induction false} AnsweredPicks(lines: seq<Line>)
    ensures Picks(AnsweredMarks(lines), AnsweredIn(lines))
    decreases |lines|
  {
    if lines == [] {
      NothingPicked<RPCPacket>();
      assert AnsweredMarks(lines) == [];
    } else {
      var front, last := lines[..|lines| - 1], lines[|lines| - 1];
      AnsweredPicks(front);
      var marks := AnsweredMarks(lines);
      PicksSnoc(AnsweredMarks(front), marks[|front|], AnsweredIn(front));
      assert marks == AnsweredMarks(front) + [marks[|front|]];
    }
  }

  /** Every request line. */
  function RequestMarks(lines: seq<Line>): (marks: seq<Option<Line>>)
    ensures |marks| == |lines|
  {
    seq(|lines|, i requires 0 <= i < |lines| => if lines[i].Request? then Some(lines[i]) else None)
  }

  lemma {:induction false} RequestPicks(lines: seq<Line>)
    ensures Picks(RequestMarks(lines), RequestsIn(lines))
    decreases |lines|
  {
    if lines == [] {
      NothingPicked<Line>();
      assert RequestMarks(lines) == [];
    } else {
      var front, last := lines[..|lines| - 1], lines[|lines| - 1];
      RequestPicks(front);
      var marks := RequestMarks(lines);
      PicksSnoc(RequestMarks(front), marks[|front|], RequestsIn(front));
      assert marks == RequestMarks(front) + [marks[|front|]];
    }
  }

  /** Every heartbeat line. */
  function BeatMarks(lines: seq<Line>): (marks: seq<Option<Heartbeat>>)
    ensures |marks| == |lines|
  {
    seq(|lines|, i requires 0 <= i < |lines| => if lines[i].Beat? then Some(lines[i].beat) else None)
  }

  lemma {:induction false} BeatPicks(lines: seq<Line>)
    ensures Picks(BeatMarks(lines), BeatsIn(lines))
    decreases |lines|
  {
    if lines == [] {
      NothingPicked<Heartbeat>();
      assert BeatMarks(lines) == [];
    } else {
      var front, last := lines[..|lines| - 1], lines[|lines| - 1];
      BeatPicks(front);
      var marks := BeatMarks(lines);
      PicksSnoc(BeatMarks(front), marks[|front|], BeatsIn(front));
      assert marks == BeatMarks(front) + [marks[|front|]];
    }
  }

  /** Every frame published. */
  function NewFrameMarks(batch: seq<Publication>): (marks: seq<Option<bytes>>)
    ensures |marks| == |batch|
  {
    seq(|batch|, i requires 0 <= i < |batch| => if batch[i].NewFrame? then Some(batch[i].frame) else None)
  }

  lemma {:induction false} NewFramePicks(batch: seq<Publication>)
    ensures Picks(NewFrameMarks(batch), PublishedFrames(batch))
    decreases |batch|
  {
    if batch == [] {
      NothingPicked<bytes>();
      assert NewFrameMarks(batch) == [];
    } else {
      var front, last := batch[..|batch| - 1], batch[|batch| - 1];
      NewFramePicks(front);
      var marks := NewFrameMarks(batch);
      PicksSnoc(NewFrameMarks(front), marks[|front|], PublishedFrames(front));
      assert marks == NewFrameMarks(front) + [marks[|front|]];
    }
  }

  /** Every chunk published. */
  function NewAudioMarks(batch: seq<Publication>): (marks: seq<Option<bytes>>)
    ensures |marks| == |batch|
  {
    seq(|batch|, i requires 0 <= i < |batch| => if batch[i].NewAudio? then Some(batch[i].chunk) else None)
  }

  lemma {:induction false} NewAudioPicks(batch: seq<Publication>)
    ensures Picks(NewAudioMarks(batch), PublishedAudio(batch))
    decreases |batch|
  {
    if batch == [] {
      NothingPicked<bytes>();
      assert NewAudioMarks(batch) == [];
    } else {
      var front, last := batch[..|batch| - 1], batch[|batch| - 1];
      NewAudioPicks(front);
      var marks := NewAudioMarks(batch);
      PicksSnoc(NewAudioMarks(front), marks[|front|], PublishedAudio(front));
      assert marks == NewAudioMarks(front) + [marks[|front|]];
    }
  }
}
