/** Incremental TCP framing: splitting a byte stream into packets with a carried remainder. */
module Framing {
  import opened Basics
  import opened Varint
  import opened Pprpc

  const TCP: Option<bool> := Some(false)

  type ParseResult = Result<(seq<Packet>, bytes), PacketError>

  /** Every complete packet at the front of `data`, and what is left when the next one is incomplete. */
  function ParseStream(data: bytes): (r: ParseResult)
    ensures r.Success? ==> |r.value.1| <= |data|
    ensures r.Success? && r.value.0 != [] ==> |r.value.1| < |data|
    decreases |data|
  {
    if data == [] then Success(([], []))
    else
      match ParseFixedHeader(data, TCP)
      case Failure(e) => if e.SaysIncomplete() then Success(([], data)) else Failure(e)
      case Success(parsed) =>
        var size := parsed.1 + parsed.0.length;
        if |data| < size then Success(([], data))
        else
          var packet :- ParsePacket(data[..size], TCP, true);
          var (packets, rest) :- ParseStream(data[size..]);
          Success(([packet] + packets, rest))
  }

  /** Puts packets that were already parsed in front of a result. */
  function Prepend(packets: seq<Packet>, r: ParseResult): ParseResult {
    match r
    case Failure(e) => Failure(e)
    case Success(parsed) => Success((packets + parsed.0, parsed.1))
  }

  lemma PrependNothing(r: ParseResult)
    ensures Prepend([], r) == r
  {
    assert r.Success? ==> [] + r.value.0 == r.value.0;
  }

  lemma PrependTwice(first: seq<Packet>, second: seq<Packet>, r: ParseResult)
    ensures Prepend(first, Prepend(second, r)) == Prepend(first + second, r)
  {
    assert r.Success? ==> first + (second + r.value.0) == first + second + r.value.0;
  }

  /** One step of the parse: the first packet in front of the parse of the rest. */
  lemma ParseFirst(data: bytes, size: nat)
    requires data != [] && ParseFixedHeader(data, TCP).Success?
    requires size == ParseFixedHeader(data, TCP).value.1 + ParseFixedHeader(data, TCP).value.0.length <= |data|
    ensures var packet := ParsePacket(data[..size], TCP, true);
            ParseStream(data) == if packet.Failure? then Failure(packet.error)
                                 else Prepend([packet.value], ParseStream(data[size..]))
  {
  }

  /** Where no further packet is complete, the parse stops, or fails when the header is refused. */
  lemma ParseStops(data: bytes)
    ensures data == [] ==> ParseStream(data) == Success(([], data))
    ensures data != [] && ParseFixedHeader(data, TCP).Failure? ==>
              ParseStream(data) == if ParseFixedHeader(data, TCP).error.SaysIncomplete() then Success(([], data))
                                   else Failure(ParseFixedHeader(data, TCP).error)
    ensures data != [] && ParseFixedHeader(data, TCP).Success?
              && |data| < ParseFixedHeader(data, TCP).value.1 + ParseFixedHeader(data, TCP).value.0.length ==>
              ParseStream(data) == Success(([], data))
  {
  }

  /** The framing loop: an offset moves over `data`, each step consuming one packet of at least two bytes. */
  method IterTcpPackets(data: bytes) returns (r: ParseResult)
    ensures r == ParseStream(data)
  {
    hide ParseStream, ParsePacket, ParseFixedHeader;
    var packets: seq<Packet>, offset := [], 0;
    assert data[0..] == data;
    PrependNothing(ParseStream(data));
    while offset < |data|
      invariant 0 <= offset <= |data|
      invariant Prepend(packets, ParseStream(data[offset..])) == ParseStream(data)
    {
      ParseStops(data[offset..]);
      var here := data[offset..];
      var parsed := ParseFixedHeader(here, TCP);
      if parsed.Failure? {
        if parsed.error.SaysIncomplete() {
          break;
        }
        return Failure(parsed.error);
      }
      var packetSize := parsed.value.1 + parsed.value.0.length;
      if |data| - offset < packetSize {
        break;
      }
      var packet := ParsePacket(data[offset..offset + packetSize], TCP, true);
      assert data[offset..offset + packetSize] == here[..packetSize];
      ParseFirst(here, packetSize);
      if packet.Failure? {
        return Failure(packet.error);
      }
      assert here[packetSize..] == data[offset + packetSize..];
      PrependTwice(packets, [packet.value], ParseStream(data[offset + packetSize..]));
      packets := packets + [packet.value];
      offset := offset + packetSize;
    }
    ParseStops(data[offset..]);
    assert packets + [] == packets;
    return Success((packets, data[offset..]));
  }

  // ----- extension of the stream -----

  /** A header answer other than "incomplete" does not depend on bytes that have not arrived yet. */
  lemma HeaderExtends(data: bytes, more: bytes)
    requires var r := ParseFixedHeader(data, TCP); r.Failure? ==> !r.error.SaysIncomplete()
    ensures ParseFixedHeader(data + more, TCP) == ParseFixedHeader(data, TCP)
  {
    if DecodeVarint(data, 1, 4) != Failure(TruncatedVarint) {
      DecodeExtends(data, more, 1, 4);
    }
  }

  /** Parsing an extended stream continues from the remainder, and an error stays an error. */
  lemma {:induction false} ParseAppend(data: bytes, more: bytes)
    ensures ParseStream(data + more)
         == match ParseStream(data)
            case Failure(e) => Failure(e)
            case Success(parsed) => Prepend(parsed.0, ParseStream(parsed.1 + more))
    decreases |data|
  {
    var all := data + more;
    if data == [] {
      assert all == more;
      PrependNothing(ParseStream(more));
    } else {
      var header := ParseFixedHeader(data, TCP);
      if header.Failure? && !header.error.SaysIncomplete() {
        HeaderExtends(data, more);
      } else if header.Failure? || |data| < header.value.1 + header.value.0.length {
        PrependNothing(ParseStream(all));
      } else {
        HeaderExtends(data, more);
        var size := header.value.1 + header.value.0.length;
        var packet := ParsePacket(data[..size], TCP, true);
        assert all[..size] == data[..size] && all[size..] == data[size..] + more;
        ParseFirst(data, size);
        ParseFirst(all, size);
        ParseAppend(data[size..], more);
        var tail := ParseStream(data[size..]);
        if packet.Success? && tail.Success? {
          PrependTwice([packet.value], tail.value.0, ParseStream(tail.value.1 + more));
        }
      }
    }
  }

  /** What the client keeps after feeding chunks one `recv` at a time, each with the carried remainder. */
  function FeedChunks(buffer: bytes, chunks: seq<bytes>): ParseResult
    decreases |chunks|
  {
    if chunks == [] then Success(([], buffer))
    else
      var (packets, rest) :- ParseStream(buffer + chunks[0]);
      Prepend(packets, FeedChunks(rest, chunks[1..]))
  }

  /** Chunk boundaries do not matter: the packets, the remainder and the error, if any, are those of
      the concatenated stream. */
  lemma {:induction false} ChunkInvariance(data: bytes, chunks: seq<bytes>)
    requires ParseStream(data).Success?
    ensures Prepend(ParseStream(data).value.0, FeedChunks(ParseStream(data).value.1, chunks))
         == ParseStream(data + Concat(chunks))
    decreases |chunks|
  {
    hide ParseStream;
    var (packets, buffer) := ParseStream(data).value;
    if chunks == [] {
      assert packets + [] == packets;
      assert data + Concat(chunks) == data;
    } else {
      var next := ParseStream(buffer + chunks[0]);
      ParseAppend(data, chunks[0]);
      ParseAppend(data + chunks[0], Concat(chunks[1..]));
      assert data + Concat(chunks) == data + chunks[0] + Concat(chunks[1..]);
      if next.Success? {
        ChunkInvariance(data + chunks[0], chunks[1..]);
        PrependTwice(packets, next.value.0, FeedChunks(next.value.1, chunks[1..]));
      }
    }
  }

  /** Two ways of cutting the same stream give the same packets, remainder and error. */
  lemma ChunkingIrrelevant(one: seq<bytes>, other: seq<bytes>)
    requires Concat(one) == Concat(other)
    ensures FeedChunks([], one) == FeedChunks([], other) == ParseStream(Concat(one))
  {
    ChunkInvariance([], one);
    ChunkInvariance([], other);
    assert [] + Concat(one) == Concat(one);
    PrependNothing(FeedChunks([], one));
    PrependNothing(FeedChunks([], other));
  }

  /** An error is final: no continuation of the stream makes it go away. */
  lemma ErrorsPersist(data: bytes, more: bytes)
    requires ParseStream(data).Failure?
    ensures ParseStream(data + more) == ParseStream(data)
  {
    ParseAppend(data, more);
  }

  // ----- framing completeness and soundness -----

  predicate WellFormed(word: bytes) {
    ParsePacket(word, TCP, true).Success?
  }

  function PacketOf(word: bytes): Packet
    requires WellFormed(word)
  {
    ParsePacket(word, TCP, true).value
  }

  function PacketsOf(words: seq<bytes>): (packets: seq<Packet>)
    requires forall word | word in words :: WellFormed(word)
    ensures |packets| == |words|
    ensures forall i | 0 <= i < |words| :: packets[i] == PacketOf(words[i])
  {
    seq(|words|, i requires 0 <= i < |words| => PacketOf(words[i]))
  }

  /** A well-formed packet at the front is taken whole, whatever follows. */
  lemma ParseWord(word: bytes, more: bytes)
    requires WellFormed(word)
    ensures ParseStream(word + more) == Prepend([PacketOf(word)], ParseStream(more))
  {
    HeaderExtends(word, more);
    assert (word + more)[..|word|] == word && (word + more)[|word|..] == more;
  }

  /** A packet cut short is kept whole as the remainder. */
  lemma ParseCutWord(word: bytes, cut: nat)
    requires WellFormed(word) && cut < |word|
    ensures ParseStream(word[..cut]) == Success(([], word[..cut]))
  {
    var (header, offset) := ParseFixedHeader(word, TCP).value;
    if 0 < cut < offset {
      DecodeOfCut(word, 1, 4, cut);
    } else if offset <= cut {
      DecodeOfCutAfter(word, 1, 4, cut);
    }
  }

  /** A packet stands for itself alone: with bytes behind it, it is refused where exactly one packet is wanted, and else
      read as if they were not there; cut short it is incomplete. */
  lemma PacketIsWhole(word: bytes, more: bytes, cut: nat, exact: bool)
    requires WellFormed(word) && more != [] && cut < |word|
    ensures ParsePacket(word + more, TCP, true) == Failure(TrailingData)
    ensures ParsePacket(word + more, TCP, false) == Success(PacketOf(word))
    ensures ParsePacket(word[..cut], TCP, exact).Failure? && ParsePacket(word[..cut], TCP, exact).error.SaysIncomplete()
  {
    HeaderExtends(word, more);
    var (header, offset) := ParseFixedHeader(word, TCP).value;
    assert (word + more)[offset..|word|] == word[offset..|word|];
    if 0 < cut < offset {
      DecodeOfCut(word, 1, 4, cut);
    } else if offset <= cut {
      DecodeOfCutAfter(word, 1, 4, cut);
    }
  }

  lemma {:induction false} DecodeOfCutAfter(data: bytes, offset: nat, limit: nat, cut: nat)
    requires DecodeVarint(data, offset, limit).Success?
    requires DecodeVarint(data, offset, limit).value.1 <= cut <= |data|
    ensures DecodeVarint(data[..cut], offset, limit) == DecodeVarint(data, offset, limit)
    decreases limit
  {
    if data[offset] >= 128 {
      DecodeOfCutAfter(data, offset + 1, limit - 1, cut);
    }
  }

  /** Completeness: a list of packets followed by a proper prefix of one more is returned as exactly
      that list and that prefix. */
  lemma {:induction false} FramingComplete(words: seq<bytes>, last: bytes, cut: nat)
    requires forall word | word in words :: WellFormed(word)
    requires WellFormed(last) && cut < |last|
    ensures ParseStream(Concat(words) + last[..cut]) == Success((PacketsOf(words), last[..cut]))
  {
    hide ParsePacket, PacketOf, ParseStream;
    if words == [] {
      ParseCutWord(last, cut);
      assert Concat(words) + last[..cut] == last[..cut];
      assert PacketsOf(words) == [];
    } else {
      FramingComplete(words[1..], last, cut);
      ParseWord(words[0], Concat(words[1..]) + last[..cut]);
      assert Concat(words) + last[..cut] == words[0] + (Concat(words[1..]) + last[..cut]);
      assert PacketsOf(words) == [PacketOf(words[0])] + PacketsOf(words[1..]);
    }
  }

  /** Putting one more packet in front of a cut stream. */
  lemma CutInFront(data: bytes, size: nat, tail: seq<bytes>, rest: bytes)
    requires size <= |data| && WellFormed(data[..size]) && forall word | word in tail :: WellFormed(word)
    requires data[size..] == Concat(tail) + rest
    ensures data == Concat([data[..size]] + tail) + rest
    ensures forall word | word in [data[..size]] + tail :: WellFormed(word)
    ensures PacketsOf([data[..size]] + tail) == [PacketOf(data[..size])] + PacketsOf(tail)
  {
    hide WellFormed, PacketOf;
    PacketsCons(data[..size], tail);
    ConcatCons(data[..size], tail);
    hide Concat, PacketsOf;
    Rejoin(data, size, Concat(tail), rest);
  }

  lemma Rejoin(data: bytes, size: nat, tail: bytes, rest: bytes)
    requires size <= |data| && data[size..] == tail + rest
    ensures data == data[..size] + tail + rest
  {
    assert data == data[..size] + data[size..];
  }

  lemma PacketsCons(word: bytes, tail: seq<bytes>)
    requires WellFormed(word) && forall w | w in tail :: WellFormed(w)
    ensures forall w | w in [word] + tail :: WellFormed(w)
    ensures PacketsOf([word] + tail) == [PacketOf(word)] + PacketsOf(tail)
  {
    hide WellFormed, PacketOf;
  }

  /** Soundness: whatever is returned is a cut of the stream into well-formed packets and a remainder
      in which no packet is complete. */
  lemma {:induction false} FramingSound(data: bytes) returns (words: seq<bytes>)
    requires ParseStream(data).Success?
    ensures forall word | word in words :: WellFormed(word)
    ensures ParseStream(data).value.0 == PacketsOf(words)
    ensures data == Concat(words) + ParseStream(data).value.1
    ensures ParseStream(ParseStream(data).value.1) == Success(([], ParseStream(data).value.1))
    decreases |data|
  {
    assert Concat<byte>([]) == [];
    hide ParsePacket, ParseFixedHeader, ParseStream, Concat;
    ParseStops(data);
    words := [];
    var header := ParseFixedHeader(data, TCP);
    if data != [] && header.Success? && header.value.1 + header.value.0.length <= |data| {
      var size := header.value.1 + header.value.0.length;
      ParseFirst(data, size);
      var tail := FramingSound(data[size..]);
      words := [data[..size]] + tail;
      CutInFront(data, size, tail, ParseStream(data).value.1);
    } else {
      assert PacketsOf(words) == [] && Concat(words) + data == data;
    }
  }

  /** The carried remainder never exceeds 2^28 + 3 bytes. */
  lemma RemainderBound(data: bytes)
    requires ParseStream(data).Success?
    ensures |ParseStream(data).value.1| <= 0x1000_0000 + 3
  {
    var words := FramingSound(data);
    var rest := ParseStream(data).value.1;
    Pow128Values();
    if rest != [] {
      var header := ParseFixedHeader(rest, TCP);
      if header.Failure? {
        TruncatedIsShort(rest, 1, 4);
      } else {
        EncodeIsShortest(rest, 1, 4);
      }
    }
  }

  /** The bound is reached: a remainder of 2^28 + 3 bytes exists. */
  lemma RemainderBoundReached(body: bytes)
    requires |body| == 0x1000_0000 - 2
    ensures var data := [0x6A, 0xFF, 0xFF, 0xFF, 0x7F] + body;
            ParseStream(data) == Success(([], data)) && |data| == 0x1000_0000 + 3
  {
    var data: bytes := [0x6A, 0xFF, 0xFF, 0xFF, 0x7F] + body;
    assert DecodeVarint(data, 4, 1) == Success((0x7F, 5));
    assert DecodeVarint(data, 3, 2) == Success((0x7F + 128 * 0x7F, 5));
    assert DecodeVarint(data, 2, 3) == Success((0x7F + 128 * (0x7F + 128 * 0x7F), 5));
    assert DecodeVarint(data, 1, 4) == Success((0xFFF_FFFF, 5));
  }
}
