/** Base-128 varints: the encoder and the bounded decoder of the wire layer. */
module Varint {
  import opened Basics

  datatype VarintError = TruncatedVarint | OversizedVarint

  function Pow128(n: nat): (p: nat)
    ensures p >= 1
  {
    if n == 0 then 1 else 128 * Pow128(n - 1)
  }

  /** The bounds that matter on the wire: 4-byte, 9-byte and 10-byte varints. */
  lemma Pow128Values()
    ensures Pow128(4) == 0x1000_0000
    ensures Pow128(9) == 0x8000_0000_0000_0000
    ensures Pow128(10) == 0x40_0000_0000_0000_0000
  {
    assert Pow128(4) == 128 * Pow128(3) == 128 * 128 * Pow128(2) == 128 * 128 * 128 * Pow128(1);
    assert Pow128(6) == 128 * Pow128(5) == 128 * 128 * Pow128(4);
    assert Pow128(8) == 128 * Pow128(7) == 128 * 128 * Pow128(6);
  }

  /** The shortest little-endian base-128 form of `value`. */
  function EncodeVarint(value: nat): (e: bytes)
    ensures e != []
  {
    if value < 128 then [value] else [value % 128 + 128] + EncodeVarint(value / 128)
  }

  /** Reads one varint of at most `limit` bytes at `offset`; yields the value and the new offset. */
  function DecodeVarint(data: bytes, offset: nat, limit: nat): (r: Result<(nat, nat), VarintError>)
    ensures r.Success? ==> offset < r.value.1 <= |data| && r.value.1 <= offset + limit
    decreases limit
  {
    if limit == 0 then Failure(OversizedVarint)
    else if offset >= |data| then Failure(TruncatedVarint)
    else if data[offset] < 128 then Success((data[offset], offset + 1))
    else
      var (rest, end) :- DecodeVarint(data, offset + 1, limit - 1);
      Success((data[offset] - 128 + 128 * rest, end))
  }

  /** The encoder's loop: one byte of seven bits per round, least significant first. */
  method EncodeVarintLoop(value: nat) returns (output: bytes)
    ensures output == EncodeVarint(value)
  {
    output := [];
    var rest := value;
    while rest >= 128
      invariant output + EncodeVarint(rest) == EncodeVarint(value)
    {
      output := output + [rest % 128 + 128];
      rest := rest / 128;
    }
    output := output + [rest];
  }

  /** `Lift(value, scale, r)` is what the decoder returns once `value` has been read below `scale`. */
  function Lift(value: nat, scale: nat, r: Result<(nat, nat), VarintError>): Result<(nat, nat), VarintError> {
    match r
    case Failure(e) => Failure(e)
    case Success(read) => Success((value + scale * read.0, read.1))
  }

  lemma LiftStep(value: nat, scale: nat, data: bytes, offset: nat, limit: nat)
    requires limit > 0 && offset < |data| && data[offset] >= 128
    ensures Lift(value, scale, DecodeVarint(data, offset, limit))
         == Lift(value + (data[offset] - 128) * scale, 128 * scale, DecodeVarint(data, offset + 1, limit - 1))
  {
    var r := DecodeVarint(data, offset + 1, limit - 1);
    if r.Success? {
      var d, v := data[offset] - 128, r.value.0;
      assert scale * (d + 128 * v) == d * scale + 128 * scale * v;
    }
  }

  /** The decoder's loop, which accumulates seven bits per byte at a growing shift. */
  method DecodeVarintLoop(data: bytes, start: nat, limit: nat) returns (r: Result<(nat, nat), VarintError>)
    ensures r == DecodeVarint(data, start, limit)
  {
    var value: nat, offset: nat := 0, start;
    ghost var whole := DecodeVarint(data, start, limit);
    for index := 0 to limit
      invariant Lift(value, Pow128(index), DecodeVarint(data, offset, limit - index)) == whole
    {
      if offset >= |data| {
        return Failure(TruncatedVarint);
      }
      var byte, scale: nat := data[offset], Pow128(index);
      if byte < 128 {
        assert scale * byte == byte * scale;
        return Success((value + byte * scale, offset + 1));
      }
      LiftStep(value, scale, data, offset, limit - index);
      offset := offset + 1;
      value := value + (byte - 128) * scale;
    }
    return Failure(OversizedVarint);
  }

  // ----- laws -----

  /** Decoding what was encoded returns the value and the exact end when `value` fits the limit,
      at any offset and before any suffix, and reports an oversized varint otherwise. */
  lemma {:induction false} DecodeOfEncode(before: bytes, value: nat, after: bytes, limit: nat)
    ensures DecodeVarint(before + EncodeVarint(value) + after, |before|, limit)
         == if limit > 0 && value < Pow128(limit) then Success((value, |before| + |EncodeVarint(value)|))
            else Failure(OversizedVarint)
    decreases limit
  {
    var e := EncodeVarint(value);
    var data := before + e + after;
    if limit > 0 {
      assert data[|before|] == e[0];
      assert Pow128(limit) == 128 * Pow128(limit - 1) >= 128;
      if value >= 128 {
        var tail := EncodeVarint(value / 128);
        var before' := before + [e[0]];
        assert e == [e[0]] + tail;
        assert before' + tail + after == data;
        DecodeOfEncode(before', value / 128, after, limit - 1);
        assert |before| + 1 == |before'| && e[0] - 128 + 128 * (value / 128) == value;
        assert Pow128(limit) == 128 * Pow128(limit - 1);
        assert value < Pow128(limit) <==> value / 128 < Pow128(limit - 1);
      }
    }
  }

  /** The encoder emits the shortest accepted form: no accepted form of a value is shorter. */
  lemma {:induction false} EncodeIsShortest(data: bytes, offset: nat, limit: nat)
    requires DecodeVarint(data, offset, limit).Success?
    ensures var (value, end) := DecodeVarint(data, offset, limit).value;
            && value < Pow128(limit)
            && |EncodeVarint(value)| <= end - offset
            && (|EncodeVarint(value)| == end - offset <==> data[offset..end] == EncodeVarint(value))
    decreases limit
  {
    var (value, end) := DecodeVarint(data, offset, limit).value;
    if data[offset] < 128 {
      assert data[offset..end] == [data[offset]];
    } else {
      EncodeIsShortest(data, offset + 1, limit - 1);
      assert data[offset..end] == [data[offset]] + data[offset + 1..end];
      var rest := DecodeVarint(data, offset + 1, limit - 1).value.0;
      assert value == data[offset] - 128 + 128 * rest;
      assert rest > 0 ==> EncodeVarint(value) == [data[offset]] + EncodeVarint(rest);
      assert rest == 0 ==> |EncodeVarint(value)| == 1;
    }
  }

  /** No encoding is a proper prefix of another, so encodings can be read back to back. */
  lemma EncodePrefixFree(v: nat, w: nat)
    requires EncodeVarint(v) <= EncodeVarint(w)
    ensures v == w
  {
    var after := EncodeVarint(w)[|EncodeVarint(v)|..];
    assert [] + EncodeVarint(v) + after == EncodeVarint(w) == [] + EncodeVarint(w) + [];
    var limit := v + w;
    BelowPow128(v, limit);
    BelowPow128(w, limit);
    DecodeOfEncode([], v, after, limit);
    DecodeOfEncode([], w, [], limit);
  }

  lemma {:induction false} BelowPow128(v: nat, n: nat)
    requires v <= n
    ensures v < Pow128(n)
  {
    if n > 0 {
      BelowPow128(if v == 0 then 0 else v - 1, n - 1);
    }
  }

  /** Only truncation depends on bytes beyond the end: any other answer survives an extension. */
  lemma {:induction false} DecodeExtends(data: bytes, more: bytes, offset: nat, limit: nat)
    requires DecodeVarint(data, offset, limit) != Failure(TruncatedVarint)
    ensures DecodeVarint(data + more, offset, limit) == DecodeVarint(data, offset, limit)
    decreases limit
  {
    if limit > 0 && data[offset] >= 128 {
      DecodeExtends(data, more, offset + 1, limit - 1);
    }
  }

  /** A truncated read has run off the end before using its whole allowance. */
  lemma {:induction false} TruncatedIsShort(data: bytes, offset: nat, limit: nat)
    requires DecodeVarint(data, offset, limit) == Failure(TruncatedVarint)
    ensures |data| < offset + limit
    decreases limit
  {
    if offset < |data| {
      TruncatedIsShort(data, offset + 1, limit - 1);
    }
  }

  /** Cutting an accepted varint before its end always leaves a truncated one. */
  lemma {:induction false} DecodeOfCut(data: bytes, offset: nat, limit: nat, cut: nat)
    requires DecodeVarint(data, offset, limit).Success?
    requires cut < DecodeVarint(data, offset, limit).value.1
    ensures DecodeVarint(data[..cut], offset, limit) == Failure(TruncatedVarint)
    decreases limit
  {
    if offset < cut {
      DecodeOfCut(data, offset + 1, limit - 1, cut);
    }
  }

  /** An encoding takes at most n bytes exactly when the value is below 128^n. */
  lemma {:induction false} EncodedLength(value: nat, n: nat)
    requires n > 0
    ensures |EncodeVarint(value)| <= n <==> value < Pow128(n)
    decreases n
  {
    assert Pow128(n) == 128 * Pow128(n - 1);
    if value >= 128 && n > 1 {
      EncodedLength(value / 128, n - 1);
      assert value < 128 * Pow128(n - 1) <==> value / 128 < Pow128(n - 1);
    }
  }

  // ----- the groups of a varint -----

  /** The sum of the seven-bit groups, each times 128 to its place: the first group is the least significant. */
  function GroupSum(word: bytes): nat {
    if word == [] then 0
    else GroupSum(word[..|word| - 1]) + word[|word| - 1] % 128 * Pow128(|word| - 1)
  }

  /** Every byte but the last one says that more follow. */
  predicate IsVarint(word: bytes) {
    && word != [] && word[|word| - 1] < 128
    && forall i | 0 <= i < |word| - 1 :: word[i] >= 128
  }

  lemma {:induction false} GroupSumCons(first: byte, rest: bytes)
    ensures GroupSum([first] + rest) == first % 128 + 128 * GroupSum(rest)
    decreases |rest|
  {
    var word := [first] + rest;
    if rest == [] {
      assert word == [first] && word[..0] == [];
      assert Pow128(0) == 1;
    } else {
      var front, last := rest[..|rest| - 1], rest[|rest| - 1];
      GroupSumCons(first, front);
      assert word[..|word| - 1] == [first] + front && word[|word| - 1] == last;
      var group, scale := last % 128, Pow128(|front|);
      assert Pow128(|rest|) == 128 * scale;
      assert group * (128 * scale) == 128 * (group * scale);
    }
  }

  /** The bytes from `start` to `end` are one varint of at most `limit` bytes with that value. */
  predicate VarintAt(data: bytes, start: nat, end: nat, limit: nat, value: nat) {
    && start < end <= |data| && end <= start + limit
    && IsVarint(data[start..end]) && value == GroupSum(data[start..end])
  }

  /** Decoding succeeds exactly on a varint of at most `limit` bytes at the offset, with the sum of its groups. */
  lemma {:induction false} DecodeIff(data: bytes, offset: nat, limit: nat, value: nat, end: nat)
    ensures DecodeVarint(data, offset, limit) == Success((value, end)) <==> VarintAt(data, offset, end, limit, value)
    decreases limit
  {
    if limit > 0 && offset < |data| {
      if data[offset] < 128 {
        assert data[offset..offset + 1] == [data[offset]];
        GroupSumCons(data[offset], []);
        assert [data[offset]] + [] == [data[offset]];
        if offset < end <= |data| && IsVarint(data[offset..end]) {
          assert data[offset..end][0] == data[offset];
        }
      } else {
        var more := DecodeVarint(data, offset + 1, limit - 1);
        if more.Success? {
          var (rest, stop) := more.value;
          DecodeIff(data, offset + 1, limit - 1, rest, stop);
          VarintCons(data, offset, stop);
        }
        if offset < end <= |data| && IsVarint(data[offset..end]) {
          assert data[offset..end][0] == data[offset];
          VarintCons(data, offset, end);
          DecodeIff(data, offset + 1, limit - 1, GroupSum(data[offset + 1..end]), end);
        }
      }
    }
  }

  lemma VarintCons(data: bytes, offset: nat, end: nat)
    requires offset < end <= |data| && data[offset] >= 128
    ensures IsVarint(data[offset..end]) <==> offset + 1 < end && IsVarint(data[offset + 1..end])
    ensures GroupSum(data[offset..end]) == data[offset] - 128 + 128 * GroupSum(data[offset + 1..end])
  {
    var word, rest := data[offset..end], data[offset + 1..end];
    assert word == [data[offset]] + rest;
    GroupSumCons(data[offset], rest);
    assert forall i | 0 < i < |word| :: word[i] == rest[i - 1];
    assert forall i | 0 <= i < |rest| :: rest[i] == word[i + 1];
  }

  /** The two errors: the data end inside a varint that may still go on, or the limit is used up inside one. */
  lemma {:induction false} DecodeFailsIff(data: bytes, offset: nat, limit: nat)
    ensures DecodeVarint(data, offset, limit) == Failure(TruncatedVarint) <==>
              && |data| < offset + limit && limit > 0
              && forall i | offset <= i < |data| :: data[i] >= 128
    ensures DecodeVarint(data, offset, limit) == Failure(OversizedVarint) <==>
              limit == 0 || (offset + limit <= |data| && forall i | offset <= i < offset + limit :: data[i] >= 128)
    decreases limit
  {
    if limit > 0 && offset < |data| && data[offset] >= 128 {
      DecodeFailsIff(data, offset + 1, limit - 1);
    }
  }

  /** The encoding is the varint whose groups sum up to the value. */
  lemma EncodedIs(value: nat)
    ensures IsVarint(EncodeVarint(value)) && GroupSum(EncodeVarint(value)) == value
  {
    var e := EncodeVarint(value);
    BelowPow128(value, value + 1);
    DecodeOfEncode([], value, [], value + 1);
    assert [] + e + [] == e && e[0..|e|] == e;
    DecodeIff(e, 0, value + 1, value, |e|);
  }
}
