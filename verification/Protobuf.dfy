/** Protobuf fields: encoders, a reference parser, and the three readers the client uses. */
module Protobuf {
  import opened Basics
  import opened Varint

  const UINT64 := 0x1_0000_0000_0000_0000

  datatype Field =
    | VarintField(number: nat, value: nat)
    | Fixed64Field(number: nat, data: bytes)
    | BytesField(number: nat, data: bytes)
    | Fixed32Field(number: nat, data: bytes)
  {
    function WireType(): nat {
      match this
      case VarintField(_, _) => 0
      case Fixed64Field(_, _) => 1
      case BytesField(_, _) => 2
      case Fixed32Field(_, _) => 5
    }

    function Tag(): nat {
      number * 8 + WireType()
    }

    /** The field can be written so that a ten-byte varint reader accepts it. */
    predicate Ok() {
      && Tag() < Pow128(10)
      && match this
         case VarintField(_, value) => value < Pow128(10)
         case Fixed64Field(_, data) => |data| == 8
         case BytesField(_, data) => |data| < Pow128(10)
         case Fixed32Field(_, data) => |data| == 4
    }
  }

  datatype FieldError = BadFieldVarint(varint: VarintError) | UnsupportedWireType | TruncatedField

  /** Where a parse stopped: the wire type, once the tag was read, and what was wrong. */
  datatype FieldFailure = FieldFailure(wireType: Option<nat>, error: FieldError)

  // ----- the reference parser -----

  function Varint10(payload: bytes, offset: nat, wireType: Option<nat>): (r: Result<(nat, nat), FieldFailure>)
    ensures r.Success? ==> offset < r.value.1 <= |payload|
  {
    match DecodeVarint(payload, offset, 10)
    case Success(read) => Success(read)
    case Failure(e) => Failure(FieldFailure(wireType, BadFieldVarint(e)))
  }

  /** The `length` bytes at `offset`, when they are there. */
  function Take(payload: bytes, offset: nat, length: nat, wireType: nat): (r: Result<bytes, FieldFailure>)
    requires offset <= |payload|
    ensures r.Success? <==> offset + length <= |payload|
  {
    if offset + length > |payload| then Failure(FieldFailure(Some(wireType), TruncatedField))
    else Success(payload[offset..offset + length])
  }

  function ParseField(payload: bytes, offset: nat): (r: Result<(Field, nat), FieldFailure>)
    ensures r.Success? ==> offset < r.value.1 <= |payload|
  {
    var (tag, afterTag) :- Varint10(payload, offset, None);
    var number, wireType := tag / 8, tag % 8;
    if wireType == 0 then
      var (value, end) :- Varint10(payload, afterTag, Some(0));
      Success((VarintField(number, value), end))
    else if wireType == 1 then
      var data :- Take(payload, afterTag, 8, 1);
      Success((Fixed64Field(number, data), afterTag + 8))
    else if wireType == 2 then
      var (length, afterLength) :- Varint10(payload, afterTag, Some(2));
      var data :- Take(payload, afterLength, length, 2);
      Success((BytesField(number, data), afterLength + length))
    else if wireType == 5 then
      var data :- Take(payload, afterTag, 4, 5);
      Success((Fixed32Field(number, data), afterTag + 4))
    else Failure(FieldFailure(Some(wireType), UnsupportedWireType))
  }

  datatype Parsed = Parsed(fields: seq<Field>, failure: Option<FieldFailure>)

  /** All fields from `offset` to the end, or to the first malformed one. */
  function ParseFields(payload: bytes, offset: nat): Parsed
    decreases |payload| - offset
  {
    if offset >= |payload| then Parsed([], None)
    else
      match ParseField(payload, offset)
      case Failure(f) => Parsed([], Some(f))
      case Success(read) =>
        var rest := ParseFields(payload, read.1);
        Parsed([read.0] + rest.fields, rest.failure)
  }

  // ----- encoders -----

  function EncodeField(f: Field): bytes {
    EncodeVarint(f.Tag())
    + match f
      case VarintField(_, value) => EncodeVarint(value)
      case Fixed64Field(_, data) => data
      case BytesField(_, data) => EncodeVarint(|data|) + data
      case Fixed32Field(_, data) => data
  }

  function EncodeFields(fields: seq<Field>): bytes {
    if fields == [] then [] else EncodeField(fields[0]) + EncodeFields(fields[1..])
  }

  /** A field is a varint of eight times its number plus its wire type, and then a varint, eight bytes, a length and
      that many bytes, or four bytes. */
  lemma FieldLayout(f: Field)
    ensures match f
            case VarintField(n, value) => EncodeField(f) == EncodeVarint(8 * n) + EncodeVarint(value)
            case Fixed64Field(n, data) => EncodeField(f) == EncodeVarint(8 * n + 1) + data
            case BytesField(n, data) => EncodeField(f) == EncodeVarint(8 * n + 2) + (EncodeVarint(|data|) + data)
            case Fixed32Field(n, data) => EncodeField(f) == EncodeVarint(8 * n + 5) + data
  {
    hide EncodeVarint;
  }

  /** A field lies at an offset: its tag ends at `tagEnd`, and its data, which in a length-delimited field their length
      precedes, lie from `dataStart` to `end`. */
  predicate FieldAt(payload: bytes, offset: nat, f: Field, tagEnd: nat, dataStart: nat, end: nat) {
    && VarintAt(payload, offset, tagEnd, 10, 8 * f.number + f.WireType())
    && match f
       case VarintField(_, value) => dataStart == tagEnd && VarintAt(payload, dataStart, end, 10, value)
       case Fixed64Field(_, data) => dataStart == tagEnd && |data| == 8 && DataAt(payload, dataStart, end, data)
       case BytesField(_, data) =>
         VarintAt(payload, tagEnd, dataStart, 10, |data|) && DataAt(payload, dataStart, end, data)
       case Fixed32Field(_, data) => dataStart == tagEnd && |data| == 4 && DataAt(payload, dataStart, end, data)
  }

  predicate DataAt(payload: bytes, start: nat, end: nat, data: bytes) {
    start <= end <= |payload| && payload[start..end] == data
  }

  lemma ReadIff(payload: bytes, offset: nat, wireType: Option<nat>, value: nat, end: nat)
    ensures Varint10(payload, offset, wireType) == Success((value, end)) <==> VarintAt(payload, offset, end, 10, value)
  {
    DecodeIff(payload, offset, 10, value, end);
    hide DecodeVarint, VarintAt;
  }

  /** A field is parsed exactly where one lies; its varints need not be the shortest ones. */
  lemma FieldIff(payload: bytes, offset: nat, f: Field, end: nat)
    ensures ParseField(payload, offset) == Success((f, end)) <==>
              exists tagEnd: nat, dataStart: nat :: FieldAt(payload, offset, f, tagEnd, dataStart, end)
  {
    if ParseField(payload, offset) == Success((f, end)) {
      ParsedLies(payload, offset, f, end);
    }
    if exists tagEnd: nat, dataStart: nat :: FieldAt(payload, offset, f, tagEnd, dataStart, end) {
      var tagEnd: nat, dataStart: nat :| FieldAt(payload, offset, f, tagEnd, dataStart, end);
      LyingIsParsed(payload, offset, f, tagEnd, dataStart, end);
    }
  }

  lemma ParsedLies(payload: bytes, offset: nat, f: Field, end: nat)
    requires ParseField(payload, offset) == Success((f, end))
    ensures exists tagEnd: nat, dataStart: nat :: FieldAt(payload, offset, f, tagEnd, dataStart, end)
  {
    hide Varint10, VarintAt;
    var (tag, a) := Varint10(payload, offset, None).value;
    ReadIff(payload, offset, None, tag, a);
    if f.VarintField? {
      ReadIff(payload, a, Some(0), f.value, end);
      assert FieldAt(payload, offset, f, a, a, end);
    } else if f.BytesField? {
      var (length, b) := Varint10(payload, a, Some(2)).value;
      ReadIff(payload, a, Some(2), length, b);
      assert FieldAt(payload, offset, f, a, b, end);
    } else {
      assert FieldAt(payload, offset, f, a, a, end);
    }
  }

  lemma LyingIsParsed(payload: bytes, offset: nat, f: Field, tagEnd: nat, dataStart: nat, end: nat)
    requires FieldAt(payload, offset, f, tagEnd, dataStart, end)
    ensures ParseField(payload, offset) == Success((f, end))
  {
    hide Varint10, VarintAt;
    var tag := 8 * f.number + f.WireType();
    ReadIff(payload, offset, None, tag, tagEnd);
    assert tag / 8 == f.number && tag % 8 == f.WireType();
    match f
    case VarintField(_, value) => ReadIff(payload, tagEnd, Some(0), value, end);
    case BytesField(_, data) => ReadIff(payload, tagEnd, Some(2), |data|, dataStart);
    case _ =>
  }

  /** Where no field is parsed although its tag is read and its varints are: the wire types 3, 4, 6 and 7 are refused,
      and data that reach beyond the payload are truncated. */
  lemma FieldRefusals(payload: bytes, offset: nat, wireType: nat)
    ensures ParseField(payload, offset) == Failure(FieldFailure(Some(wireType), UnsupportedWireType)) <==>
              && wireType in {3, 4, 6, 7}
              && exists tag: nat, a: nat :: VarintAt(payload, offset, a, 10, tag) && tag % 8 == wireType
    ensures ParseField(payload, offset) == Failure(FieldFailure(Some(wireType), TruncatedField)) <==>
              exists tag: nat, a: nat ::
                && VarintAt(payload, offset, a, 10, tag) && tag % 8 == wireType
                && (|| (wireType == 1 && a + 8 > |payload|) || (wireType == 5 && a + 4 > |payload|)
                    || (wireType == 2 && exists n: nat, b: nat :: VarintAt(payload, a, b, 10, n) && b + n > |payload|))
  {
    hide Varint10, VarintAt;
    forall at: nat, value: nat, end: nat
      ensures Varint10(payload, at, None) == Success((value, end)) <==> VarintAt(payload, at, end, 10, value)
      ensures Varint10(payload, at, Some(2)) == Success((value, end)) <==> VarintAt(payload, at, end, 10, value)
    {
      ReadIff(payload, at, None, value, end);
      ReadIff(payload, at, Some(2), value, end);
    }
    VarintFailure(payload, offset, None);
    if Varint10(payload, offset, None).Success? {
      var (tag, a) := Varint10(payload, offset, None).value;
      VarintFailure(payload, a, Some(0));
      VarintFailure(payload, a, Some(2));
    }
  }

  lemma VarintFailure(payload: bytes, offset: nat, wireType: Option<nat>)
    ensures Varint10(payload, offset, wireType).Failure? ==>
              Varint10(payload, offset, wireType).error.error.BadFieldVarint?
  {
    hide DecodeVarint;
  }

  lemma ReadVarint10(payload: bytes, offset: nat, value: nat, rest: bytes, wireType: Option<nat>)
    requires offset <= |payload| && payload[offset..] == EncodeVarint(value) + rest
    requires value < Pow128(10)
    ensures var end := offset + |EncodeVarint(value)|;
            && Varint10(payload, offset, wireType) == Success((value, end))
            && end <= |payload| && payload[end..] == rest
  {
    hide EncodeVarint, DecodeVarint, Pow128;
    var e := EncodeVarint(value);
    assert payload == payload[..offset] + e + rest;
    DecodeOfEncode(payload[..offset], value, rest, 10);
  }

  lemma ReadField(payload: bytes, offset: nat, f: Field, rest: bytes)
    requires f.Ok() && offset <= |payload| && payload[offset..] == EncodeField(f) + rest
    ensures var end := offset + |EncodeField(f)|;
            ParseField(payload, offset) == Success((f, end)) && end <= |payload| && payload[end..] == rest
  {
    hide EncodeVarint, Varint10, Pow128;
    var tag := f.Tag();
    var afterTag := offset + |EncodeVarint(tag)|;
    assert tag / 8 == f.number && tag % 8 == f.WireType();
    match f
    case VarintField(_, value) =>
      assert payload[offset..] == EncodeVarint(tag) + (EncodeVarint(value) + rest);
      ReadVarint10(payload, offset, tag, EncodeVarint(value) + rest, None);
      ReadVarint10(payload, afterTag, value, rest, Some(0));
    case BytesField(_, data) =>
      assert payload[offset..] == EncodeVarint(tag) + (EncodeVarint(|data|) + (data + rest));
      ReadVarint10(payload, offset, tag, EncodeVarint(|data|) + (data + rest), None);
      ReadVarint10(payload, afterTag, |data|, data + rest, Some(2));
      TakeFront(payload, afterTag + |EncodeVarint(|data|)|, data, rest, 2);
    case Fixed64Field(_, data) =>
      assert payload[offset..] == EncodeVarint(tag) + (data + rest);
      ReadVarint10(payload, offset, tag, data + rest, None);
      TakeFront(payload, afterTag, data, rest, 1);
    case Fixed32Field(_, data) =>
      assert payload[offset..] == EncodeVarint(tag) + (data + rest);
      ReadVarint10(payload, offset, tag, data + rest, None);
      TakeFront(payload, afterTag, data, rest, 5);
  }

  lemma TakeFront(payload: bytes, offset: nat, data: bytes, rest: bytes, wireType: nat)
    requires offset <= |payload| && payload[offset..] == data + rest
    ensures Take(payload, offset, |data|, wireType) == Success(data)
    ensures payload[offset + |data|..] == rest
  {
    assert payload[offset..offset + |data|] == payload[offset..][..|data|] == data;
    assert payload[offset + |data|..] == payload[offset..][|data|..];
  }

  lemma EncodeFirst(fields: seq<Field>)
    requires fields != []
    ensures EncodeField(fields[0]) != []
    ensures EncodeFields(fields) == EncodeField(fields[0]) + EncodeFields(fields[1..])
  {
  }

  lemma ParseFirstField(payload: bytes, offset: nat)
    requires offset < |payload| && ParseField(payload, offset).Success?
    ensures var (f, end) := ParseField(payload, offset).value;
            var rest := ParseFields(payload, end);
            ParseFields(payload, offset) == Parsed([f] + rest.fields, rest.failure)
  {
    hide ParseField;
  }

  lemma {:induction false} ParseSuffix(payload: bytes, offset: nat, fields: seq<Field>)
    requires offset <= |payload| && payload[offset..] == EncodeFields(fields)
    requires forall f | f in fields :: f.Ok()
    ensures ParseFields(payload, offset) == Parsed(fields, None)
    decreases |fields|
  {
    hide EncodeField, ParseField, Field.Ok;
    if fields != [] {
      EncodeFirst(fields);
      hide EncodeFields, ParseFields;
      ReadField(payload, offset, fields[0], EncodeFields(fields[1..]));
      ParseFirstField(payload, offset);
      ParseSuffix(payload, offset + |EncodeField(fields[0])|, fields[1..]);
      assert fields == [fields[0]] + fields[1..];
    }
  }

  /** The reference parser inverts the encoder on every list of well-formed fields, at any offset. */
  lemma ParseOfEncoded(before: bytes, fields: seq<Field>)
    requires forall i | 0 <= i < |fields| :: fields[i].Ok()
    ensures ParseFields(before + EncodeFields(fields), |before|) == Parsed(fields, None)
  {
    hide EncodeFields, ParseFields, Field.Ok;
    ParseSuffix(before + EncodeFields(fields), |before|, fields);
  }

  // ----- read_response_value -----

  /** The value of the first varint field with a number. */
  function FirstVarint(fields: seq<Field>, number: nat): (r: Option<nat>)
    ensures r.None? ==> forall i | 0 <= i < |fields| :: !(fields[i].VarintField? && fields[i].number == number)
    ensures r.Some? ==> exists i | 0 <= i < |fields| ::
                          && fields[i] == VarintField(number, r.value)
                          && forall j | 0 <= j < i :: !(fields[j].VarintField? && fields[j].number == number)
    decreases |fields|
  {
    if fields == [] then None
    else
      var last := fields[|fields| - 1];
      match FirstVarint(fields[..|fields| - 1], number)
      case Some(v) => Some(v)
      case None => if last.VarintField? && last.number == number then Some(last.value) else None
  }

  lemma {:induction false} FirstVarintCons(f: Field, fields: seq<Field>, number: nat)
    ensures FirstVarint([f] + fields, number)
         == if f.VarintField? && f.number == number then Some(f.value) else FirstVarint(fields, number)
    decreases |fields|
  {
    if fields == [] {
      assert [f] + fields == [f] && [f][..0] == [];
    } else {
      FirstVarintCons(f, fields[..|fields| - 1], number);
      assert ([f] + fields)[..|fields|] == [f] + fields[..|fields| - 1];
    }
  }

  /** A getter's answer judged from the parsed fields: the first varint field 1 wins even over a later error. */
  function ResponseValue(parsed: Parsed): Result<Option<nat>, FieldError> {
    match FirstVarint(parsed.fields, 1)
    case Some(v) => Success(Some(v))
    case None => if parsed.failure.Some? then Failure(parsed.failure.value.error) else Success(None)
  }

  /** One step of the getter's reading, in terms of the field parsed at an offset. */
  lemma ResponseStep(payload: bytes, offset: nat)
    ensures offset >= |payload| ==> ResponseValue(ParseFields(payload, offset)) == Success(None)
    ensures offset < |payload| && ParseField(payload, offset).Failure? ==>
              ResponseValue(ParseFields(payload, offset)) == Failure(ParseField(payload, offset).error.error)
    ensures offset < |payload| && ParseField(payload, offset).Success? ==>
              var (f, end) := ParseField(payload, offset).value;
              ResponseValue(ParseFields(payload, offset))
                == if f.VarintField? && f.number == 1 then Success(Some(f.value))
                   else ResponseValue(ParseFields(payload, end))
  {
    hide ParseField;
    if offset < |payload| {
      var first := ParseField(payload, offset);
      if first.Success? {
        FirstVarintCons(first.value.0, ParseFields(payload, first.value.1).fields, 1);
      }
    }
  }

  /** The reader's loop returns, for every payload, what the reference parse says. */
  method ReadResponseValue(payload: bytes) returns (r: Result<Option<nat>, FieldError>)
    ensures r == ResponseValue(ParseFields(payload, 0))
  {
    hide FirstVarint, ResponseValue, ParseFields, DecodeVarint;
    var offset: nat := 0;
    while offset < |payload|
      invariant offset <= |payload|
      invariant ResponseValue(ParseFields(payload, offset)) == ResponseValue(ParseFields(payload, 0))
      decreases |payload| - offset
    {
      ResponseStep(payload, offset);
      var tag := DecodeVarint(payload, offset, 10);
      if tag.Failure? {
        return Failure(BadFieldVarint(tag.error));
      }
      offset := tag.value.1;
      var number, wireType := tag.value.0 / 8, tag.value.0 % 8;
      if wireType == 0 {
        var value := DecodeVarint(payload, offset, 10);
        if value.Failure? {
          return Failure(BadFieldVarint(value.error));
        }
        offset := value.value.1;
        if number == 1 {
          return Success(Some(value.value.0));
        }
      } else if wireType == 1 {
        offset := offset + 8;
      } else if wireType == 2 {
        var length := DecodeVarint(payload, offset, 10);
        if length.Failure? {
          return Failure(BadFieldVarint(length.error));
        }
        offset := length.value.1 + length.value.0;
      } else if wireType == 5 {
        offset := offset + 4;
      } else {
        return Failure(UnsupportedWireType);
      }
      if offset > |payload| {
        return Failure(TruncatedField);
      }
    }
    ResponseStep(payload, offset);
    return Success(None);
  }

  /** Over any concatenation of well-formed fields a getter's answer is its first varint field 1. */
  lemma ResponseOfEncoded(fields: seq<Field>)
    requires forall i | 0 <= i < |fields| :: fields[i].Ok()
    ensures ResponseValue(ParseFields(EncodeFields(fields), 0)) == Success(FirstVarint(fields, 1))
  {
    hide ParseFields, EncodeFields, FirstVarint, Field.Ok;
    ParseSuffix(EncodeFields(fields), 0, fields);
  }

  // ----- _first_varint_field and _first_bytes_field -----

  datatype ReaderError = UnexpectedWireType | MissingField | Malformed(error: FieldError)

  /** Reads fields of one wire type only: the first with the number wins, any other wire type before it fails. */
  function ScanFor(parsed: Parsed, number: nat, wireType: nat): Result<Field, ReaderError>
    decreases |parsed.fields|
  {
    if parsed.fields == [] then
      match parsed.failure
      case None => Failure(MissingField)
      case Some(f) =>
        if f.wireType.Some? && f.wireType != Some(wireType) then Failure(UnexpectedWireType)
        else Failure(Malformed(f.error))
    else
      var first := parsed.fields[0];
      if first.WireType() != wireType then Failure(UnexpectedWireType)
      else if first.number == number then Success(first)
      else ScanFor(Parsed(parsed.fields[1..], parsed.failure), number, wireType)
  }

  /** A scan succeeds exactly with the first field of its number that only fields of its own wire type precede. */
  lemma {:induction false} ScanForIff(parsed: Parsed, number: nat, wireType: nat, f: Field)
    ensures ScanFor(parsed, number, wireType) == Success(f) <==>
              exists i | 0 <= i < |parsed.fields| ::
                && parsed.fields[i] == f && f.number == number && f.WireType() == wireType
                && forall j | 0 <= j < i :: parsed.fields[j].WireType() == wireType && parsed.fields[j].number != number
    decreases |parsed.fields|
  {
    if parsed.fields != [] {
      var tail := Parsed(parsed.fields[1..], parsed.failure);
      ScanForIff(tail, number, wireType, f);
      if ScanFor(parsed, number, wireType) == Success(f) {
        if parsed.fields[0].number != number {
          var i :| 0 <= i < |tail.fields| && tail.fields[i] == f
                   && forall j | 0 <= j < i :: tail.fields[j].WireType() == wireType && tail.fields[j].number != number;
          assert parsed.fields[i + 1] == f;
          forall j | 0 <= j < i + 1
            ensures parsed.fields[j].WireType() == wireType && parsed.fields[j].number != number
          {
            if j > 0 {
              assert parsed.fields[j] == tail.fields[j - 1];
            }
          }
        }
      }
      if i :| 0 <= i < |parsed.fields| && parsed.fields[i] == f && f.number == number && f.WireType() == wireType
              && forall j | 0 <= j < i :: parsed.fields[j].WireType() == wireType && parsed.fields[j].number != number {
        if i > 0 {
          assert tail.fields[i - 1] == f;
          assert forall j | 0 <= j < i - 1 :: tail.fields[j] == parsed.fields[j + 1];
        }
      }
    }
  }

  /** A scan fails for the wire type exactly when a field of another type, whole or broken off, comes before any field
      with the number, and for a missing field when there are only whole fields of the type with other numbers. */
  lemma {:induction false} ScanFailsIff(parsed: Parsed, number: nat, wireType: nat)
    ensures ScanFor(parsed, number, wireType) == Failure(UnexpectedWireType) <==>
              exists i | 0 <= i <= |parsed.fields| ::
                && PassesUpTo(parsed.fields, number, wireType, i)
                && if i < |parsed.fields| then parsed.fields[i].WireType() != wireType
                   else parsed.failure.Some? && parsed.failure.value.wireType.Some?
                        && parsed.failure.value.wireType != Some(wireType)
    ensures ScanFor(parsed, number, wireType) == Failure(MissingField) <==>
              PassesUpTo(parsed.fields, number, wireType, |parsed.fields|) && parsed.failure.None?
    decreases |parsed.fields|
  {
    hide PassesUpTo;
    if parsed.fields == [] {
      PassesNone(parsed.fields, number, wireType);
    } else {
      var tail := Parsed(parsed.fields[1..], parsed.failure);
      ScanFailsIff(tail, number, wireType);
      forall i | 0 < i <= |parsed.fields|
        ensures PassesUpTo(parsed.fields, number, wireType, i) <==>
                  && parsed.fields[0].WireType() == wireType && parsed.fields[0].number != number
                  && PassesUpTo(tail.fields, number, wireType, i - 1)
      {
        PassesCons(parsed.fields, number, wireType, i);
      }
      PassesNone(parsed.fields, number, wireType);
      assert forall i | 0 <= i < |tail.fields| :: tail.fields[i] == parsed.fields[i + 1];
      if i :| 0 <= i <= |tail.fields| && PassesUpTo(tail.fields, number, wireType, i)
              && if i < |tail.fields| then tail.fields[i].WireType() != wireType
                 else parsed.failure.Some? && parsed.failure.value.wireType.Some?
                      && parsed.failure.value.wireType != Some(wireType) {
        assert PassesUpTo(parsed.fields, number, wireType, i + 1)
          <==> parsed.fields[0].WireType() == wireType && parsed.fields[0].number != number;
      }
    }
  }

  /** The first `i` fields are of the type and have other numbers. */
  predicate PassesUpTo(fields: seq<Field>, number: nat, wireType: nat, i: nat)
    requires i <= |fields|
  {
    forall j | 0 <= j < i :: fields[j].WireType() == wireType && fields[j].number != number
  }

  lemma PassesNone(fields: seq<Field>, number: nat, wireType: nat)
    ensures PassesUpTo(fields, number, wireType, 0)
  {
  }

  lemma PassesCons(fields: seq<Field>, number: nat, wireType: nat, i: nat)
    requires 0 < i <= |fields|
    ensures PassesUpTo(fields, number, wireType, i) <==>
              && fields[0].WireType() == wireType && fields[0].number != number
              && PassesUpTo(fields[1..], number, wireType, i - 1)
  {
    var rest := fields[1..];
    assert forall j | 0 <= j < i - 1 :: rest[j] == fields[j + 1];
    assert forall j | 0 < j < i :: fields[j] == rest[j - 1];
  }

  /** In a list of fields of one wire type the scan finds the field at `i` when no earlier one has its number. */
  lemma ScanFinds(fields: seq<Field>, number: nat, wireType: nat, i: nat)
    requires i < |fields| && fields[i].number == number
    requires forall j | 0 <= j < |fields| :: fields[j].WireType() == wireType
    requires forall j | 0 <= j < i :: fields[j].number != number
    ensures ScanFor(Parsed(fields, None), number, wireType) == Success(fields[i])
  {
    ScanForIff(Parsed(fields, None), number, wireType, fields[i]);
  }

  /** ... and reports a missing field when no field has the number. */
  lemma {:induction false} ScanMisses(fields: seq<Field>, number: nat, wireType: nat)
    requires forall j | 0 <= j < |fields| :: fields[j].WireType() == wireType && fields[j].number != number
    ensures ScanFor(Parsed(fields, None), number, wireType) == Failure(MissingField)
    decreases |fields|
  {
    if fields != [] {
      ScanMisses(fields[1..], number, wireType);
    }
  }

  function FirstVarintField(payload: bytes, number: nat): Result<nat, ReaderError> {
    var f :- ScanFor(ParseFields(payload, 0), number, 0);
    if f.VarintField? then Success(f.value) else Failure(MissingField)
  }

  function FirstBytesField(payload: bytes, number: nat): Result<bytes, ReaderError> {
    var f :- ScanFor(ParseFields(payload, 0), number, 2);
    if f.BytesField? then Success(f.data) else Failure(MissingField)
  }

  /** How a scan goes on after one field was parsed, or failed to parse. */
  function ScanFrom(payload: bytes, first: Result<(Field, nat), FieldFailure>, number: nat, wireType: nat)
    : Result<Field, ReaderError>
  {
    if first.Failure? then
      if first.error.wireType.Some? && first.error.wireType != Some(wireType) then Failure(UnexpectedWireType)
      else Failure(Malformed(first.error.error))
    else
      var (f, end) := first.value;
      if f.WireType() != wireType then Failure(UnexpectedWireType)
      else if f.number == number then Success(f)
      else ScanFor(ParseFields(payload, end), number, wireType)
  }

  /** One step of a scan, in terms of the field parsed at an offset. */
  lemma ScanStep(payload: bytes, offset: nat, number: nat, wireType: nat)
    requires offset < |payload|
    ensures ScanFor(ParseFields(payload, offset), number, wireType)
         == ScanFrom(payload, ParseField(payload, offset), number, wireType)
  {
    hide ParseField;
    var first := ParseField(payload, offset);
    if first.Success? {
      var rest := ParseFields(payload, first.value.1);
      assert ([first.value.0] + rest.fields)[1..] == rest.fields;
    }
  }

  lemma NothingToScan(payload: bytes, number: nat, wireType: nat)
    ensures ScanFor(ParseFields(payload, |payload|), number, wireType) == Failure(MissingField)
  {
  }

  method ReadFirstVarint(payload: bytes, number: nat) returns (r: Result<nat, ReaderError>)
    ensures r == FirstVarintField(payload, number)
  {
    hide ParseFields, ScanFor, DecodeVarint;
    NothingToScan(payload, number, 0);
    var offset: nat := 0;
    while offset < |payload|
      invariant offset <= |payload|
      invariant ScanFor(ParseFields(payload, offset), number, 0) == ScanFor(ParseFields(payload, 0), number, 0)
      decreases |payload| - offset
    {
      ScanStep(payload, offset, number, 0);
      var tag := DecodeVarint(payload, offset, 10);
      if tag.Failure? {
        return Failure(Malformed(BadFieldVarint(tag.error)));
      }
      if tag.value.0 % 8 != 0 {
        return Failure(UnexpectedWireType);
      }
      var value := DecodeVarint(payload, tag.value.1, 10);
      if value.Failure? {
        return Failure(Malformed(BadFieldVarint(value.error)));
      }
      if tag.value.0 / 8 == number {
        return Success(value.value.0);
      }
      offset := value.value.1;
    }
    return Failure(MissingField);
  }

  method ReadFirstBytes(payload: bytes, number: nat) returns (r: Result<bytes, ReaderError>)
    ensures r == FirstBytesField(payload, number)
  {
    hide ParseFields, ScanFor, DecodeVarint;
    NothingToScan(payload, number, 2);
    var offset: nat := 0;
    while offset < |payload|
      invariant offset <= |payload|
      invariant ScanFor(ParseFields(payload, offset), number, 2) == ScanFor(ParseFields(payload, 0), number, 2)
      decreases |payload| - offset
    {
      ScanStep(payload, offset, number, 2);
      var tag := DecodeVarint(payload, offset, 10);
      if tag.Failure? {
        return Failure(Malformed(BadFieldVarint(tag.error)));
      }
      if tag.value.0 % 8 != 2 {
        return Failure(UnexpectedWireType);
      }
      var length := DecodeVarint(payload, tag.value.1, 10);
      if length.Failure? {
        return Failure(Malformed(BadFieldVarint(length.error)));
      }
      var start, end := length.value.1, length.value.1 + length.value.0;
      if end > |payload| {
        return Failure(Malformed(TruncatedField));
      }
      if tag.value.0 / 8 == number {
        return Success(payload[start..end]);
      }
      offset := end;
    }
    return Failure(MissingField);
  }

  // ----- the payloads the client builds -----

  datatype BuildError = BadFieldNumber | NegativeTime | NegativeAck

  function EncodeProtobufVarint(number: int, value: int): Result<bytes, BuildError> {
    if number <= 0 then Failure(BadFieldNumber)
    else Success(EncodeField(VarintField(number, value % UINT64)))
  }

  function EncodeProtobufBytes(number: int, value: bytes): Result<bytes, BuildError> {
    if number <= 0 then Failure(BadFieldNumber)
    else Success(EncodeField(BytesField(number, value)))
  }

  function BuildLanAuthRequest(user: bytes, password: bytes): bytes {
    EncodeProtobufBytes(2, user).value + EncodeProtobufBytes(3, password).value
  }

  function BuildTimeSyncResponse(request: bytes, nowMs: int): Result<bytes, ReaderError> {
    var timestamp :- FirstVarintField(request, 1);
    Success(EncodeProtobufVarint(1, timestamp).value + EncodeProtobufVarint(2, -30).value
            + EncodeProtobufVarint(3, nowMs).value)
  }

  function BuildTimeRequest(nowMs: int, ack: Option<int>): Result<bytes, BuildError> {
    if nowMs < 0 then Failure(NegativeTime)
    else if ack.Some? && ack.value < 0 then Failure(NegativeAck)
    else if ack.None? then EncodeProtobufVarint(1, nowMs)
    else Success(EncodeProtobufVarint(1, nowMs).value + EncodeProtobufVarint(4, ack.value).value)
  }

  lemma EncodeOne(a: Field)
    ensures EncodeFields([a]) == EncodeField(a)
  {
    assert EncodeFields([a]) == EncodeField(a) + [];
  }

  lemma EncodeTwo(a: Field, b: Field)
    ensures EncodeFields([a, b]) == EncodeField(a) + EncodeField(b)
  {
    assert [a, b][1..] == [b] && [b][1..] == [];
    assert EncodeFields([b]) == EncodeField(b) + [];
  }

  lemma EncodeThree(a: Field, b: Field, c: Field)
    ensures EncodeFields([a, b, c]) == EncodeField(a) + EncodeField(b) + EncodeField(c)
  {
    assert [a, b, c][1..] == [b, c];
    EncodeTwo(b, c);
  }

  lemma ParseWhole(fields: seq<Field>)
    requires forall i | 0 <= i < |fields| :: fields[i].Ok()
    ensures ParseFields(EncodeFields(fields), 0) == Parsed(fields, None)
  {
    hide ParseFields, EncodeFields, Field.Ok;
    ParseSuffix(EncodeFields(fields), 0, fields);
  }

  /** The authentication request carries the user in field 2 and the password in field 3. */
  lemma AuthReadsBack(user: bytes, password: bytes)
    requires |user| < Pow128(10) && |password| < Pow128(10)
    ensures FirstBytesField(BuildLanAuthRequest(user, password), 2) == Success(user)
    ensures FirstBytesField(BuildLanAuthRequest(user, password), 3) == Success(password)
  {
    hide EncodeField, ScanFor, ParseFields;
    Pow128Values();
    var a, b := BytesField(2, user), BytesField(3, password);
    EncodeTwo(a, b);
    ParseWhole([a, b]);
    ScanFinds([a, b], 2, 2, 0);
    ScanFinds([a, b], 3, 2, 1);
  }

  /** What the builders refuse: field numbers that are not positive, and negative times and acknowledgements. A
      time-sync request without a first field 1 has no response, and why not is what reading it says. */
  lemma BuildersRefuse(number: int, value: int, data: bytes, nowMs: int, ack: Option<int>, request: bytes)
    ensures EncodeProtobufVarint(number, value).Success? <==> number > 0
    ensures EncodeProtobufBytes(number, data).Success? <==> number > 0
    ensures BuildTimeRequest(nowMs, ack).Success? <==> nowMs >= 0 && (ack.Some? ==> ack.value >= 0)
    ensures BuildTimeRequest(nowMs, ack) == Failure(NegativeTime) <==> nowMs < 0
    ensures match FirstVarintField(request, 1)
            case Failure(e) => BuildTimeSyncResponse(request, nowMs) == Failure(e)
            case Success(_) => BuildTimeSyncResponse(request, nowMs).Success?
  {
    hide FirstVarintField;
  }

  /** The time-sync response carries the request's timestamp, -30 and the clock, each modulo 2^64; the timestamp
      is echoed exactly when it is below 2^64. */
  lemma TimeSyncReadsBack(request: bytes, nowMs: int)
    requires FirstVarintField(request, 1).Success?
    ensures
      var timestamp := FirstVarintField(request, 1).value;
      var response := BuildTimeSyncResponse(request, nowMs);
      && response.Success?
      && FirstVarintField(response.value, 1) == Success(timestamp % 0x1_0000_0000_0000_0000)
      && (FirstVarintField(response.value, 1) == FirstVarintField(request, 1) <==> timestamp < 0x1_0000_0000_0000_0000)
      && FirstVarintField(response.value, 2) == Success(0x1_0000_0000_0000_0000 - 30)
      && FirstVarintField(response.value, 3) == Success(nowMs % 0x1_0000_0000_0000_0000)
  {
    hide EncodeField, ScanFor, ParseFields;
    Pow128Values();
    var timestamp := FirstVarintField(request, 1).value;
    var a, b, c := VarintField(1, timestamp % UINT64), VarintField(2, UINT64 - 30), VarintField(3, nowMs % UINT64);
    assert (-30) % UINT64 == UINT64 - 30;
    EncodeThree(a, b, c);
    ParseWhole([a, b, c]);
    ScanFinds([a, b, c], 1, 0, 0);
    ScanFinds([a, b, c], 2, 0, 1);
    ScanFinds([a, b, c], 3, 0, 2);
  }

  /** A request whose timestamp is 2^64 is read as such, and its reply carries 0 in the timestamp's place. */
  lemma TimestampIsLost(nowMs: int)
    ensures
      var request := EncodeFields([VarintField(1, 0x1_0000_0000_0000_0000)]);
      && FirstVarintField(request, 1) == Success(0x1_0000_0000_0000_0000)
      && BuildTimeSyncResponse(request, nowMs).Success?
      && FirstVarintField(BuildTimeSyncResponse(request, nowMs).value, 1) == Success(0)
  {
    hide EncodeField, EncodeFields, ScanFor, ParseFields;
    Pow128Values();
    var fields := [VarintField(1, UINT64)];
    ParseWhole(fields);
    ScanFinds(fields, 1, 0, 0);
    TimeSyncReadsBack(EncodeFields(fields), nowMs);
  }

  /** A heartbeat carries the clock in field 1 and, when there is one, the acknowledged AV sequence in field 4. */
  lemma HeartbeatReadsBack(nowMs: nat, ack: Option<int>)
    requires ack.Some? ==> ack.value >= 0
    ensures
      var request := BuildTimeRequest(nowMs, ack);
      && request.Success?
      && FirstVarintField(request.value, 1) == Success(nowMs % 0x1_0000_0000_0000_0000)
      && FirstVarintField(request.value, 4)
         == if ack.Some? then Success(ack.value % 0x1_0000_0000_0000_0000) else Failure(MissingField)
  {
    hide EncodeField, ScanFor, ParseFields;
    Pow128Values();
    var a := VarintField(1, nowMs % UINT64);
    if ack.Some? {
      var b := VarintField(4, ack.value % UINT64);
      EncodeTwo(a, b);
      ParseWhole([a, b]);
      ScanFinds([a, b], 1, 0, 0);
      ScanFinds([a, b], 4, 0, 1);
    } else {
      EncodeOne(a);
      ParseWhole([a]);
      ScanFinds([a], 1, 0, 0);
      ScanMisses([a], 4, 0);
    }
  }
}
