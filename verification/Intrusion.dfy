/** The weekly intrusion schedule and its protobuf payload. */
module Intrusion {
  import opened Basics
  import opened Varint
  import opened Protobuf

  /** A `datetime.time`, with the parts the schedule refuses. */
  datatype Time = Time(hour: nat, minute: nat, second: nat, microsecond: nat, hasZone: bool) {
    predicate InRange() {
      hour < 24 && minute < 60 && second < 60 && microsecond < 1_000_000
    }

    predicate MinutePrecision() {
      !hasZone && second == 0 && microsecond == 0
    }

    function Seconds(): nat {
      hour * 3600 + minute * 60
    }
  }

  datatype Schedule = Schedule(days: seq<int>, start: Time, end: Time) {
    /** What construction guarantees. */
    predicate Valid() {
      && days != []
      && (forall i | 0 <= i < |days| :: 0 <= days[i] <= 6)
      && (forall i, j | 0 <= i < j < |days| :: days[i] < days[j])
      && start.InRange() && end.InRange()
      && start.MinutePrecision() && end.MinutePrecision()
      && start.Seconds() <= end.Seconds()
    }
  }

  datatype ScheduleError = NoDays | DayOutOfRange | DaysNotSorted | NotMinutePrecision | CrossesMidnight

  predicate StrictlySorted(days: seq<int>) {
    forall i | 0 < i < |days| :: days[i - 1] < days[i]
  }

  /** The checks of the constructor, in its order. */
  function MakeSchedule(days: seq<int>, start: Time, end: Time): Result<Schedule, ScheduleError>
    requires start.InRange() && end.InRange()
  {
    if days == [] then Failure(NoDays)
    else if exists i | 0 <= i < |days| :: !(0 <= days[i] <= 6) then Failure(DayOutOfRange)
    else if !StrictlySorted(days) then Failure(DaysNotSorted)
    else if !start.MinutePrecision() || !end.MinutePrecision() then Failure(NotMinutePrecision)
    else if start.hour > end.hour || (start.hour == end.hour && start.minute > end.minute) then Failure(CrossesMidnight)
    else Success(Schedule(days, start, end))
  }

  lemma {:induction false} SortedApart(days: seq<int>, i: nat, j: nat)
    requires StrictlySorted(days) && i < j < |days|
    ensures days[i] < days[j]
    decreases j
  {
    if i < j - 1 {
      SortedApart(days, i, j - 1);
    }
  }

  /** Construction succeeds exactly for the valid schedules, and keeps what it was given. */
  lemma MakeScheduleIff(days: seq<int>, start: Time, end: Time)
    requires start.InRange() && end.InRange()
    ensures MakeSchedule(days, start, end).Success? <==> Schedule(days, start, end).Valid()
    ensures MakeSchedule(days, start, end).Success? ==>
              MakeSchedule(days, start, end).value == Schedule(days, start, end)
  {
    if StrictlySorted(days) {
      forall i, j | 0 <= i < j < |days|
        ensures days[i] < days[j]
      {
        SortedApart(days, i, j);
      }
    }
  }

  /** Which of its checks a schedule fails: days first, and times before their order. */
  lemma ScheduleRefusals(days: seq<int>, start: Time, end: Time)
    requires start.InRange() && end.InRange()
    ensures MakeSchedule(days, start, end) == Failure(NoDays) <==> |days| == 0
    ensures MakeSchedule(days, start, end) == Failure(DayOutOfRange) <==>
              exists i | 0 <= i < |days| :: days[i] < 0 || days[i] > 6
    ensures MakeSchedule(days, start, end) == Failure(DaysNotSorted) <==>
              && (forall i | 0 <= i < |days| :: 0 <= days[i] <= 6)
              && exists i, j | 0 <= i < j < |days| :: days[i] >= days[j]
    ensures MakeSchedule(days, start, end) == Failure(NotMinutePrecision) ==>
              !start.MinutePrecision() || !end.MinutePrecision()
    ensures MakeSchedule(days, start, end) == Failure(CrossesMidnight) ==>
              start.MinutePrecision() && end.MinutePrecision() && start.Seconds() > end.Seconds()
  {
    if StrictlySorted(days) {
      forall i, j | 0 <= i < j < |days|
        ensures days[i] < days[j]
      {
        SortedApart(days, i, j);
      }
    }
  }

  // ----- encoding -----

  function DayBytes(days: seq<int>): (b: bytes)
    requires forall i | 0 <= i < |days| :: 0 <= days[i] <= 6
    ensures |b| == |days| && forall i | 0 <= i < |b| :: b[i] == days[i]
  {
    seq(|days|, i requires 0 <= i < |days| => days[i])
  }

  /** The inner time range: a midnight start is left out. */
  function RangeFields(s: Schedule): seq<Field> {
    (if s.start.Seconds() != 0 then [VarintField(1, s.start.Seconds())] else [])
    + [VarintField(2, s.end.Seconds())]
  }

  function ScheduleFields(s: Schedule): seq<Field>
    requires s.Valid()
  {
    [BytesField(2, DayBytes(s.days)), BytesField(3, EncodeFields(RangeFields(s))), VarintField(4, 1)]
  }

  /** The outer message: a disabled flag is left out. */
  function IntrusionFields(enabled: bool, s: Schedule): seq<Field>
    requires s.Valid()
  {
    (if enabled then [VarintField(2, 1)] else []) + [BytesField(3, EncodeFields(ScheduleFields(s)))]
  }

  function BuildIntrusionPayload(enabled: bool, s: Schedule): bytes
    requires s.Valid()
  {
    var end := EncodeField(VarintField(2, s.end.Seconds()));
    var timeRange := if s.start.Seconds() != 0 then EncodeField(VarintField(1, s.start.Seconds())) + end else end;
    var nested := EncodeField(BytesField(2, DayBytes(s.days))) + EncodeField(BytesField(3, timeRange))
                  + EncodeField(VarintField(4, 1));
    var payload := EncodeField(BytesField(3, nested));
    if enabled then EncodeField(VarintField(2, 1)) + payload else payload
  }

  /** The payload is the encoding of its fields. */
  lemma PayloadIsFields(enabled: bool, s: Schedule)
    requires s.Valid()
    ensures BuildIntrusionPayload(enabled, s) == EncodeFields(IntrusionFields(enabled, s))
  {
    hide EncodeField;
    var a, b := VarintField(1, s.start.Seconds()), VarintField(2, s.end.Seconds());
    EncodeTwo(a, b);
    EncodeOne(b);
    assert RangeFields(s) == if s.start.Seconds() != 0 then [a, b] else [b];
    var fields := ScheduleFields(s);
    EncodeThree(fields[0], fields[1], fields[2]);
    var body := BytesField(3, EncodeFields(fields));
    EncodeTwo(VarintField(2, 1), body);
    EncodeOne(body);
    assert IntrusionFields(enabled, s) == if enabled then [VarintField(2, 1), body] else [body];
  }

  // ----- a reference decoder -----

  function FirstBytes(fields: seq<Field>, number: nat): Option<bytes> {
    if fields == [] then None
    else if fields[0].BytesField? && fields[0].number == number then Some(fields[0].data)
    else FirstBytes(fields[1..], number)
  }

  function TimeOf(seconds: nat): Time {
    Time(seconds / 3600, seconds % 3600 / 60, 0, 0, false)
  }

  /** Reads a payload back: a missing flag means disabled, a missing start means midnight, and a schedule that is not
      marked as in use is none. */
  function DecodeIntrusion(payload: bytes): Option<(bool, Schedule)> {
    var outer := ParseFields(payload, 0).fields;
    match FirstBytes(outer, 3)
    case None => None
    case Some(nested) =>
      var inner := ParseFields(nested, 0).fields;
      match (FirstBytes(inner, 2), FirstBytes(inner, 3), FirstVarint(inner, 4))
      case (Some(days), Some(timeRange), Some(1)) =>
        var times := ParseFields(timeRange, 0).fields;
        (match FirstVarint(times, 2)
         case None => None
         case Some(end) =>
           var start := match FirstVarint(times, 1) case Some(v) => v case None => 0;
           Some((FirstVarint(outer, 2) == Some(1), Schedule(days, TimeOf(start), TimeOf(end)))))
      case _ => None
  }

  /** The nested messages are small, so their length prefixes are always readable. */
  lemma SmallFields(s: Schedule)
    requires s.Valid()
    ensures forall i | 0 <= i < |RangeFields(s)| :: RangeFields(s)[i].Ok()
    ensures forall i | 0 <= i < |ScheduleFields(s)| :: ScheduleFields(s)[i].Ok()
    ensures forall enabled: bool, i | 0 <= i < |IntrusionFields(enabled, s)| :: IntrusionFields(enabled, s)[i].Ok()
  {
    hide EncodeVarint, Pow128;
    Pow128Values();
    Pow128Three();
    DaysAreFew(s);
    var a, b := VarintField(1, s.start.Seconds()), VarintField(2, s.end.Seconds());
    EncodeTwo(a, b);
    EncodeOne(b);
    EncodedLength(a.Tag(), 3);
    EncodedLength(b.Tag(), 3);
    EncodedLength(s.start.Seconds(), 3);
    EncodedLength(s.end.Seconds(), 3);
    assert |EncodeFields(RangeFields(s))| <= 12;
    var fields := ScheduleFields(s);
    EncodeThree(fields[0], fields[1], fields[2]);
    EncodedLength(fields[0].Tag(), 3);
    EncodedLength(fields[1].Tag(), 3);
    EncodedLength(fields[2].Tag(), 3);
    EncodedLength(|s.days|, 3);
    EncodedLength(|EncodeFields(RangeFields(s))|, 3);
    EncodedLength(1, 3);
    assert |EncodeFields(fields)| <= 100;
  }

  lemma Pow128Three()
    ensures Pow128(3) == 2_097_152
  {
    assert Pow128(3) == 128 * Pow128(2) == 128 * 128 * Pow128(1);
  }

  lemma {:induction false} DayAtLeastIndex(days: seq<int>, i: nat)
    requires forall k | 0 <= k < |days| :: 0 <= days[k]
    requires forall j, k | 0 <= j < k < |days| :: days[j] < days[k]
    requires i < |days|
    ensures days[i] >= i
  {
    if i > 0 {
      DayAtLeastIndex(days, i - 1);
    }
  }

  lemma DaysAreFew(s: Schedule)
    requires s.Valid()
    ensures |s.days| <= 7
  {
    DayAtLeastIndex(s.days, |s.days| - 1);
  }

  lemma FirstVarintOfTwo(a: Field, b: Field, number: nat)
    ensures FirstVarint([a, b], number)
         == if a.VarintField? && a.number == number then Some(a.value)
            else if b.VarintField? && b.number == number then Some(b.value) else None
    ensures FirstVarint([b], number) == if b.VarintField? && b.number == number then Some(b.value) else None
  {
    FirstVarintCons(a, [b], number);
    FirstVarintCons(b, [], number);
    assert [a] + [b] == [a, b] && [b] + [] == [b];
  }

  /** Seconds count from midnight: sixty for every minute on the way to a time. */
  lemma SecondsCount(t: Time)
    requires t.InRange() && t.MinutePrecision()
    ensures t == Time(0, 0, 0, 0, false) ==> t.Seconds() == 0
    ensures t.minute > 0 ==> t.Seconds() == t.(minute := t.minute - 1).Seconds() + 60
    ensures t.minute == 0 && t.hour > 0 ==> t.Seconds() == t.(hour := t.hour - 1, minute := 59).Seconds() + 60
  {
  }

  lemma TimeRoundTrip(t: Time)
    requires t.InRange() && t.MinutePrecision()
    ensures TimeOf(t.Seconds()) == t
  {
    assert t.Seconds() / 3600 == t.hour && t.Seconds() % 3600 == t.minute * 60;
  }

  lemma RangeReads(s: Schedule)
    ensures FirstVarint(RangeFields(s), 2) == Some(s.end.Seconds())
    ensures FirstVarint(RangeFields(s), 1) == if s.start.Seconds() != 0 then Some(s.start.Seconds()) else None
  {
    hide FirstVarint;
    var a, b := VarintField(1, s.start.Seconds()), VarintField(2, s.end.Seconds());
    FirstVarintOfTwo(a, b, 1);
    FirstVarintOfTwo(a, b, 2);
    assert RangeFields(s) == if s.start.Seconds() != 0 then [a, b] else [b];
  }

  lemma ScheduleReads(s: Schedule)
    requires s.Valid()
    ensures FirstBytes(ScheduleFields(s), 2) == Some(s.days)
    ensures FirstBytes(ScheduleFields(s), 3) == Some(EncodeFields(RangeFields(s)))
    ensures FirstVarint(ScheduleFields(s), 4) == Some(1)
  {
    hide EncodeFields, RangeFields, FirstVarint;
    var inner := ScheduleFields(s);
    assert inner[1..][0] == inner[1];
    FirstVarintOfTwo(inner[1], inner[2], 4);
    assert [inner[0]] + [inner[1], inner[2]] == inner;
    FirstVarintCons(inner[0], [inner[1], inner[2]], 4);
    assert DayBytes(s.days) == s.days;
  }

  lemma OuterReads(enabled: bool, s: Schedule)
    requires s.Valid()
    ensures (FirstVarint(IntrusionFields(enabled, s), 2) == Some(1)) == enabled
    ensures FirstBytes(IntrusionFields(enabled, s), 3) == Some(EncodeFields(ScheduleFields(s)))
  {
    hide EncodeFields, ScheduleFields, FirstVarint;
    var flag, body := VarintField(2, 1), BytesField(3, EncodeFields(ScheduleFields(s)));
    FirstVarintOfTwo(flag, body, 2);
    assert IntrusionFields(enabled, s) == if enabled then [flag, body] else [body];
    assert [flag, body][1..] == [body];
  }

  /** The decoder recovers the flag, the days and both times from the payload of every valid schedule. */
  lemma IntrusionRoundTrip(enabled: bool, s: Schedule)
    requires s.Valid()
    ensures DecodeIntrusion(BuildIntrusionPayload(enabled, s)) == Some((enabled, s))
  {
    hide EncodeFields, ParseFields, Field.Ok, FirstVarint, FirstBytes, BuildIntrusionPayload;
    hide RangeFields, ScheduleFields, IntrusionFields, TimeOf;
    PayloadIsFields(enabled, s);
    SmallFields(s);
    ParseWhole(RangeFields(s));
    ParseWhole(ScheduleFields(s));
    ParseWhole(IntrusionFields(enabled, s));
    RangeReads(s);
    ScheduleReads(s);
    OuterReads(enabled, s);
    TimeRoundTrip(s.start);
    TimeRoundTrip(s.end);
  }

  /** The encoding loses nothing: equal payloads come from equal settings. */
  lemma IntrusionInjective(enabled: bool, s: Schedule, enabled': bool, s': Schedule)
    requires s.Valid() && s'.Valid()
    requires BuildIntrusionPayload(enabled, s) == BuildIntrusionPayload(enabled', s')
    ensures enabled == enabled' && s == s'
  {
    IntrusionRoundTrip(enabled, s);
    IntrusionRoundTrip(enabled', s');
  }
}
