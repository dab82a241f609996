/** Derivation of the per-packet AES keys from public header values. */
module Keys {
  import opened Basics
  import opened Crypto

  const DASH := 45

  /** ASCII decimal digits, as string formatting prints a non-negative integer. */
  function Decimal(n: nat): (digits: bytes)
    ensures digits != []
    ensures forall d | d in digits :: 48 <= d < 58
  {
    if n < 10 then [48 + n] else Decimal(n / 10) + [48 + n % 10]
  }

  /** ",ID:<command>-SEQ:<sequence>-RPC:<type>" */
  function RpcKeySuffix(sequence: nat, commandId: nat, rpcType: nat): bytes {
    [44, 73, 68, 58] + (Decimal(commandId)
    + ([DASH, 83, 69, 81, 58] + (Decimal(sequence)
    + ([DASH, 82, 80, 67, 58] + Decimal(rpcType)))))
  }

  /** ",AVSeq:<sequence>-TT:<timestamp>-AVChannel:<channel>" */
  function AvKeySuffix(sequence: nat, timestamp: nat, channel: nat): bytes {
    [44, 65, 86, 83, 101, 113, 58] + (Decimal(sequence)
    + ([DASH, 84, 84, 58] + (Decimal(timestamp)
    + ([DASH, 65, 86, 67, 104, 97, 110, 110, 101, 108, 58] + Decimal(channel)))))
  }

  function DeriveRpcKey(suite: Suite, prefix: bytes, sequence: nat, commandId: nat, rpcType: nat): (key: bytes)
    ensures |key| == 32
  {
    suite.md5Hex(prefix + RpcKeySuffix(sequence, commandId, rpcType))
  }

  function DeriveAvKey(suite: Suite, prefix: bytes, sequence: nat, timestamp: nat, channel: nat): (key: bytes)
    ensures |key| == 32
  {
    suite.md5Hex(prefix + AvKeySuffix(sequence, timestamp, channel))
  }

  // ----- reading the hashed texts -----

  predicate IsDigit(b: byte) {
    48 <= b < 58
  }

  predicate AllDigits(text: bytes) {
    forall i | 0 <= i < |text| :: IsDigit(text[i])
  }

  function Pow10(n: nat): nat {
    if n == 0 then 1 else 10 * Pow10(n - 1)
  }

  /** The value of decimal digits, the most significant first: the sum of each digit times ten to its place. */
  function DigitSum(digits: bytes): int {
    if digits == [] then 0 else (digits[0] - 48) * Pow10(|digits| - 1) + DigitSum(digits[1..])
  }

  /** The number of digits at the front of a text. */
  function DigitsAhead(text: bytes): (n: nat)
    ensures n <= |text| && AllDigits(text[..n]) && (n < |text| ==> !IsDigit(text[n]))
  {
    if text == [] || !IsDigit(text[0]) then 0
    else
      var n := 1 + DigitsAhead(text[1..]);
      assert text[..n] == [text[0]] + text[1..][..n - 1];
      n
  }

  /** The characters of an ASCII text. */
  function Ascii(text: string): (b: bytes)
    requires forall i | 0 <= i < |text| :: text[i] < 128 as char
    ensures |b| == |text| && forall i | 0 <= i < |b| :: b[i] == text[i] as int
  {
    seq(|text|, i requires 0 <= i < |text| => text[i] as int)
  }

  /** Reads a tag and the number after it: the number, and the rest of the text. */
  function ReadTagged(text: bytes, tag: string): Option<(int, bytes)>
    requires forall i | 0 <= i < |tag| :: tag[i] < 128 as char
  {
    if !(Ascii(tag) <= text) then None
    else
      var after := text[|tag|..];
      var n := DigitsAhead(after);
      if n == 0 then None else Some((DigitSum(after[..n]), after[n..]))
  }

  /** Reads three tagged numbers that are the whole text. */
  function ReadThree(text: bytes, one: string, two: string, three: string): Option<(int, int, int)>
    requires forall i | 0 <= i < |one| :: one[i] < 128 as char
    requires forall i | 0 <= i < |two| :: two[i] < 128 as char
    requires forall i | 0 <= i < |three| :: three[i] < 128 as char
  {
    match ReadTagged(text, one)
    case None => None
    case Some((a, afterOne)) =>
      match ReadTagged(afterOne, two)
      case None => None
      case Some((b, afterTwo)) =>
        match ReadTagged(afterTwo, three)
        case None => None
        case Some((c, rest)) => if rest == [] then Some((a, b, c)) else None
  }

  /** The command, sequence and type that an RPC key text names. */
  function ReadRpcText(text: bytes): Option<(int, int, int)> {
    ReadThree(text, ",ID:", "-SEQ:", "-RPC:")
  }

  /** The sequence, timestamp and channel that an AV key text names. */
  function ReadAvText(text: bytes): Option<(int, int, int)> {
    ReadThree(text, ",AVSeq:", "-TT:", "-AVChannel:")
  }

  lemma {:induction false} DigitSumSnoc(digits: bytes, last: byte)
    ensures DigitSum(digits + [last]) == 10 * DigitSum(digits) + (last - 48)
    decreases |digits|
  {
    var all := digits + [last];
    if digits == [] {
      assert all == [last] && all[1..] == [] && Pow10(0) == 1;
    } else {
      assert all[1..] == digits[1..] + [last];
      DigitSumSnoc(digits[1..], last);
      var first: int, scale := digits[0], Pow10(|digits| - 1);
      var d := first - 48;
      assert Pow10(|digits|) == 10 * scale;
      assert d * (10 * scale) == 10 * (d * scale);
    }
  }

  /** A number is printed as decimal digits of that value, without leading zeros. */
  lemma {:induction false} DecimalIs(n: nat)
    ensures AllDigits(Decimal(n)) && DigitSum(Decimal(n)) == n
    ensures |Decimal(n)| > 1 ==> Decimal(n)[0] != 48
  {
    if n < 10 {
      assert [48 + n][1..] == [] && Pow10(0) == 1;
    } else {
      DecimalIs(n / 10);
      DigitSumSnoc(Decimal(n / 10), 48 + n % 10);
      assert n / 10 < 10 ==> Decimal(n / 10) == [48 + n / 10];
    }
  }

  /** A printed number is read back up to where no digit follows. */
  lemma NumberReads(text: bytes, tag: string, n: nat, rest: bytes)
    requires forall i | 0 <= i < |tag| :: tag[i] < 128 as char
    requires text == Ascii(tag) + (Decimal(n) + rest) && (rest != [] ==> !IsDigit(rest[0]))
    ensures ReadTagged(text, tag) == Some((n, rest))
  {
    hide Decimal, DigitSum;
    DecimalIs(n);
    var d := Decimal(n);
    var after := text[|tag|..];
    assert after == d + rest && Ascii(tag) <= text;
    var k := DigitsAhead(after);
    assert forall i | 0 <= i < |d| :: after[i] == d[i];
    assert rest != [] ==> after[|d|] == rest[0];
    assert forall i | 0 <= i < k :: after[..k][i] == after[i];
    assert k == |d|;
    assert after[..k] == d && after[k..] == rest;
  }

  /** The text hashed for an RPC key names the command, the sequence and the type, in this order. */
  lemma RpcTextReads(sequence: nat, commandId: nat, rpcType: nat)
    ensures ReadRpcText(RpcKeySuffix(sequence, commandId, rpcType)) == Some((commandId, sequence, rpcType))
  {
    hide Decimal, ReadTagged, DigitSum;
    var text := RpcKeySuffix(sequence, commandId, rpcType);
    var last: bytes := [DASH, 82, 80, 67, 58] + Decimal(rpcType);
    var middle: bytes := [DASH, 83, 69, 81, 58] + (Decimal(sequence) + last);
    assert Ascii(",ID:") == [44, 73, 68, 58];
    assert Ascii("-SEQ:") == [DASH, 83, 69, 81, 58];
    assert Ascii("-RPC:") == [DASH, 82, 80, 67, 58];
    NumberReads(text, ",ID:", commandId, middle);
    NumberReads(middle, "-SEQ:", sequence, last);
    assert Decimal(rpcType) + [] == Decimal(rpcType);
    NumberReads(last, "-RPC:", rpcType, []);
  }

  /** The text hashed for an AV key names the sequence, the timestamp and the channel, in this order. */
  lemma AvTextReads(sequence: nat, timestamp: nat, channel: nat)
    ensures ReadAvText(AvKeySuffix(sequence, timestamp, channel)) == Some((sequence, timestamp, channel))
  {
    hide Decimal, ReadTagged, DigitSum;
    var text := AvKeySuffix(sequence, timestamp, channel);
    var last: bytes := [DASH, 65, 86, 67, 104, 97, 110, 110, 101, 108, 58] + Decimal(channel);
    var middle: bytes := [DASH, 84, 84, 58] + (Decimal(timestamp) + last);
    assert Ascii(",AVSeq:") == [44, 65, 86, 83, 101, 113, 58];
    assert Ascii("-TT:") == [DASH, 84, 84, 58];
    assert Ascii("-AVChannel:") == [DASH, 65, 86, 67, 104, 97, 110, 110, 101, 108, 58];
    NumberReads(text, ",AVSeq:", sequence, middle);
    NumberReads(middle, "-TT:", timestamp, last);
    assert Decimal(channel) + [] == Decimal(channel);
    NumberReads(last, "-AVChannel:", channel, []);
  }

  /** Different (sequence, command, type) triples are hashed as different messages. */
  lemma RpcKeySuffixInjective(s: nat, c: nat, t: nat, s': nat, c': nat, t': nat)
    requires RpcKeySuffix(s, c, t) == RpcKeySuffix(s', c', t')
    ensures s == s' && c == c' && t == t'
  {
    RpcTextReads(s, c, t);
    RpcTextReads(s', c', t');
  }

  /** Different (sequence, timestamp, channel) triples are hashed as different messages. */
  lemma AvKeySuffixInjective(s: nat, t: nat, c: nat, s': nat, t': nat, c': nat)
    requires AvKeySuffix(s, t, c) == AvKeySuffix(s', t', c')
    ensures s == s' && t == t' && c == c'
  {
    AvTextReads(s, t, c);
    AvTextReads(s', t', c');
  }

  /** An RPC key is the digest of the prefix and a text that names the packet's command, sequence and type. */
  lemma RpcKeyIs(suite: Suite, prefix: bytes, sequence: nat, commandId: nat, rpcType: nat) returns (text: bytes)
    ensures ReadRpcText(text) == Some((commandId, sequence, rpcType))
    ensures DeriveRpcKey(suite, prefix, sequence, commandId, rpcType) == suite.md5Hex(prefix + text)
  {
    RpcTextReads(sequence, commandId, rpcType);
    text := RpcKeySuffix(sequence, commandId, rpcType);
  }

  /** An AV key is the digest of the prefix and a text that names the packet's sequence, timestamp and channel. */
  lemma AvKeyIs(suite: Suite, prefix: bytes, sequence: nat, timestamp: nat, channel: nat) returns (text: bytes)
    ensures ReadAvText(text) == Some((sequence, timestamp, channel))
    ensures DeriveAvKey(suite, prefix, sequence, timestamp, channel) == suite.md5Hex(prefix + text)
  {
    AvTextReads(sequence, timestamp, channel);
    text := AvKeySuffix(sequence, timestamp, channel);
  }
}
