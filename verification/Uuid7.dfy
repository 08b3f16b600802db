/**
 Time-ordered identifiers (version 7 of RFC 9562, section 5.7): their bytes and text, and what one call
 of the generator makes of its last timestamp, its counter and the clock.
 */
module Uuid7 {
  import opened Wrappers

  type Byte = b: int | 0 <= b < 256

  const MAX_COUNTER := 0x0fff
  const TIME_SPAN := 0x1_0000_0000_0000

  /** What the generator keeps between calls. */
  datatype State = State(last: int, counter: int)

  const FRESH := State(-1, 0)

  predicate Valid(s: State) {
    s == FRESH || (0 <= s.last && 0 <= s.counter <= MAX_COUNTER)
  }

  /** The random bytes of one call: two for a counter's seed, and the last eight of the identifier. */
  datatype Entropy = Entropy(high: Byte, low: Byte, tail: seq<Byte>)

  predicate Enough(e: Entropy) {
    |e.tail| == 8
  }

  /** A seed in the lower half of the counter's range. */
  function Seed(e: Entropy): (seed: nat)
    ensures seed <= 0x07ff
  {
    (e.high * 256 + e.low) % 0x800
  }

  /** The clock has not passed the last timestamp, and the millisecond's counter is used up. */
  predicate Borrows(s: State, nowMs: int) {
    nowMs <= s.last && s.counter + 1 > MAX_COUNTER
  }

  function Next(s: State, nowMs: int, e: Entropy): State {
    if nowMs > s.last then State(nowMs, Seed(e))
    else if s.counter + 1 > MAX_COUNTER then State(s.last + 1, Seed(e) + 1)
    else State(s.last, s.counter + 1)
  }

  // ----- Bytes -----

  function Power(n: nat): nat {
    if n == 0 then 1 else 256 * Power(n - 1)
  }

  /** The `n` bytes of a number, most significant first. */
  function BigEndian(n: nat, v: nat): (bytes: seq<Byte>)
    ensures |bytes| == n
  {
    if n == 0 then [] else BigEndian(n - 1, v / 256) + [v % 256]
  }

  function Variant(b: Byte): Byte {
    0x80 + b % 64
  }

  /** Forty-eight bits of time, the version and the counter, then the variant and what is random. */
  function Head(s: State): nat
    requires 0 <= s.counter <= MAX_COUNTER
  {
    s.last % TIME_SPAN * 0x10000 + 0x7000 + s.counter
  }

  function Bytes(s: State, e: Entropy): (bytes: seq<Byte>)
    requires 0 <= s.counter <= MAX_COUNTER && Enough(e)
    ensures |bytes| == 16
  {
    BigEndian(8, Head(s)) + [Variant(e.tail[0])] + e.tail[1..]
  }

  // ----- Text -----

  const DIGITS := "0123456789abcdef"

  function HexOf(bytes: seq<Byte>): (hex: string)
    ensures |hex| == 2 * |bytes|
  {
    if bytes == [] then ""
    else HexOf(bytes[..|bytes| - 1]) + [DIGITS[bytes[|bytes| - 1] / 16], DIGITS[bytes[|bytes| - 1] % 16]]
  }

  function Dashed(hex: string): string
    requires |hex| == 32
  {
    hex[..8] + "-" + hex[8..12] + "-" + hex[12..16] + "-" + hex[16..20] + "-" + hex[20..]
  }

  function Text(bytes: seq<Byte>): string
    requires |bytes| == 16
  {
    Dashed(HexOf(bytes))
  }

  function Id(s: State, e: Entropy): string
    requires 0 <= s.counter <= MAX_COUNTER && Enough(e)
  {
    Text(Bytes(s, e))
  }

  predicate IsHex(c: char) {
    '0' <= c <= '9' || 'a' <= c <= 'f' || 'A' <= c <= 'F'
  }

  function HexValue(c: char): nat
    requires IsHex(c)
  {
    if c <= '9' then c as int - '0' as int
    else if c <= 'F' then c as int - 'A' as int + 10
    else c as int - 'a' as int + 10
  }

  predicate IsDashAt(i: nat) {
    i == 8 || i == 13 || i == 18 || i == 23
  }

  predicate IsUuid(s: string) {
    |s| == 36 && forall i | 0 <= i < 36 :: if IsDashAt(i) then s[i] == '-' else IsHex(s[i])
  }

  function WithoutDashes(s: string): (t: string) {
    if s == "" then "" else (if s[0] == '-' then "" else [s[0]]) + WithoutDashes(s[1..])
  }

  /** Reads hexadecimal digits, stopping at anything else. */
  function ParseHex(s: string): nat {
    if s == "" then 0
    else if forall i | 0 <= i < |s| :: IsHex(s[i]) then 16 * ParseHex(s[..|s| - 1]) + HexValue(s[|s| - 1])
    else ParseHex(s[..|s| - 1])
  }

  function Timestamp(id: string): Option<nat> {
    if !IsUuid(id) then None
    else
      var hex := WithoutDashes(id);
      if |hex| <= 12 || hex[12] != '7' then None else Some(ParseHex(hex[..12]))
  }

  // ----- Order -----

  /** Text order: by the first place where two strings differ, a prefix coming first. */
  ghost predicate Less(a: string, b: string) {
    exists k: nat :: LessAt(a, b, k)
  }

  ghost predicate LessAt(a: string, b: string, k: nat) {
    k <= |a| && k < |b| && a[..k] == b[..k] && (k == |a| || a[k] < b[k])
  }

  ghost predicate BytesLessAt(a: seq<Byte>, b: seq<Byte>, k: nat) {
    k < |a| && k < |b| && a[..k] == b[..k] && a[k] < b[k]
  }

  lemma LessIsStrict(a: string, b: string)
    requires Less(a, b)
    ensures !Less(b, a) && a != b
  {
    var k: nat :| LessAt(a, b, k);
    forall j: nat
      ensures !LessAt(b, a, j)
    {
      if j < k {
        assert a[..k][j] == b[..k][j];
      } else if k < j && j <= |a| && j <= |b| {
        assert a[..j][k] != b[..j][k];
      }
    }
    assert a == b ==> LessAt(b, a, k);
  }

  lemma {:induction false} BigEndianOrder(n: nat, v: nat, w: nat)
    requires v < w < Power(n)
    ensures exists k: nat :: BytesLessAt(BigEndian(n, v), BigEndian(n, w), k)
  {
    if n > 0 {
      if v / 256 < w / 256 {
        BigEndianOrder(n - 1, v / 256, w / 256);
        var k: nat :| BytesLessAt(BigEndian(n - 1, v / 256), BigEndian(n - 1, w / 256), k);
        assert BytesLessAt(BigEndian(n, v), BigEndian(n, w), k)
            by { LongerLess(BigEndian(n - 1, v / 256), BigEndian(n - 1, w / 256), [v % 256], [w % 256], k); }
      } else {
        assert v / 256 == w / 256 && v % 256 < w % 256;
        assert BytesLessAt(BigEndian(n, v), BigEndian(n, w), n - 1);
      }
    }
  }

  lemma LongerLess(a: seq<Byte>, b: seq<Byte>, c: seq<Byte>, d: seq<Byte>, k: nat)
    requires BytesLessAt(a, b, k)
    ensures BytesLessAt(a + c, b + d, k)
  {
    assert (a + c)[..k] == a[..k] && (b + d)[..k] == b[..k];
  }

  lemma {:induction false} HexAt(bytes: seq<Byte>, k: nat)
    requires k < |bytes|
    ensures HexOf(bytes)[2 * k] == DIGITS[bytes[k] / 16] && HexOf(bytes)[2 * k + 1] == DIGITS[bytes[k] % 16]
    ensures HexOf(bytes)[..2 * k] == HexOf(bytes[..k])
    decreases |bytes|
  {
    var n := |bytes| - 1;
    if k < n {
      HexAt(bytes[..n], k);
      assert bytes[..n][..k] == bytes[..k];
    }
  }

  lemma DigitsAscend()
    ensures forall i, j :: 0 <= i < j < 16 ==> DIGITS[i] < DIGITS[j]
    ensures forall i :: 0 <= i < 16 ==> IsHex(DIGITS[i]) && HexValue(DIGITS[i]) == i && DIGITS[i] != '-'
  {
  }

  lemma HexOrder(a: seq<Byte>, b: seq<Byte>, k: nat)
    requires BytesLessAt(a, b, k)
    ensures LessAt(HexOf(a), HexOf(b), 2 * k) || LessAt(HexOf(a), HexOf(b), 2 * k + 1)
  {
    hide HexOf;
    HexAt(a, k);
    HexAt(b, k);
    DigitsAscend();
    LessByPair(HexOf(a), HexOf(b), k, a[k] / 16, a[k] % 16, b[k] / 16, b[k] % 16);
  }

  /** The two digits of a byte decide as the byte does. */
  lemma LessByPair(s: string, t: string, k: nat, a1: nat, a0: nat, b1: nat, b0: nat)
    requires 2 * k + 1 < |s| && 2 * k + 1 < |t| && s[..2 * k] == t[..2 * k]
    requires a1 < 16 && a0 < 16 && b1 < 16 && b0 < 16 && 16 * a1 + a0 < 16 * b1 + b0
    requires s[2 * k] == DIGITS[a1] && s[2 * k + 1] == DIGITS[a0] && t[2 * k] == DIGITS[b1]
    requires t[2 * k + 1] == DIGITS[b0]
    ensures LessAt(s, t, 2 * k) || LessAt(s, t, 2 * k + 1)
  {
    DigitsAscend();
    if a1 == b1 {
      assert s[..2 * k + 1] == s[..2 * k] + [s[2 * k]];
      assert t[..2 * k + 1] == t[..2 * k] + [t[2 * k]];
    }
  }

  /** Where the j-th hexadecimal digit stands among the dashes. */
  function Place(j: nat): nat {
    if j < 8 then j else if j < 12 then j + 1 else if j < 16 then j + 2 else if j < 20 then j + 3 else j + 4
  }

  /** The hexadecimal digit that stands at a place, but for the dashes. */
  function Digit(i: nat): nat {
    if i < 9 then i else if i < 14 then i - 1 else if i < 19 then i - 2 else if i < 24 then i - 3 else i - 4
  }

  lemma DashedAt(hex: string, i: nat)
    requires |hex| == 32 && i < 36
    ensures |Dashed(hex)| == 36
    ensures Dashed(hex)[i] == if IsDashAt(i) then '-' else hex[Digit(i)]
  {
  }

  lemma DashedOrder(a: string, b: string, j: nat)
    requires |a| == |b| == 32 && LessAt(a, b, j) && j < 32
    ensures LessAt(Dashed(a), Dashed(b), Place(j))
  {
    hide Dashed;
    var k := Place(j);
    DashedAt(a, k);
    DashedAt(b, k);
    assert !IsDashAt(k) && Digit(k) == j;
    forall i | 0 <= i < k
      ensures Dashed(a)[i] == Dashed(b)[i]
    {
      DashedAt(a, i);
      DashedAt(b, i);
      if !IsDashAt(i) {
        assert Digit(i) < j;
        assert a[..j][Digit(i)] == b[..j][Digit(i)];
      }
    }
  }

  lemma TextOrder(a: seq<Byte>, b: seq<Byte>, k: nat)
    requires |a| == |b| == 16 && BytesLessAt(a, b, k)
    ensures Less(Text(a), Text(b))
  {
    HexOrder(a, b, k);
    var j := if LessAt(HexOf(a), HexOf(b), 2 * k) then 2 * k else 2 * k + 1;
    DashedOrder(HexOf(a), HexOf(b), j);
  }

  lemma PowerEight()
    ensures Power(8) == 0x1_0000_0000_0000_0000
  {
    assert Power(4) == 0x1_0000_0000;
    assert Power(6) == 0x1_0000_0000_0000;
  }

  /** Identifiers are in the order of their times, and within one time of their counters. */
  lemma IdOrder(s: State, e: Entropy, t: State, f: Entropy)
    requires 0 <= s.counter <= MAX_COUNTER && 0 <= t.counter <= MAX_COUNTER && Enough(e) && Enough(f)
    requires s.last % TIME_SPAN < t.last % TIME_SPAN
        || (s.last % TIME_SPAN == t.last % TIME_SPAN && s.counter < t.counter)
    ensures Less(Id(s, e), Id(t, f))
  {
    hide BigEndian, Text;
    PowerEight();
    assert Head(s) < Head(t) < Power(8);
    BigEndianOrder(8, Head(s), Head(t));
    var k: nat :| BytesLessAt(BigEndian(8, Head(s)), BigEndian(8, Head(t)), k);
    LongerLess(BigEndian(8, Head(s)), BigEndian(8, Head(t)), [Variant(e.tail[0])] + e.tail[1..],
        [Variant(f.tail[0])] + f.tail[1..], k);
    assert Bytes(s, e) == BigEndian(8, Head(s)) + ([Variant(e.tail[0])] + e.tail[1..]);
    assert Bytes(t, f) == BigEndian(8, Head(t)) + ([Variant(f.tail[0])] + f.tail[1..]);
    TextOrder(Bytes(s, e), Bytes(t, f), k);
  }
}
