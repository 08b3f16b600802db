/** What the identifiers of any run of the generator promise: their order, and the time read back from them. */
module Uuid7Theorems {
  import opened Wrappers
  import opened Characters
  import opened Uuid7

  // ----- Reading back -----

  lemma {:induction false} NoDashes(s: string, t: string)
    requires forall i | 0 <= i < |s| :: s[i] != '-'
    ensures WithoutDashes(s + t) == s + WithoutDashes(t)
    ensures WithoutDashes("-" + t) == WithoutDashes(t)
    decreases |s|
  {
    assert ("-" + t)[1..] == t;
    if s == "" {
      assert s + t == t;
    } else {
      assert (s + t)[1..] == s[1..] + t;
      NoDashes(s[1..], t);
    }
  }

  lemma DashesRemoved(hex: string)
    requires |hex| == 32 && forall i | 0 <= i < |hex| :: hex[i] != '-'
    ensures WithoutDashes(Dashed(hex)) == hex
  {
    hide WithoutDashes;
    var a, b, c, d, e := hex[..8], hex[8..12], hex[12..16], hex[16..20], hex[20..];
    NoDashes(e, "");
    assert e + "" == e && WithoutDashes("") == "" by { EmptyHasNoDashes(); }
    NoDashes(d, "-" + e);
    NoDashes(c, "-" + (d + ("-" + e)));
    NoDashes(b, "-" + (c + ("-" + (d + ("-" + e)))));
    NoDashes(a, "-" + (b + ("-" + (c + ("-" + (d + ("-" + e)))))));
    NoDashes("", e);
    NoDashes("", d + ("-" + e));
    NoDashes("", c + ("-" + (d + ("-" + e))));
    NoDashes("", b + ("-" + (c + ("-" + (d + ("-" + e))))));
    assert Dashed(hex) == a + ("-" + (b + ("-" + (c + ("-" + (d + ("-" + e)))))));
    assert hex == a + (b + (c + (d + e)));
  }

  lemma EmptyHasNoDashes()
    ensures WithoutDashes("") == ""
  {
  }

  lemma HexDigits(bytes: seq<Byte>, i: nat)
    requires i < 2 * |bytes|
    ensures IsHex(HexOf(bytes)[i]) && HexOf(bytes)[i] != '-'
  {
    HexAt(bytes, i / 2);
    DigitsAscend();
    assert i == 2 * (i / 2) || i == 2 * (i / 2) + 1;
  }

  lemma {:induction false} HexParses(n: nat, v: nat)
    requires v < Power(n)
    ensures ParseHex(HexOf(BigEndian(n, v))) == v
  {
    if n > 0 {
      HexParses(n - 1, v / 256);
      ParseOneByte(BigEndian(n - 1, v / 256), v % 256);
    }
  }

  lemma ParseOneByte(bytes: seq<Byte>, b: Byte)
    ensures ParseHex(HexOf(bytes + [b])) == 256 * ParseHex(HexOf(bytes)) + b
  {
    hide HexOf, ParseHex, IsHex;
    var hex := HexOf(bytes + [b]);
    HexAppend(bytes, b);
    forall i: nat | i < |hex|
      ensures IsHex(hex[i])
    {
      HexDigits(bytes + [b], i);
    }
    DigitReads(b / 16);
    DigitReads(b % 16);
    ParseOneMore(HexOf(bytes), DIGITS[b / 16], hex);
    ParseOneMore(HexOf(bytes) + [DIGITS[b / 16]], DIGITS[b % 16], hex);
  }

  lemma HexAppend(bytes: seq<Byte>, b: Byte)
    ensures HexOf(bytes + [b]) == HexOf(bytes) + [DIGITS[b / 16]] + [DIGITS[b % 16]]
  {
    assert (bytes + [b])[..|bytes|] == bytes;
  }

  lemma {:induction false} ParseOneMore(before: string, c: char, hex: string)
    requires |before| < |hex| && before + [c] == hex[..|before| + 1]
    requires forall i | 0 <= i < |hex| :: IsHex(hex[i])
    ensures IsHex(c) && ParseHex(before + [c]) == 16 * ParseHex(before) + HexValue(c)
  {
    var s := before + [c];
    assert forall i | 0 <= i < |s| :: s[i] == hex[i];
    assert s[|before|] == c && s[..|s| - 1] == before;
  }

  lemma DigitReads(d: nat)
    requires d < 16
    ensures IsHex(DIGITS[d]) && HexValue(DIGITS[d]) == d
  {
    DigitsAscend();
  }

  lemma HeadBytes(s: State)
    requires 0 <= s.counter <= MAX_COUNTER
    ensures BigEndian(8, Head(s))[..6] == BigEndian(6, s.last % TIME_SPAN)
    ensures BigEndian(8, Head(s))[6] == 0x70 + s.counter / 256
    ensures BigEndian(8, Head(s))[7] == s.counter % 256
  {
    hide BigEndian;
    var h := Head(s);
    OneByteMore(8, h);
    OneByteMore(7, h / 256);
    assert h / 256 / 256 == s.last % TIME_SPAN;
  }

  lemma OneByteMore(n: nat, v: nat)
    requires n > 0
    ensures BigEndian(n, v) == BigEndian(n - 1, v / 256) + [v % 256]
  {
  }

  /** Every identifier has the shape of one, and its time is the generator's, modulo forty-eight bits. */
  lemma TimestampReadsBack(s: State, e: Entropy)
    requires 0 <= s.counter <= MAX_COUNTER && Enough(e)
    ensures IsUuid(Id(s, e)) && Id(s, e)[14] == '7' && Id(s, e)[19] in "89ab"
    ensures Timestamp(Id(s, e)) == Some(s.last % TIME_SPAN)
  {
    hide BigEndian, HexOf, Dashed, WithoutDashes, ParseHex, Timestamp, DIGITS;
    var bytes := Bytes(s, e);
    var hex := HexOf(bytes);
    HexShape(bytes);
    HeadBytes(s);
    assert bytes[..6] == BigEndian(8, Head(s))[..6];
    HexAt(bytes, 6);
    assert hex[..12] == HexOf(BigEndian(6, s.last % TIME_SPAN));
    assert Power(6) == 0x1_0000_0000_0000;
    HexParses(6, s.last % TIME_SPAN);
    DashesRemoved(hex);
    assert bytes[6] / 16 == 7;
    HexAt(bytes, 8);
    assert 8 <= bytes[8] / 16 < 12;
    DigitsAre();
    DashedAt(hex, 14);
    DashedAt(hex, 19);
    TimestampOf(hex);
  }

  lemma DigitsAre()
    ensures DIGITS[7] == '7' && forall i | 8 <= i < 12 :: DIGITS[i] in "89ab"
  {
  }

  lemma HexShape(bytes: seq<Byte>)
    requires |bytes| == 16
    ensures IsUuid(Dashed(HexOf(bytes)))
    ensures forall i | 0 <= i < 32 :: HexOf(bytes)[i] != '-'
  {
    hide HexOf, Dashed;
    var hex := HexOf(bytes);
    forall i: nat | i < 32
      ensures IsHex(hex[i]) && hex[i] != '-'
    {
      HexDigits(bytes, i);
    }
    DashedAt(hex, 0);
    forall i: nat | i < 36
      ensures if IsDashAt(i) then Dashed(hex)[i] == '-' else IsHex(Dashed(hex)[i])
    {
      DashedAt(hex, i);
      if !IsDashAt(i) {
        assert Digit(i) < 32;
      }
    }
  }

  lemma TimestampOf(hex: string)
    requires |hex| == 32 && IsUuid(Dashed(hex)) && WithoutDashes(Dashed(hex)) == hex && hex[12] == '7'
    ensures Timestamp(Dashed(hex)) == Some(ParseHex(hex[..12]))
  {
  }

  // ----- Reading any text -----

  lemma UuidIsDashed(id: string) returns (hex: string)
    requires IsUuid(id)
    ensures |hex| == 32 && (forall i | 0 <= i < 32 :: IsHex(hex[i]) && hex[i] != '-') && id == Dashed(hex)
    ensures hex[12] == id[14]
  {
    hex := id[..8] + id[9..13] + id[14..18] + id[19..23] + id[24..];
    assert id == id[..8] + [id[8]] + id[9..13] + [id[13]] + id[14..18] + [id[18]] + id[19..23] + [id[23]] + id[24..];
  }

  /** A text has a time exactly when it has the shape of an identifier whose version is 7. */
  lemma TimestampExactly(id: string)
    ensures Timestamp(id).Some? <==> IsUuid(id) && id[14] == '7'
  {
    hide WithoutDashes, Dashed;
    if IsUuid(id) {
      var hex := UuidIsDashed(id);
      DashesRemoved(hex);
    }
  }

  lemma HexInAnyCase(c: char, d: char)
    requires SameLetter(c, d)
    ensures (IsHex(c) <==> IsHex(d)) && (IsHex(c) ==> HexValue(c) == HexValue(d))
    ensures c == '-' || c == '7' ==> d == c
    ensures d == '-' || d == '7' ==> d == c
  {
  }

  lemma {:induction false} ParsesInAnyCase(a: string, b: string)
    requires SameButForCase(a, b)
    ensures ParseHex(a) == ParseHex(b)
    decreases |a|
  {
    hide IsHex, HexValue, SameLetter;
    forall i | 0 <= i < |a|
      ensures IsHex(a[i]) <==> IsHex(b[i])
    {
      HexInAnyCase(a[i], b[i]);
    }
    if a != "" {
      HexInAnyCase(a[|a| - 1], b[|a| - 1]);
      ParsesInAnyCase(a[..|a| - 1], b[..|b| - 1]);
    }
  }

  lemma {:induction false} DashesInAnyCase(a: string, b: string)
    requires SameButForCase(a, b)
    ensures SameButForCase(WithoutDashes(a), WithoutDashes(b))
  {
    hide SameLetter;
    if a != "" {
      HexInAnyCase(a[0], b[0]);
      DashesInAnyCase(a[1..], b[1..]);
    }
  }

  lemma ShapeInAnyCase(a: string, b: string)
    requires SameButForCase(a, b)
    ensures IsUuid(a) <==> IsUuid(b)
  {
    hide IsHex, SameLetter;
    forall i | 0 <= i < |a|
      ensures (IsHex(a[i]) <==> IsHex(b[i])) && (a[i] == '-' <==> b[i] == '-')
    {
      HexInAnyCase(a[i], b[i]);
    }
  }

  /** An identifier is read alike in either case. */
  lemma TimestampInAnyCase(a: string, b: string)
    requires SameButForCase(a, b)
    ensures Timestamp(a) == Timestamp(b)
  {
    hide WithoutDashes, ParseHex, IsUuid, SameLetter;
    ShapeInAnyCase(a, b);
    DashesInAnyCase(a, b);
    var x, y := WithoutDashes(a), WithoutDashes(b);
    if |x| > 12 {
      HexInAnyCase(x[12], y[12]);
      ParsesInAnyCase(x[..12], y[..12]);
    }
  }

  // ----- One call -----

  /**
   A call's identifier comes after the one before it, unless the counter runs out in the last millisecond
   that forty-eight bits can hold: then, and only then, the borrowed millisecond wraps round to zero.
   */
  lemma GreaterExactly(s: State, before: Entropy, nowMs: int, e: Entropy)
    requires Valid(s) && s.last >= 0 && Enough(before) && Enough(e) && 0 <= nowMs < TIME_SPAN
    ensures var t := Next(s, nowMs, e);
            Less(Id(s, before), Id(t, e)) <==> !(Borrows(s, nowMs) && s.last % TIME_SPAN == TIME_SPAN - 1)
  {
    hide Id, Less;
    var t := Next(s, nowMs, e);
    if Borrows(s, nowMs) && s.last % TIME_SPAN == TIME_SPAN - 1 {
      IdOrder(t, e, s, before);
      LessIsStrict(Id(t, e), Id(s, before));
    } else {
      IdOrder(s, before, t, e);
    }
  }

  // ----- Runs -----

  /** One call: what the clock read, and the random bytes it drew. */
  datatype Draw = Draw(nowMs: int, entropy: Entropy)

  function After(draws: seq<Draw>): State {
    if draws == [] then FRESH
    else
      var last := draws[|draws| - 1];
      Next(After(draws[..|draws| - 1]), last.nowMs, last.entropy)
  }

  /** Clock readings within forty-eight bits, in any order. */
  predicate Plausible(draws: seq<Draw>) {
    forall i | 0 <= i < |draws| :: 0 <= draws[i].nowMs < TIME_SPAN && Enough(draws[i].entropy)
  }

  function Largest(draws: seq<Draw>): int {
    if draws == [] then -1
    else
      var before, last := Largest(draws[..|draws| - 1]), draws[|draws| - 1].nowMs;
      if last > before then last else before
  }

  lemma {:induction false} AfterValid(draws: seq<Draw>)
    requires Plausible(draws)
    ensures Valid(After(draws)) && (draws != [] ==> After(draws).last >= 0)
    decreases |draws|
  {
    if draws != [] {
      AfterValid(draws[..|draws| - 1]);
    }
  }

  /** The identifier of the i-th call. */
  function IdAt(draws: seq<Draw>, i: nat): string
    requires Plausible(draws) && i < |draws|
  {
    AfterValid(draws[..i + 1]);
    Id(After(draws[..i + 1]), draws[i].entropy)
  }

  /**
   The generator is never behind a reading, and after n calls it is ahead of the largest one by d milliseconds
   with 2048 d <= n, however the clock stands or jumps back.
   */
  lemma {:induction false} DriftBounded(draws: seq<Draw>)
    requires Plausible(draws) && draws != []
    ensures var s, ahead := After(draws), After(draws).last - Largest(draws);
            && 0 <= ahead
            && 2048 * ahead + (if s.counter > 2048 then s.counter - 2048 else 0) <= |draws|
            && forall i | 0 <= i < |draws| :: draws[i].nowMs <= s.last
    decreases |draws|
  {
    var before, last := draws[..|draws| - 1], draws[|draws| - 1];
    assert Plausible(before);
    if before != [] {
      DriftBounded(before);
      forall i | 0 <= i < |draws|
        ensures draws[i].nowMs <= After(draws).last
      {
        if i < |before| {
          assert before[i].nowMs <= After(before).last;
        }
      }
    }
  }

  lemma {:induction false} LargestIsARead(draws: seq<Draw>, bound: int)
    requires draws != [] && forall i | 0 <= i < |draws| :: -1 <= draws[i].nowMs < bound
    ensures Largest(draws) < bound
    decreases |draws|
  {
    if |draws| > 1 {
      LargestIsARead(draws[..|draws| - 1], bound);
    }
  }

  lemma NextCallGreater(draws: seq<Draw>, i: nat)
    requires Plausible(draws) && i + 1 < |draws|
    requires forall j | 0 <= j < |draws| :: draws[j].nowMs + |draws| / 2048 < TIME_SPAN
    ensures Less(IdAt(draws, i), IdAt(draws, i + 1))
  {
    hide Id, Less;
    var now, next := draws[..i + 1], draws[..i + 2];
    assert Plausible(now) && next[..i + 1] == now && next[i + 1] == draws[i + 1];
    AfterValid(now);
    DriftBounded(now);
    LargestIsARead(now, TIME_SPAN - |draws| / 2048);
    var s := After(now);
    assert s.last < TIME_SPAN;
    if Borrows(s, draws[i + 1].nowMs) {
      assert Plausible(next);
      DriftBounded(next);
      LargestIsARead(next, TIME_SPAN - |draws| / 2048);
    }
    GreaterExactly(s, draws[i].entropy, draws[i + 1].nowMs, draws[i + 1].entropy);
  }

  lemma LessTransitive(a: string, b: string, c: string)
    requires Less(a, b) && Less(b, c)
    ensures Less(a, c)
  {
    var j: nat :| LessAt(a, b, j);
    var k: nat :| LessAt(b, c, k);
    if j <= k {
      assert b[..k][..j] == b[..j] && c[..k][..j] == c[..j];
      assert j < k ==> b[j] == b[..k][j] == c[..k][j] == c[j];
      assert LessAt(a, c, j);
    } else {
      assert a[..j][..k] == a[..k] && b[..j][..k] == b[..k];
      assert a[k] == a[..j][k] == b[..j][k] == b[k];
      assert LessAt(a, c, k);
    }
  }

  /**
   Over any run whose readings leave room for the drift, every identifier is strictly greater than
   all before it, so no two are the same.
   */
  lemma {:induction false} RunAscends(draws: seq<Draw>, i: nat, j: nat)
    requires Plausible(draws) && i < j < |draws|
    requires forall k | 0 <= k < |draws| :: draws[k].nowMs + |draws| / 2048 < TIME_SPAN
    ensures Less(IdAt(draws, i), IdAt(draws, j)) && IdAt(draws, i) != IdAt(draws, j)
    decreases j
  {
    hide Less, IdAt;
    NextCallGreater(draws, j - 1);
    if i < j - 1 {
      RunAscends(draws, i, j - 1);
      LessTransitive(IdAt(draws, i), IdAt(draws, j - 1), IdAt(draws, j));
    }
    LessIsStrict(IdAt(draws, i), IdAt(draws, j));
  }

  /** The time read back from a call's identifier is the generator's, and not before the clock's. */
  lemma TimestampOfRun(draws: seq<Draw>, i: nat)
    requires Plausible(draws) && i < |draws|
    requires forall k | 0 <= k < |draws| :: draws[k].nowMs + |draws| / 2048 < TIME_SPAN
    ensures Timestamp(IdAt(draws, i)) == Some(After(draws[..i + 1]).last)
    ensures draws[i].nowMs <= After(draws[..i + 1]).last
  {
    hide Id, Timestamp, Next;
    var now := draws[..i + 1];
    assert Plausible(now);
    AfterValid(now);
    DriftBounded(now);
    assert now[i] == draws[i];
    LargestIsARead(now, TIME_SPAN - |draws| / 2048);
    TimestampReadsBack(After(now), draws[i].entropy);
  }

  // ----- Where the order breaks -----

  /** A clock that stands at the last millisecond that forty-eight bits hold, and the highest seed. */
  const LAST_DRAW := Draw(TIME_SPAN - 1, Entropy(7, 255, [0, 0, 0, 0, 0, 0, 0, 0]))

  function Standing(n: nat): (draws: seq<Draw>)
    ensures |draws| == n && Plausible(draws) && forall i | 0 <= i < n :: draws[i] == LAST_DRAW
  {
    if n == 0 then [] else Standing(n - 1) + [LAST_DRAW]
  }

  lemma {:induction false} StandingCounts(n: nat)
    requires n <= 2048
    ensures After(Standing(n + 1)) == State(TIME_SPAN - 1, 2047 + n)
  {
    assert Standing(n + 1)[..n] == Standing(n);
    if n == 0 {
      assert Standing(1)[..0] == [];
      assert Seed(LAST_DRAW.entropy) == 2047;
    } else {
      StandingCounts(n - 1);
    }
  }

  lemma {:induction false} StandingPrefix(n: nat, k: nat)
    requires k <= n
    ensures Standing(n)[..k] == Standing(k)
  {
    if k < n {
      StandingPrefix(n - 1, k);
      assert Standing(n)[..k] == Standing(n - 1)[..k];
    }
  }

  /** A run within forty-eight bits that ends where the order breaks: the 2050th identifier comes before the 2049th. */
  lemma OrderBreaks()
    ensures Plausible(Standing(2050)) && After(Standing(2049)) == State(TIME_SPAN - 1, MAX_COUNTER)
    ensures Less(IdAt(Standing(2050), 2049), IdAt(Standing(2050), 2048))
    ensures !Less(IdAt(Standing(2050), 2048), IdAt(Standing(2050), 2049))
  {
    hide Less, Id, Standing;
    StandingCounts(2048);
    StandingPrefix(2050, 2049);
    StandingPrefix(2050, 2050);
    var s, t := After(Standing(2049)), After(Standing(2050));
    assert t == Next(s, LAST_DRAW.nowMs, LAST_DRAW.entropy) by { AfterOne(Standing(2050)); }
    IdOrder(t, LAST_DRAW.entropy, s, LAST_DRAW.entropy);
    LessIsStrict(Id(t, LAST_DRAW.entropy), Id(s, LAST_DRAW.entropy));
  }

  lemma AfterOne(draws: seq<Draw>)
    requires draws != []
    ensures var last := draws[|draws| - 1];
            After(draws) == Next(After(draws[..|draws| - 1]), last.nowMs, last.entropy)
  {
  }
}
