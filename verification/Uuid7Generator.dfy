/** The generator as it works: module state changed by each call, a byte array filled in, and its text built up. */
module Uuid7Generator {
  import opened Uuid7
  import opened Uuid7Theorems

  class Generator {
    var lastTimestampMs: int
    var counter: int

    ghost function View(): State
      reads this
    {
      State(lastTimestampMs, counter)
    }

    constructor ()
      ensures View() == FRESH
    {
      lastTimestampMs, counter := -1, 0;
    }

    /**
     `depth` counts the calls nested in this one: one when the millisecond's counter is used up, and else none.
     */
    method Uuidv7(nowMs: int, entropy: Entropy) returns (id: string, ghost depth: nat)
      requires Valid(View()) && nowMs >= 0 && Enough(entropy)
      modifies this
      ensures View() == Next(old(View()), nowMs, entropy) && Valid(View())
      ensures id == Id(View(), entropy)
      ensures depth == if Borrows(old(View()), nowMs) then 1 else 0
      decreases if Borrows(View(), nowMs) then 1 else 0
    {
      hide BigEndian, Text, TIME_SPAN, Seed, Id, Bytes, Head;
      var ts := if nowMs > lastTimestampMs then nowMs else lastTimestampMs;
      if ts == lastTimestampMs {
        counter := counter + 1;
        if counter > MAX_COUNTER {
          lastTimestampMs := ts + 1;
          counter := Seed(entropy);
          id, depth := Uuidv7(lastTimestampMs, entropy);
          depth := depth + 1;
          return;
        }
      } else {
        lastTimestampMs := ts;
        counter := Seed(entropy);
      }
      depth := 0;
      id := Encode(ts, entropy);
    }

    /** The identifier of the state, laid out byte by byte. */
    method Encode(ts: int, entropy: Entropy) returns (id: string)
      requires 0 <= ts == lastTimestampMs && 0 <= counter <= MAX_COUNTER && Enough(entropy)
      ensures id == Id(View(), entropy)
    {
      hide BigEndian, Text, Head, TIME_SPAN;
      var bytes := new Byte[16];
      bytes[0] := ts / 0x100_0000_0000 % 256;
      bytes[1] := ts / 0x1_0000_0000 % 256;
      bytes[2] := ts / 0x100_0000 % 256;
      bytes[3] := ts / 0x1_0000 % 256;
      bytes[4] := ts / 0x100 % 256;
      bytes[5] := ts % 256;
      bytes[6] := 0x70 + counter / 256 % 16;
      bytes[7] := counter % 256;
      FirstBytes(View(), bytes[..8]);
      ghost var state, head := View(), BigEndian(8, Head(View()));

      bytes[8] := entropy.tail[0] % 64 + 0x80;
      for i := 1 to 8
        invariant View() == state && bytes[..8] == head
        invariant bytes[8] == Variant(entropy.tail[0])
        invariant forall j | 1 <= j < i :: bytes[8 + j] == entropy.tail[j]
      {
        bytes[8 + i] := entropy.tail[i];
      }
      assert bytes[..] == bytes[..8] + [bytes[8]] + bytes[9..];
      assert bytes[9..] == entropy.tail[1..];
      id := FormatUuid(bytes);
    }
  }

  method FormatUuid(bytes: array<Byte>) returns (text: string)
    requires bytes.Length == 16
    ensures text == Text(bytes[..])
  {
    var hex := "";
    for i := 0 to 16
      invariant hex == HexOf(bytes[..i])
    {
      HexAppend(bytes[..i], bytes[i]);
      assert bytes[..i + 1] == bytes[..i] + [bytes[i]];
      hex := hex + [DIGITS[bytes[i] / 16]] + [DIGITS[bytes[i] % 16]];
    }
    assert bytes[..16] == bytes[..];
    text := hex[..8] + "-" + hex[8..12] + "-" + hex[12..16] + "-" + hex[16..20] + "-" + hex[20..];
  }

  /** The time's bytes each taken out of the whole number are those of its low forty-eight bits. */
  lemma FirstBytes(s: State, bytes: seq<Byte>)
    requires s.last >= 0 && 0 <= s.counter <= MAX_COUNTER && |bytes| == 8
    requires bytes[0] == s.last / 0x100_0000_0000 % 256 && bytes[1] == s.last / 0x1_0000_0000 % 256
    requires bytes[2] == s.last / 0x100_0000 % 256 && bytes[3] == s.last / 0x1_0000 % 256
    requires bytes[4] == s.last / 0x100 % 256 && bytes[5] == s.last % 256
    requires bytes[6] == 0x70 + s.counter / 256 % 16 && bytes[7] == s.counter % 256
    ensures bytes == BigEndian(8, Head(s))
  {
    hide BigEndian;
    var t := s.last % TIME_SPAN;
    HeadBytes(s);
    OneByteMore(6, t);
    OneByteMore(5, t / 0x100);
    OneByteMore(4, t / 0x1_0000);
    OneByteMore(3, t / 0x100_0000);
    OneByteMore(2, t / 0x1_0000_0000);
    OneByteMore(1, t / 0x100_0000_0000);
    assert BigEndian(0, t / TIME_SPAN) == [];
    SixBytes(s.last);
    Quotients(t);
    assert BigEndian(6, t) == bytes[..6];
    assert bytes == bytes[..6] + [bytes[6], bytes[7]];
    assert BigEndian(8, Head(s)) == BigEndian(8, Head(s))[..6] + [bytes[6], bytes[7]];
  }

  lemma SixBytes(last: nat)
    ensures var t := last % TIME_SPAN;
            && t % 256 == last % 256
            && t / 0x100 % 256 == last / 0x100 % 256
            && t / 0x1_0000 % 256 == last / 0x1_0000 % 256
            && t / 0x100_0000 % 256 == last / 0x100_0000 % 256
            && t / 0x1_0000_0000 % 256 == last / 0x1_0000_0000 % 256
            && t / 0x100_0000_0000 % 256 == last / 0x100_0000_0000 % 256
  {
    var t, q := last % TIME_SPAN, last / TIME_SPAN;
    assert last == q * TIME_SPAN + t;
    ByteKept(last, t, q * 0x100_0000_0000, 1);
    ByteKept(last, t, q * 0x1_0000_0000, 0x100);
    ByteKept(last, t, q * 0x100_0000, 0x1_0000);
    ByteKept(last, t, q * 0x1_0000, 0x100_0000);
    ByteKept(last, t, q * 0x100, 0x1_0000_0000);
    ByteKept(last, t, q, 0x100_0000_0000);
  }

  lemma ByteKept(last: nat, t: nat, q: nat, c: nat)
    requires c > 0 && last == 256 * q * c + t
    ensures t / c % 256 == last / c % 256
  {
    var d, r := t / c, t % c;
    assert last == (256 * q + d) * c + r;
    Quotient(last, 256 * q + d, r, c);
  }

  lemma Quotient(n: nat, d: nat, r: nat, c: nat)
    requires n == d * c + r && r < c
    ensures n / c == d
  {
    var e := n / c;
    assert e * c <= n < e * c + c;
    if e < d {
      Multiples(e + 1, d, c);
    } else if d < e {
      Multiples(d + 1, e, c);
    }
  }

  lemma Multiples(a: nat, b: nat, c: nat)
    requires a <= b
    ensures a * c <= b * c
  {
    assert b * c - a * c == (b - a) * c;
  }

  lemma Quotients(t: nat)
    requires t < TIME_SPAN
    ensures t / 0x100 / 0x100 == t / 0x1_0000
    ensures t / 0x1_0000 / 0x100 == t / 0x100_0000
    ensures t / 0x100_0000 / 0x100 == t / 0x1_0000_0000
    ensures t / 0x1_0000_0000 / 0x100 == t / 0x100_0000_0000
    ensures t / 0x100_0000_0000 / 0x100 == 0
  {
  }
}
