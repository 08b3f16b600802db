/** Classes of characters that several components tell apart, and numbers in base ten. */
module Characters {

  const RUPEE := '\U{20B9}'

  predicate IsUpper(c: char) {
    'A' <= c <= 'Z'
  }

  predicate IsDigit(c: char) {
    '0' <= c <= '9'
  }

  predicate AllUpper(s: string) {
    forall i | 0 <= i < |s| :: IsUpper(s[i])
  }

  predicate AllDigits(s: string) {
    forall i | 0 <= i < |s| :: IsDigit(s[i])
  }

  predicate IsSpace(c: char) {
    || c == ' ' || '\t' <= c <= '\r' || c == '\U{00A0}' || c == '\U{1680}' || '\U{2000}' <= c <= '\U{200A}'
    || c == '\U{2028}' || c == '\U{2029}' || c == '\U{202F}' || c == '\U{205F}' || c == '\U{3000}' || c == '\U{FEFF}'
  }

  function Lower(c: char): char {
    if 'A' <= c <= 'Z' then c - 'A' + 'a' else c
  }

  const ALPHABET := "ABCDEFGHIJKLMNOPQRSTUVWXYZ"

  lemma LettersExactly(c: char)
    ensures IsUpper(c) <==> c in ALPHABET
  {
    if IsUpper(c) {
      assert ALPHABET[c as int - 'A' as int] == c;
    }
  }

  lemma DigitsExactly(c: char)
    ensures IsDigit(c) <==> c in "0123456789"
  {
    if IsDigit(c) {
      assert "0123456789"[c as int - '0' as int] == c;
    }
  }

  /** White space and line ends as ECMA-262 has them in section 12. */
  lemma SpacesExactly(c: char)
    ensures IsSpace(c) <==> c as int in {
              0x09, 0x0A, 0x0B, 0x0C, 0x0D, 0x20, 0xA0, 0x1680, 0x2000, 0x2001, 0x2002, 0x2003, 0x2004, 0x2005,
              0x2006, 0x2007, 0x2008, 0x2009, 0x200A, 0x2028, 0x2029, 0x202F, 0x205F, 0x3000, 0xFEFF}
  {
  }

  /** One letter of the alphabet in either case, or one character. */
  predicate SameLetter(c: char, d: char) {
    || c == d
    || ('A' <= c <= 'Z' && d as int == c as int + 32)
    || ('A' <= d <= 'Z' && c as int == d as int + 32)
  }

  predicate SameButForCase(s: string, t: string) {
    |s| == |t| && forall i | 0 <= i < |s| :: SameLetter(s[i], t[i])
  }

  lemma LowerExactly(c: char, d: char)
    ensures Lower(c) == Lower(d) <==> SameLetter(c, d)
  {
  }

  function TrimLeft(s: string): string {
    if s != "" && IsSpace(s[0]) then TrimLeft(s[1..]) else s
  }

  function TrimRight(s: string): string {
    if s != "" && IsSpace(s[|s| - 1]) then TrimRight(s[..|s| - 1]) else s
  }

  function Trim(s: string): string {
    TrimRight(TrimLeft(s))
  }

  /** Nothing but space. */
  predicate IsBlank(s: string) {
    forall i | 0 <= i < |s| :: IsSpace(s[i])
  }

  /** Trimming takes the space off both ends, and all of it. */
  lemma TrimExactly(s: string)
    ensures exists lead: string, trail: string ::
              s == lead + Trim(s) + trail && IsBlank(lead) && IsBlank(trail)
    ensures Trim(s) != "" ==> !IsSpace(Trim(s)[0]) && !IsSpace(Trim(s)[|Trim(s)| - 1])
    ensures Trim(s) == "" <==> IsBlank(s)
  {
    hide IsSpace, TrimLeft, TrimRight, IsBlank;
    var left := TrimLeft(s);
    TrimLeftExactly(s);
    TrimRightExactly(left);
    var lead, trail := s[..|s| - |left|], left[|TrimRight(left)|..];
    assert s == lead + Trim(s) + trail;
    BlankJoined(lead, Trim(s), trail);
  }

  lemma {:induction false} TrimLeftExactly(s: string)
    ensures var t := TrimLeft(s);
            && |t| <= |s| && s == s[..|s| - |t|] + t && IsBlank(s[..|s| - |t|]) && (t != "" ==> !IsSpace(t[0]))
  {
    hide IsSpace;
    if s != "" && IsSpace(s[0]) {
      TrimLeftExactly(s[1..]);
    }
  }

  lemma {:induction false} TrimRightExactly(s: string)
    ensures var t := TrimRight(s);
            && t <= s && IsBlank(s[|t|..]) && (t != "" ==> !IsSpace(t[|t| - 1]))
    decreases |s|
  {
    hide IsSpace;
    if s != "" && IsSpace(s[|s| - 1]) {
      var front := s[..|s| - 1];
      TrimRightExactly(front);
      var k := |TrimRight(front)|;
      assert s[k..] == front[k..] + [s[|s| - 1]];
    }
  }

  lemma BlankJoined(lead: string, middle: string, trail: string)
    requires IsBlank(lead) && IsBlank(trail) && (middle != "" ==> !IsSpace(middle[0]))
    ensures IsBlank(lead + middle + trail) <==> middle == ""
  {
    hide IsSpace;
    assert middle != "" ==> (lead + middle + trail)[|lead|] == middle[0];
  }

  lemma {:induction false} TrimLeftShortens(s: string)
    ensures |TrimLeft(s)| <= |s|
  {
    if s != "" && IsSpace(s[0]) {
      TrimLeftShortens(s[1..]);
    }
  }

  lemma {:induction false} TrimRightShortens(s: string)
    ensures |TrimRight(s)| <= |s|
    decreases |s|
  {
    if s != "" && IsSpace(s[|s| - 1]) {
      TrimRightShortens(s[..|s| - 1]);
    }
  }

  lemma TrimShortens(s: string)
    ensures |Trim(s)| <= |s|
  {
    TrimLeftShortens(s);
    TrimRightShortens(TrimLeft(s));
  }

  function Join<T>(parts: seq<seq<T>>, separator: seq<T>): seq<T> {
    if parts == [] then []
    else if |parts| == 1 then parts[0]
    else parts[0] + separator + Join(parts[1..], separator)
  }

  function DigitChar(d: nat): char
    requires d < 10
  {
    "0123456789"[d]
  }

  function DigitValue(c: char): nat
    requires IsDigit(c)
  {
    c as int - '0' as int
  }

  lemma DigitCharIsDigit(d: nat)
    requires d < 10
    ensures IsDigit(DigitChar(d)) && DigitValue(DigitChar(d)) == d
  {
  }

  function Decimal(n: nat): (s: string)
    ensures s != ""
  {
    if n < 10 then [DigitChar(n)] else Decimal(n / 10) + [DigitChar(n % 10)]
  }

  /** What the digits say in base ten, and nothing for no digits. */
  function Whole(s: string): nat
    requires AllDigits(s)
  {
    if s == "" then 0 else 10 * Whole(s[..|s| - 1]) + DigitValue(s[|s| - 1])
  }

  lemma WholeOfOneMore(s: string, c: char)
    requires AllDigits(s) && IsDigit(c)
    ensures AllDigits(s + [c]) && Whole(s + [c]) == 10 * Whole(s) + DigitValue(c)
  {
    assert (s + [c])[..|s|] == s;
  }

  lemma {:induction false} DecimalReads(n: nat)
    ensures AllDigits(Decimal(n)) && Whole(Decimal(n)) == n
  {
    DigitCharIsDigit(n % 10);
    if n < 10 {
      WholeOfOneMore("", DigitChar(n));
      assert "" + [DigitChar(n)] == Decimal(n);
    } else {
      DecimalReads(n / 10);
      WholeOfOneMore(Decimal(n / 10), DigitChar(n % 10));
    }
  }

  lemma DecimalInjective(m: nat, n: nat)
    requires Decimal(m) == Decimal(n)
    ensures m == n
  {
    DecimalReads(m);
    DecimalReads(n);
  }
}
