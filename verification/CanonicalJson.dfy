/**
 The canonical serialiser behind prompt hashes and the audit chain.

 A program value keeps its members in insertion order and may hold `undefined`;
 its meaning does neither. The text printed determines the meaning and is
 determined by it.
 */
module CanonicalJson {
  import opened Text
  import Characters

  /** A value as the program holds it. Members are in insertion order. */
  datatype Json =
    | Undefined
    | Null
    | Bool(b: bool)
    | Num(n: int)
    | Str(s: Text)
    | Arr(items: seq<Json>)
    | Obj(fields: seq<Field>)

  datatype Field = Field(key: Text, value: Json)

  /** A JSON value proper: no `undefined`, and members without an order. */
  datatype Value =
    | VNull
    | VBool(b: bool)
    | VNum(n: int)
    | VStr(s: Text)
    | VArr(items: seq<Value>)
    | VObj(members: map<Text, Value>)

  function Keys(fields: seq<Field>): (r: seq<Text>)
    ensures |r| == |fields|
    ensures forall i :: 0 <= i < |fields| ==> r[i] == fields[i].key
  {
    if fields == [] then [] else [fields[0].key] + Keys(fields[1..])
  }

  /** No object holds one key twice, at any depth. */
  predicate WellFormed(j: Json) {
    match j
    case Arr(items) => forall i :: 0 <= i < |items| ==> WellFormed(items[i])
    case Obj(fields) =>
      && Distinct(Keys(fields))
      && forall i :: 0 <= i < |fields| ==> WellFormed(fields[i].value)
    case _ => true
  }

  function Meaning(j: Json): Value
    decreases j
  {
    match j
    case Undefined => VNull
    case Null => VNull
    case Bool(b) => VBool(b)
    case Num(n) => VNum(n)
    case Str(s) => VStr(s)
    case Arr(items) => VArr(Meanings(items))
    case Obj(fields) => VObj(MembersOf(fields))
  }

  function Meanings(items: seq<Json>): (r: seq<Value>)
    ensures |r| == |items|
    decreases items
  {
    if items == [] then [] else [Meaning(items[0])] + Meanings(items[1..])
  }

  function MembersOf(fields: seq<Field>): map<Text, Value>
    decreases fields
  {
    if fields == [] then map[]
    else if fields[0].value == Undefined then MembersOf(fields[1..])
    else MembersOf(fields[1..])[fields[0].key := Meaning(fields[0].value)]
  }

  // ----- Printing -----

  const NULL: Text := ['n' as int, 'u' as int, 'l' as int, 'l' as int]
  const TRUE: Text := ['t' as int, 'r' as int, 'u' as int, 'e' as int]
  const FALSE: Text := ['f' as int, 'a' as int, 'l' as int, 's' as int, 'e' as int]
  const QUOTE: CodeUnit := '\"' as int
  const BACKSLASH: CodeUnit := '\\' as int
  const COMMA: CodeUnit := ',' as int
  const COLON: CodeUnit := ':' as int
  const MINUS: CodeUnit := '-' as int
  const OPEN_LIST: CodeUnit := '[' as int
  const CLOSE_LIST: CodeUnit := ']' as int
  const OPEN_OBJECT: CodeUnit := '{' as int
  const CLOSE_OBJECT: CodeUnit := '}' as int

  predicate IsDigit(u: CodeUnit) {
    '0' as int <= u <= '9' as int
  }

  predicate IsLeading(u: CodeUnit) {
    0xD800 <= u <= 0xDBFF
  }

  predicate IsTrailing(u: CodeUnit) {
    0xDC00 <= u <= 0xDFFF
  }

  function HexDigit(d: nat): CodeUnit
    requires d < 16
  {
    if d < 10 then '0' as int + d else 'a' as int + (d - 10)
  }

  /** The letter of a two-character escape, for the units that have one (RFC 8259, section 7). */
  function ShortEscape(u: CodeUnit): CodeUnit {
    if u == 0x08 then 'b' as int
    else if u == 0x09 then 't' as int
    else if u == 0x0A then 'n' as int
    else if u == 0x0C then 'f' as int
    else if u == 0x0D then 'r' as int
    else if u == QUOTE then QUOTE
    else if u == BACKSLASH then BACKSLASH
    else 0
  }

  function EscapeUnit(u: CodeUnit): Text {
    if ShortEscape(u) != 0 then [BACKSLASH, ShortEscape(u)]
    else if u < 0x20 || IsLeading(u) || IsTrailing(u) then
      [BACKSLASH, 'u' as int, HexDigit(u / 0x1000), HexDigit(u / 0x100 % 16), HexDigit(u / 0x10 % 16), HexDigit(u % 16)]
    else [u]
  }

  /** Surrogate pairs are kept; a lone surrogate is escaped. */
  function QuoteBody(s: Text): Text {
    if s == [] then []
    else if |s| >= 2 && IsLeading(s[0]) && IsTrailing(s[1]) then s[..2] + QuoteBody(s[2..])
    else EscapeUnit(s[0]) + QuoteBody(s[1..])
  }

  function Quote(s: Text): Text {
    [QUOTE] + QuoteBody(s) + [QUOTE]
  }

  function Digits(n: nat): (r: Text)
    ensures r != [] && IsDigit(r[0])
  {
    if n < 10 then ['0' as int + n] else Digits(n / 10) + ['0' as int + n % 10]
  }

  function Decimal(n: int): Text {
    if n < 0 then [MINUS] + Digits(-n) else Digits(n)
  }

  /** The keys that survive: those whose value is not `undefined`, in insertion order. */
  function PresentKeys(fields: seq<Field>): seq<Text> {
    if fields == [] then []
    else if fields[0].value == Undefined then PresentKeys(fields[1..])
    else [fields[0].key] + PresentKeys(fields[1..])
  }

  function IndexOf(fields: seq<Field>, key: Text): (i: nat)
    requires key in PresentKeys(fields)
    ensures i < |fields| && fields[i].key == key && fields[i].value != Undefined
  {
    if fields[0].key == key && fields[0].value != Undefined then 0 else 1 + IndexOf(fields[1..], key)
  }

  function Canonical(j: Json): Text
    decreases j, 0
  {
    match j
    case Undefined => NULL
    case Null => NULL
    case Bool(b) => if b then TRUE else FALSE
    case Num(n) => Decimal(n)
    case Str(s) => Quote(s)
    case Arr(items) => [OPEN_LIST] + Characters.Join(ItemTexts(items), [COMMA]) + [CLOSE_LIST]
    case Obj(fields) =>
      var members := MemberTexts(fields, Sort(PresentKeys(fields)));
      [OPEN_OBJECT] + Characters.Join(members, [COMMA]) + [CLOSE_OBJECT]
  }

  function ItemTexts(items: seq<Json>): (r: seq<Text>)
    ensures |r| == |items|
    decreases items, 0
  {
    if items == [] then [] else [Canonical(items[0])] + ItemTexts(items[1..])
  }

  function MemberTexts(fields: seq<Field>, keys: seq<Text>): (r: seq<Text>)
    requires forall k :: k in keys ==> k in PresentKeys(fields)
    ensures |r| == |keys|
    decreases fields, |keys|
  {
    if keys == [] then []
    else [Quote(keys[0]) + [COLON] + Canonical(fields[IndexOf(fields, keys[0])].value)]
         + MemberTexts(fields, keys[1..])
  }

  // ----- Reading it back -----

  datatype Parsed<+T> = Bad | Done(value: T, rest: Text)

  predicate StartsWith(t: Text, word: Text) {
    |word| <= |t| && t[..|word|] == word
  }

  function HexValue(u: CodeUnit): nat {
    if IsDigit(u) then u - '0' as int
    else if 'a' as int <= u <= 'f' as int then u - 'a' as int + 10
    else 0
  }

  function LongUnit(a: CodeUnit, b: CodeUnit, c: CodeUnit, d: CodeUnit): CodeUnit {
    (HexValue(a) * 0x1000 + HexValue(b) * 0x100 + HexValue(c) * 0x10 + HexValue(d)) % 0x1_0000
  }

  function LongEscape(u: CodeUnit): CodeUnit {
    if u == 'b' as int then 0x08
    else if u == 't' as int then 0x09
    else if u == 'n' as int then 0x0A
    else if u == 'f' as int then 0x0C
    else if u == 'r' as int then 0x0D
    else u
  }

  /** Reads up to and including the closing quote. */
  function Unquote(t: Text): (r: Parsed<Text>)
    ensures r.Done? ==> |r.rest| < |t|
    decreases |t|
  {
    if t == [] then Bad
    else if t[0] == QUOTE then Done([], t[1..])
    else if t[0] != BACKSLASH then Prepend(t[0], Unquote(t[1..]))
    else if |t| < 2 then Bad
    else if t[1] != 'u' as int then Prepend(LongEscape(t[1]), Unquote(t[2..]))
    else if |t| < 6 then Bad
    else Prepend(LongUnit(t[2], t[3], t[4], t[5]), Unquote(t[6..]))
  }

  function Prepend(u: CodeUnit, r: Parsed<Text>): Parsed<Text> {
    if r.Done? then Done([u] + r.value, r.rest) else Bad
  }

  function ReadDigits(t: Text, acc: nat): (r: Parsed<nat>)
    ensures r.Done? && |r.rest| <= |t|
    decreases |t|
  {
    if t != [] && IsDigit(t[0]) then ReadDigits(t[1..], acc * 10 + (t[0] - '0' as int)) else Done(acc, t)
  }

  function Parse(t: Text): (r: Parsed<Value>)
    ensures r.Done? ==> |r.rest| < |t|
    decreases |t|, 0
  {
    if t == [] then Bad
    else if StartsWith(t, NULL) then Done(VNull, t[4..])
    else if StartsWith(t, TRUE) then Done(VBool(true), t[4..])
    else if StartsWith(t, FALSE) then Done(VBool(false), t[5..])
    else if IsDigit(t[0]) then
      var r := ReadDigits(t[1..], t[0] - '0' as int);
      Done(VNum(r.value), r.rest)
    else if t[0] == MINUS then
      var r := ReadDigits(t[1..], 0);
      Done(VNum(0 - r.value), r.rest)
    else if t[0] == QUOTE then
      match Unquote(t[1..])
      case Bad => Bad
      case Done(s, rest) => Done(VStr(s), rest)
    else if t[0] == OPEN_LIST then
      if |t| > 1 && t[1] == CLOSE_LIST then Done(VArr([]), t[2..])
      else
        match ParseItems(t[1..])
        case Bad => Bad
        case Done(items, rest) => Done(VArr(items), rest)
    else if t[0] == OPEN_OBJECT then
      if |t| > 1 && t[1] == CLOSE_OBJECT then Done(VObj(map[]), t[2..])
      else
        match ParseMembers(t[1..])
        case Bad => Bad
        case Done(members, rest) => Done(VObj(members), rest)
    else Bad
  }

  function ParseItems(t: Text): (r: Parsed<seq<Value>>)
    ensures r.Done? ==> |r.rest| < |t|
    decreases |t|, 1
  {
    match Parse(t)
    case Bad => Bad
    case Done(first, rest) =>
      if rest == [] then Bad
      else if rest[0] == CLOSE_LIST then Done([first], rest[1..])
      else if rest[0] == COMMA then
        match ParseItems(rest[1..])
        case Bad => Bad
        case Done(more, end) => Done([first] + more, end)
      else Bad
  }

  function ParseMembers(t: Text): (r: Parsed<map<Text, Value>>)
    ensures r.Done? ==> |r.rest| < |t|
    decreases |t|, 1
  {
    if t == [] || t[0] != QUOTE then Bad
    else
      match Unquote(t[1..])
      case Bad => Bad
      case Done(key, afterKey) =>
        if afterKey == [] || afterKey[0] != COLON then Bad
        else
          match Parse(afterKey[1..])
          case Bad => Bad
          case Done(first, rest) =>
            if rest == [] then Bad
            else if rest[0] == CLOSE_OBJECT then Done(map[key := first], rest[1..])
            else if rest[0] == COMMA then
              match ParseMembers(rest[1..])
              case Bad => Bad
              case Done(more, end) => Done(map[key := first] + more, end)
            else Bad
  }

  // ----- Tokens round-trip -----

  lemma HexDigitRoundTrip(d: nat)
    requires d < 16
    ensures HexValue(HexDigit(d)) == d
  {
  }

  /** Seven units have a two-character escape, other controls and surrogates a long one, and the rest stand as is. */
  lemma EscapeLengths(u: CodeUnit)
    ensures |EscapeUnit(u)| == 2 <==> u in {0x08, 0x09, 0x0A, 0x0C, 0x0D, 0x22, 0x5C}
    ensures |EscapeUnit(u)| == 6 <==> (u < 0x20 && |EscapeUnit(u)| != 2) || 0xD800 <= u <= 0xDFFF
    ensures |EscapeUnit(u)| == 1 <==> EscapeUnit(u) == [u]
    ensures |EscapeUnit(u)| in {1, 2, 6}
  {
    assert '\"' as int == 0x22 && '\\' as int == 0x5C;
  }

  lemma HexDigitsRoundTrip(u: CodeUnit)
    ensures LongUnit(HexDigit(u / 0x1000), HexDigit(u / 0x100 % 16), HexDigit(u / 0x10 % 16), HexDigit(u % 16)) == u
  {
    hide HexValue, HexDigit;
    HexDigitRoundTrip(u / 0x1000);
    HexDigitRoundTrip(u / 0x100 % 16);
    HexDigitRoundTrip(u / 0x10 % 16);
    HexDigitRoundTrip(u % 16);
    assert u / 0x100 / 16 == u / 0x1000 && u / 0x10 / 16 == u / 0x100;
  }

  lemma UnquoteShort(e: CodeUnit, t: Text)
    requires e != 'u' as int
    ensures Unquote([BACKSLASH, e] + t) == Prepend(LongEscape(e), Unquote(t))
  {
    assert ([BACKSLASH, e] + t)[2..] == t;
  }

  lemma UnquoteLong(a: CodeUnit, b: CodeUnit, c: CodeUnit, d: CodeUnit, t: Text)
    ensures Unquote([BACKSLASH, 'u' as int, a, b, c, d] + t) == Prepend(LongUnit(a, b, c, d), Unquote(t))
  {
    assert ([BACKSLASH, 'u' as int, a, b, c, d] + t)[6..] == t;
  }

  lemma UnquotePlain(u: CodeUnit, t: Text)
    requires u != QUOTE && u != BACKSLASH
    ensures Unquote([u] + t) == Prepend(u, Unquote(t))
  {
    assert ([u] + t)[1..] == t;
  }

  lemma EscapeRoundTrip(u: CodeUnit, t: Text)
    ensures Unquote(EscapeUnit(u) + t) == Prepend(u, Unquote(t))
  {
    hide Unquote;
    if ShortEscape(u) != 0 {
      UnquoteShort(ShortEscape(u), t);
    } else if u < 0x20 || IsLeading(u) || IsTrailing(u) {
      HexDigitsRoundTrip(u);
      UnquoteLong(HexDigit(u / 0x1000), HexDigit(u / 0x100 % 16), HexDigit(u / 0x10 % 16), HexDigit(u % 16), t);
    } else {
      UnquotePlain(u, t);
    }
  }

  /** A surrogate pair passes through unescaped, as two plain units. */
  lemma UnquotePair(u: CodeUnit, v: CodeUnit, t: Text)
    requires IsLeading(u) && IsTrailing(v)
    ensures Unquote([u, v] + t) == Prepend(u, Prepend(v, Unquote(t)))
  {
    hide Unquote;
    UnquotePlain(v, t);
    UnquotePlain(u, [v] + t);
    assert [u] + ([v] + t) == [u, v] + t;
  }

  lemma Regroup(head: Text, body: Text, rest: Text)
    ensures (head + body) + [QUOTE] + rest == head + (body + [QUOTE] + rest)
  {
  }

  lemma QuoteNothing(rest: Text)
    ensures Unquote(QuoteBody([]) + [QUOTE] + rest) == Done([], rest)
  {
    assert QuoteBody([]) + [QUOTE] + rest == [QUOTE] + rest;
    assert ([QUOTE] + rest)[1..] == rest;
  }

  lemma QuotePair(s: Text)
    requires |s| >= 2 && IsLeading(s[0]) && IsTrailing(s[1])
    ensures QuoteBody(s) == s[..2] + QuoteBody(s[2..])
  {
  }

  lemma QuoteSingle(s: Text)
    requires s != [] && !(|s| >= 2 && IsLeading(s[0]) && IsTrailing(s[1]))
    ensures QuoteBody(s) == EscapeUnit(s[0]) + QuoteBody(s[1..])
  {
  }

  lemma {:induction false} QuoteBodyRoundTrip(s: Text, rest: Text)
    ensures Unquote(QuoteBody(s) + [QUOTE] + rest) == Done(s, rest)
    decreases |s|
  {
    hide QuoteBody, Unquote, EscapeUnit;
    if s == [] {
      QuoteNothing(rest);
    } else if |s| >= 2 && IsLeading(s[0]) && IsTrailing(s[1]) {
      QuotePair(s);
      QuoteBodyRoundTrip(s[2..], rest);
      Regroup(s[..2], QuoteBody(s[2..]), rest);
      UnquotePair(s[0], s[1], QuoteBody(s[2..]) + [QUOTE] + rest);
      assert s[..2] == [s[0], s[1]] && s == [s[0]] + ([s[1]] + s[2..]);
    } else {
      QuoteSingle(s);
      QuoteBodyRoundTrip(s[1..], rest);
      Regroup(EscapeUnit(s[0]), QuoteBody(s[1..]), rest);
      EscapeRoundTrip(s[0], QuoteBody(s[1..]) + [QUOTE] + rest);
      assert s == [s[0]] + s[1..];
    }
  }

  lemma QuoteRoundTrip(s: Text, rest: Text)
    ensures |Quote(s)| > 0 && (Quote(s) + rest)[0] == QUOTE
    ensures Unquote((Quote(s) + rest)[1..]) == Done(s, rest)
  {
    assert (Quote(s) + rest)[1..] == QuoteBody(s) + [QUOTE] + rest;
    QuoteBodyRoundTrip(s, rest);
  }

  lemma {:induction false} DigitsRoundTrip(n: nat, rest: Text)
    ensures ReadDigits(Digits(n) + rest, 0) == ReadDigits(rest, n)
    decreases n
  {
    var d: CodeUnit := '0' as int + n % 10;
    if n < 10 {
      assert (Digits(n) + rest)[1..] == rest;
    } else {
      assert Digits(n) + rest == Digits(n / 10) + ([d] + rest);
      DigitsRoundTrip(n / 10, [d] + rest);
      assert ([d] + rest)[1..] == rest;
    }
  }

  /** `rest` cannot be taken for more digits of a number printed just before it. */
  predicate Delimited(rest: Text) {
    rest == [] || !IsDigit(rest[0])
  }

  lemma ParseDigits(t: Text)
    requires t != [] && IsDigit(t[0])
    ensures Parse(t) == Done(VNum(ReadDigits(t, 0).value), ReadDigits(t, 0).rest)
  {
    assert ReadDigits(t, 0) == ReadDigits(t[1..], t[0] - '0' as int);
    NotAWord(t);
  }

  lemma NotAWord(t: Text)
    requires t != [] && t[0] !in {NULL[0], TRUE[0], FALSE[0]}
    ensures !StartsWith(t, NULL) && !StartsWith(t, TRUE) && !StartsWith(t, FALSE)
  {
    assert forall w: Text :: w != [] && StartsWith(t, w) ==> t[..|w|][0] == w[0];
  }

  lemma ParseNegative(t: Text)
    ensures Parse([MINUS] + t) == Done(VNum(0 - ReadDigits(t, 0).value), ReadDigits(t, 0).rest)
  {
    assert ([MINUS] + t)[1..] == t;
    NotAWord([MINUS] + t);
  }

  lemma DecimalRoundTrip(n: int, rest: Text)
    requires Delimited(rest)
    ensures Parse(Decimal(n) + rest) == Done(VNum(n), rest)
  {
    hide Parse;
    if n < 0 {
      assert Decimal(n) + rest == [MINUS] + (Digits(-n) + rest);
      DigitsRoundTrip(-n, rest);
      ParseNegative(Digits(-n) + rest);
    } else {
      DigitsRoundTrip(n, rest);
      ParseDigits(Digits(n) + rest);
    }
  }
}
