/** The check that a message quotes only the estimate's own amounts, and that it reads what the printer wrote. */
module PriceCheck {
  import opened Wrappers
  import opened Characters
  import opened Money
  import opened PricePattern

  // ----- The amounts in a body -----

  /** Where the point stands in a numeral, or its length when it has none. */
  function Point(raw: string): (k: nat)
    ensures k <= |raw| && (forall i | 0 <= i < k :: raw[i] != '.') && (k < |raw| ==> raw[k] == '.')
  {
    if raw == "" || raw[0] == '.' then 0 else 1 + Point(raw[1..])
  }

  /** A numeral's paise: nothing before the point is no rupees, and one digit after it is tenths. */
  function Amount(raw: string): Option<nat> {
    var k := Point(raw);
    var rupees, paise := WithoutCommas(raw[..k]), if k < |raw| then raw[k + 1..] else "";
    if !AllDigits(rupees) || !AllDigits(paise) || |paise| > 2 then None
    else Some(100 * Whole(rupees) + if |paise| == 1 then 10 * Whole(paise) else Whole(paise))
  }

  function AmountsFrom(s: string, p: nat): seq<nat>
    requires p <= |s|
    decreases |s| - p
  {
    if p == |s| then []
    else
      var m := MatchAt(s, p);
      if m.None? then AmountsFrom(s, p + 1)
      else
        var amount := Amount(s[m.value.start..m.value.stop]);
        (if amount.Some? then [amount.value] else []) + AmountsFrom(s, m.value.end)
  }

  lemma AmountsStep(s: string, p: nat)
    requires p < |s|
    ensures MatchAt(s, p) == None ==> AmountsFrom(s, p) == AmountsFrom(s, p + 1)
    ensures MatchAt(s, p).Some? ==>
              var m := MatchAt(s, p).value;
              var amount := Amount(s[m.start..m.stop]);
              AmountsFrom(s, p) == (if amount.Some? then [amount.value] else []) + AmountsFrom(s, m.end)
  {
    hide MatchAt, Amount;
  }

  method ExtractAmountsPaise(body: string) returns (amounts: seq<nat>)
    ensures amounts == AmountsFrom(body, 0)
  {
    hide MatchAt, Amount, AmountsFrom;
    NothingLeft(body);
    amounts := [];
    var p := 0;
    while p < |body|
      invariant p <= |body|
      invariant amounts + AmountsFrom(body, p) == AmountsFrom(body, 0)
    {
      AmountsStep(body, p);
      var m := MatchAt(body, p);
      if m.None? {
        p := p + 1;
        continue;
      }
      var amount := Amount(body[m.value.start..m.value.stop]);
      if amount.Some? {
        amounts := amounts + [amount.value];
      }
      p := m.value.end;
    }
  }

  /** The amounts quoted that the estimate does not carry. */
  function Unlisted(mentioned: seq<nat>, allowed: set<nat>): seq<nat> {
    if mentioned == [] then []
    else (if mentioned[0] in allowed then [] else [mentioned[0]]) + Unlisted(mentioned[1..], allowed)
  }

  /** A reason to hold the message back: an amount, and how it is shown. */
  datatype Reason = PriceNotOnEstimate(amount: nat, span: string)

  function CheckPrices(body: string, allowed: set<nat>): seq<Reason> {
    var unlisted := Unlisted(AmountsFrom(body, 0), allowed);
    seq(|unlisted|, i requires 0 <= i < |unlisted| => PriceNotOnEstimate(unlisted[i], FormatPaise(unlisted[i], true)))
  }

  lemma {:induction false} UnlistedExactly(mentioned: seq<nat>, allowed: set<nat>)
    ensures forall a :: a in Unlisted(mentioned, allowed) <==> a in mentioned && a !in allowed
  {
    if mentioned != [] {
      UnlistedExactly(mentioned[1..], allowed);
      assert forall a :: a in mentioned <==> a == mentioned[0] || a in mentioned[1..];
    }
  }

  /** The check passes a message exactly when every amount it mentions is allowed. */
  lemma PassesExactly(body: string, allowed: set<nat>)
    ensures CheckPrices(body, allowed) == [] <==> forall a | a in AmountsFrom(body, 0) :: a in allowed
  {
    var mentioned := AmountsFrom(body, 0);
    UnlistedExactly(mentioned, allowed);
    var unlisted := Unlisted(mentioned, allowed);
    if unlisted != [] {
      assert unlisted[0] in unlisted;
    }
  }

  // ----- Numerals are numbers -----

  lemma {:induction false} NumberCharsAreDigits(s: string)
    requires forall i | 0 <= i < |s| :: IsNumberChar(s[i])
    ensures AllDigits(WithoutCommas(s))
    decreases |s|
  {
    if s != "" {
      NumberCharsAreDigits(s[..|s| - 1]);
    }
  }

  /** Every numeral the pattern accepts reads as an amount; none is passed over as no number. */
  lemma NumeralIsAmount(raw: string, k: nat)
    requires IsNumeral(raw, k)
    ensures Point(raw) == k && Amount(raw).Some?
  {
    assert forall i | 0 <= i < k :: raw[i] != '.';
    NumberCharsAreDigits(raw[..k]);
    if k < |raw| {
      var paise := raw[k + 1..];
      assert forall i | 0 <= i < |paise| :: paise[i] == raw[k + 1 + i];
    }
  }

  /** Zeros at the end of a fraction, and a fraction of zeros, do not change an amount. */
  lemma ZerosAddNothing(rupees: string, tenths: char)
    requires IsNumeral(rupees, |rupees|) && IsDigit(tenths)
    ensures Amount(rupees + ".0") == Amount(rupees + ".00") == Amount(rupees)
    ensures Amount(rupees + "." + [tenths, '0']) == Amount(rupees + "." + [tenths])
  {
    hide Amount, IsNumeral, Whole;
    AmountRead(rupees, "0");
    AmountRead(rupees, "00");
    assert rupees + "." + "0" == rupees + ".0" && rupees + "." + "00" == rupees + ".00";
    ZerosAreNothing();
    AmountRead(rupees, [tenths]);
    AmountRead(rupees, [tenths, '0']);
    WholeOfOneMore([tenths], '0');
    assert [tenths] + ['0'] == [tenths, '0'];
  }

  lemma AmountRead(rupees: string, paise: string)
    requires IsNumeral(rupees, |rupees|) && 1 <= |paise| <= 2 && AllDigits(paise)
    ensures AllDigits(WithoutCommas(rupees))
    ensures Amount(rupees) == Some(100 * Whole(WithoutCommas(rupees)))
    ensures Amount(rupees + "." + paise)
         == Some(100 * Whole(WithoutCommas(rupees)) + (if |paise| == 1 then 10 * Whole(paise) else Whole(paise)))
  {
    hide WithoutCommas, Whole;
    var raw, k := rupees + "." + paise, |rupees|;
    assert IsNumeral(raw, k);
    NumeralIsAmount(rupees, k);
    NumeralIsAmount(raw, k);
    NumberCharsAreDigits(rupees);
    assert rupees[..k] == rupees == raw[..k] && raw[k + 1..] == paise;
    ZerosAreNothing();
  }

  lemma ZerosAreNothing()
    ensures Whole("") == 0 && Whole("0") == 0 && Whole("00") == 0
  {
    WholeOfOneMore("", '0');
    WholeOfOneMore("0", '0');
    assert "" + ['0'] == "0" && "0" + ['0'] == "00";
  }

  // ----- Reading what was printed -----

  lemma GroupedNumberChars(n: nat)
    ensures Grouped(n) != "" && forall i | 0 <= i < |Grouped(n)| :: IsNumberChar(Grouped(n)[i])
  {
    GroupedShape(n);
  }

  /** A printed amount, without its symbol, is a numeral worth that amount. */
  lemma PrintedIsNumeral(paise: nat)
    ensures IsNumeral(FormatPaise(paise, false), |Grouped(paise / 100)|)
    ensures Amount(FormatPaise(paise, false)) == Some(paise)
  {
    hide Grouped, Pair, Whole, WithoutCommas;
    var rupees, pair := Grouped(paise / 100), Pair(paise % 100);
    var raw := FormatPaise(paise, false);
    assert raw == rupees + "." + pair;
    GroupedNumberChars(paise / 100);
    GroupedReads(paise / 100);
    PairDigits(paise % 100);
    assert IsNumeral(raw, |rupees|);
    NumeralIsAmount(raw, |rupees|);
    assert raw[..|rupees|] == rupees && raw[|rupees| + 1..] == pair;
    WholeOfPair("", paise % 100);
    assert "" + pair == pair && Whole("") == 0 by { WholeOfNothing(); }
  }

  lemma WholeOfNothing()
    ensures Whole("") == 0
  {
  }

  /** Amounts as printed, each with the text that follows it. */
  datatype Piece = Piece(paise: nat, after: string)

  function Body(pieces: seq<Piece>): string {
    if pieces == [] then "" else FormatPaise(pieces[0].paise, true) + pieces[0].after + Body(pieces[1..])
  }

  function Printed(pieces: seq<Piece>): seq<nat> {
    seq(|pieces|, i requires 0 <= i < |pieces| => pieces[i].paise)
  }

  /** What comes next begins with the symbol, or is nothing. */
  predicate StartsAtSymbol(s: string, p: nat) {
    p == |s| || (p < |s| && s[p] == RUPEE)
  }

  // ----- Text that mentions no amount -----

  /**
   Text that, read by itself, mentions no amount. It may hold numbers, commas and markers, as long as none
   belong together.
   */
  predicate Silent(t: string) {
    AmountsFrom(t, 0) == []
  }

  lemma {:induction false} NoMatchAt(t: string, p: nat, i: nat)
    requires p <= i < |t| && AmountsFrom(t, p) == []
    ensures MatchAt(t, i) == None
    decreases i - p
  {
    hide MatchAt, AmountsFrom;
    AmountsStep(t, p);
    if MatchAt(t, p).Some? {
      ScannedIsAmount(t, p);
    } else if p < i {
      NoMatchAt(t, p + 1, i);
    }
  }

  lemma ScannedIsAmount(t: string, p: nat)
    requires p < |t| && MatchAt(t, p).Some?
    ensures var m := MatchAt(t, p).value; Amount(t[m.start..m.stop]).Some?
  {
    hide Amount, IsNumeral;
    var m := MatchAt(t, p).value;
    NumeralScanned(t, m.start);
    NumeralIsAmount(t[m.start..m.stop], RunEnd(t, m.start) - m.start);
  }

  /** `t` stands in `s` at `off`, and the symbol or nothing comes after it. */
  predicate Stands(s: string, off: nat, t: string) {
    off + |t| <= |s| && s[off..off + |t|] == t && StartsAtSymbol(s, off + |t|)
  }

  lemma StandsAt(s: string, off: nat, t: string, i: nat)
    requires Stands(s, off, t) && off <= i < off + |t|
    ensures s[i] == t[i - off]
  {
    assert s[i] == s[off..off + |t|][i - off];
  }

  /** None of a marker, after its first character, nor of spaces and numerals is the symbol. */
  lemma NoSymbolInside(s: string, p: nat, a: nat, b: nat, k: nat, q: nat, i: nat)
    requires Marked(s, p, a, b, k, q) && p < i < q
    ensures s[i] != RUPEE
  {
    if i < a {
      assert Lower(s[i]) == 's' || s[i] == '.' || Lower(s[i]) == 'n' || Lower(s[i]) == 'r';
    } else if i < b {
      assert IsSpace(s[i]);
    } else {
      assert s[i] == s[b..q][i - b];
    }
  }

  lemma MarkedWithin(s: string, off: nat, t: string, p: nat, a: nat, b: nat, k: nat, q: nat)
    requires Stands(s, off, t) && off <= p < off + |t| && Marked(s, p, a, b, k, q)
    ensures q <= off + |t| && p < a && Marked(t, p - off, a - off, b - off, k, q - off)
  {
    hide IsSpace, IsNumeral;
    var end := off + |t|;
    if q > end {
      NoSymbolInside(s, p, a, b, k, q, end);
    }
    forall i | off <= i < end
      ensures s[i] == t[i - off]
    {
      StandsAt(s, off, t, i);
    }
    assert s[b..q] == t[b - off..q - off];
  }

  lemma NoSymbolFollows(s: string, p: nat, k: nat, b: nat, c: nat, q: nat, i: nat)
    requires Followed(s, p, k, b, c, q) && p <= i < q && q <= |s|
    ensures s[i] != RUPEE
  {
    if i < b {
      assert s[i] == s[p..b][i - p];
    } else if i < c {
      assert IsSpace(s[i]);
    } else {
      SuffixHasNoSymbol(s, c, q, i);
    }
  }

  lemma SuffixHasNoSymbol(s: string, c: nat, q: nat, i: nat)
    requires Suffix(s, c, q) && c <= i < q
    ensures q <= |s| && s[i] != RUPEE
  {
    forall word | word in ["/-", "rupee", "rupees", TAMIL, HINDI] && At(s, c, word) && q == c + |word|
      ensures q <= |s| && s[i] != RUPEE
    {
      assert Lower(s[i]) == word[i - c];
      assert forall k | 0 <= k < |word| :: word[k] != RUPEE;
    }
  }

  lemma FollowedWithin(s: string, off: nat, t: string, p: nat, k: nat, b: nat, c: nat, q: nat)
    requires Stands(s, off, t) && off <= p < off + |t| && Followed(s, p, k, b, c, q)
    ensures p < b <= c && q <= off + |t| && Followed(t, p - off, k, b - off, c - off, q - off)
  {
    hide IsSpace, IsNumeral, TAMIL, HINDI;
    var end := off + |t|;
    MarkerIsNoNumber(s, c, q);
    if q > end {
      NoSymbolFollows(s, p, k, b, c, q, end);
    }
    forall i | off <= i < end
      ensures s[i] == t[i - off]
    {
      StandsAt(s, off, t, i);
    }
    assert s[p..b] == t[p - off..b - off];
    SuffixWithin(s, off, t, c, q);
  }

  lemma SuffixWithin(s: string, off: nat, t: string, c: nat, q: nat)
    requires Suffix(s, c, q) && off <= c && q <= off + |t| <= |s|
    requires forall i | off <= i < off + |t| :: s[i] == t[i - off]
    ensures Suffix(t, c - off, q - off)
  {
    hide At, TAMIL, HINDI;
    AtWithin(s, off, t, c, "/-");
    AtWithin(s, off, t, c, "rupee");
    AtWithin(s, off, t, c, "rupees");
    AtWithin(s, off, t, c, TAMIL);
    AtWithin(s, off, t, c, HINDI);
    ForeignLengths();
  }

  lemma ForeignLengths()
    ensures |TAMIL| == 6 && |HINDI| == 5
  {
  }

  lemma AtWithin(s: string, off: nat, t: string, c: nat, word: string)
    requires off <= c && off + |t| <= |s| && forall i | off <= i < off + |t| :: s[i] == t[i - off]
    ensures At(s, c, word) && c + |word| <= off + |t| ==> At(t, c - off, word)
  {
    if At(s, c, word) && c + |word| <= off + |t| {
      forall i | c - off <= i < c - off + |word|
        ensures Lower(t[i]) == word[i - (c - off)]
      {
        assert s[i + off] == t[i];
      }
    }
  }

  /** Whatever matches inside a text, where the symbol or nothing follows it, matches in the text by itself. */
  lemma MatchWithin(s: string, off: nat, t: string, p: nat)
    requires Stands(s, off, t) && off <= p < off + |t| && MatchAt(s, p).Some?
    ensures MatchAt(t, p - off).Some?
  {
    hide MatchAt, Marked, Followed, Stands;
    ScannedIsAccepted(s, p);
    var m := MatchAt(s, p).value;
    if m.stop == m.end && exists a: nat, k: nat :: Marked(s, p, a, m.start, k, m.end) {
      var a: nat, k: nat :| Marked(s, p, a, m.start, k, m.end);
      MarkedWithin(s, off, t, p, a, m.start, k, m.end);
      MarkedIsScanned(t, p - off, a - off, m.start - off, k, m.end - off);
    } else {
      var k: nat, c: nat :| Followed(s, p, k, m.stop, c, m.end);
      FollowedWithin(s, off, t, p, k, m.stop, c, m.end);
      FollowedIsScanned(t, p - off, k, m.stop - off, c - off, m.end - off);
    }
  }

  lemma {:induction false} SilentSkipped(s: string, off: nat, t: string, p: nat)
    requires Stands(s, off, t) && Silent(t) && off <= p <= off + |t|
    ensures AmountsFrom(s, p) == AmountsFrom(s, off + |t|)
    decreases off + |t| - p
  {
    hide MatchAt, AmountsFrom;
    if p < off + |t| {
      NoMatchAt(t, 0, p - off);
      if MatchAt(s, p).Some? {
        MatchWithin(s, off, t, p);
      }
      AmountsStep(s, p);
      SilentSkipped(s, off, t, p + 1);
    }
  }

  /** Text without a digit or comma is silent, whatever markers it holds. */
  lemma PlainIsSilent(t: string)
    requires forall i | 0 <= i < |t| :: !IsNumberChar(t[i])
    ensures Silent(t)
  {
    hide AmountsFrom;
    PlainMentionsNothing(t, 0);
  }

  lemma {:induction false} PlainMentionsNothing(t: string, p: nat)
    requires p <= |t| && forall i | 0 <= i < |t| :: !IsNumberChar(t[i])
    ensures AmountsFrom(t, p) == []
    decreases |t| - p
  {
    hide MatchAt, AmountsFrom;
    if p < |t| {
      PlainDoesNotMatch(t, p);
      AmountsStep(t, p);
      PlainMentionsNothing(t, p + 1);
    } else {
      NothingLeft(t);
    }
  }

  lemma PlainDoesNotMatch(t: string, p: nat)
    requires p < |t| && forall i | 0 <= i < |t| :: !IsNumberChar(t[i])
    ensures MatchAt(t, p) == None
  {
  }

  // ----- Printed amounts among silent text -----

  lemma NumeralFound(s: string, p: nat, q: nat, k: nat)
    requires p < q <= |s| && IsNumeral(s[p..q], k) && k + 3 == q - p
    ensures NumeralEnd(s, p) == q
  {
    NumeralLongest(s, p, k, q);
    assert s[p + k] == s[p..q][k] == '.';
    assert RunEnd(s, p) <= p + k;
  }

  lemma PrintedFound(s: string, p: nat, paise: nat)
    requires p <= |s| && FormatPaise(paise, true) <= s[p..]
    ensures var e := p + |FormatPaise(paise, true)|;
            && e <= |s|
            && AmountsFrom(s, p) == [paise] + AmountsFrom(s, e)
  {
    hide Amount, Grouped, IsNumeral, NumeralEnd, AmountsFrom, MatchAt;
    var text, raw := FormatPaise(paise, true), FormatPaise(paise, false);
    var e := p + |text|;
    assert text == [RUPEE] + raw;
    assert s[p] == text[0];
    assert s[p + 1..e] == raw by {
      assert s[p..][..|text|] == text;
      assert s[p + 1..e] == s[p..][..|text|][1..];
    }
    PrintedIsNumeral(paise);
    NumeralFound(s, p + 1, e, |Grouped(paise / 100)|);
    assert !IsSpace(raw[0]) by { FirstIsDigit(paise); }
    assert s[p + 1] == raw[0];
    MatchOfPrefix(s, p, p + 1, p + 1);
    AmountsStep(s, p);
  }

  lemma FirstIsDigit(paise: nat)
    ensures FormatPaise(paise, false) != "" && IsDigit(FormatPaise(paise, false)[0])
  {
    GroupedShape(paise / 100);
  }

  /** One printed amount and the silent text after it, in any text, are read as that amount. */
  lemma PieceReads(done: string, piece: Piece, rest: string)
    requires Silent(piece.after) && StartsAtSymbol(rest, 0)
    ensures var front := done + FormatPaise(piece.paise, true) + piece.after;
            AmountsFrom(front + rest, |done|) == [piece.paise] + AmountsFrom(front + rest, |front|)
  {
    hide AmountsFrom, FormatPaise;
    var text, after := FormatPaise(piece.paise, true), piece.after;
    var front := done + text + after;
    var s, e := front + rest, |done| + |text|;
    assert s[|done|..] == text + (after + rest);
    PrintedFound(s, |done|, piece.paise);
    assert rest != "" ==> s[|front|] == rest[0];
    assert Stands(s, e, after);
    SilentSkipped(s, e, after, e);
  }

  lemma {:induction false} BodyReads(done: string, pieces: seq<Piece>)
    requires forall piece | piece in pieces :: Silent(piece.after)
    ensures AmountsFrom(done + Body(pieces), |done|) == Printed(pieces)
    decreases |pieces|
  {
    hide AmountsFrom, FormatPaise, Silent;
    var s := done + Body(pieces);
    if pieces == [] {
      NothingLeft(s);
      assert |done| == |s|;
    } else {
      var rest := Body(pieces[1..]);
      var next := done + FormatPaise(pieces[0].paise, true) + pieces[0].after;
      BodyStarts(pieces[1..]);
      PieceReads(done, pieces[0], rest);
      BodyReads(next, pieces[1..]);
      assert next + rest == s;
      assert Printed(pieces) == [pieces[0].paise] + Printed(pieces[1..]);
    }
  }

  lemma NothingLeft(s: string)
    ensures AmountsFrom(s, |s|) == []
  {
  }

  lemma BodyStarts(pieces: seq<Piece>)
    ensures StartsAtSymbol(Body(pieces), 0)
  {
  }

  /** Amounts printed one after another among silent text are read back as those amounts, in order. */
  lemma PrintedAmountsRead(before: string, pieces: seq<Piece>)
    requires Silent(before) && forall piece | piece in pieces :: Silent(piece.after)
    ensures AmountsFrom(before + Body(pieces), 0) == Printed(pieces)
  {
    hide AmountsFrom, Silent;
    var s := before + Body(pieces);
    BodyStarts(pieces);
    assert Body(pieces) != "" ==> s[|before|] == Body(pieces)[0];
    assert Stands(s, 0, before);
    SilentSkipped(s, 0, before, 0);
    BodyReads(before, pieces);
  }

  /** A message that quotes printed amounts passes exactly when the estimate carries every one of them. */
  lemma PrintedPricesPassExactly(before: string, pieces: seq<Piece>, allowed: set<nat>)
    requires Silent(before) && forall piece | piece in pieces :: Silent(piece.after)
    ensures CheckPrices(before + Body(pieces), allowed) == []
        <==> forall piece | piece in pieces :: piece.paise in allowed
  {
    hide AmountsFrom, CheckPrices, Silent;
    PrintedAmountsRead(before, pieces);
    PassesExactly(before + Body(pieces), allowed);
    assert forall i | 0 <= i < |pieces| :: Printed(pieces)[i] == pieces[i].paise && pieces[i] in pieces;
    assert forall a | a in Printed(pieces) :: exists i :: 0 <= i < |pieces| && pieces[i].paise == a;
  }

  lemma SpanReads(amount: nat)
    ensures AmountsFrom(FormatPaise(amount, true), 0) == [amount]
  {
    hide AmountsFrom, FormatPaise;
    var text := FormatPaise(amount, true);
    assert text[0..] == text;
    PrintedFound(text, 0, amount);
    NothingLeft(text);
  }

  /**
   The reasons are for the amounts mentioned that are not allowed, each with its amount, and with a span that is read
   as that amount and no other.
   */
  lemma ReasonsExactly(body: string, allowed: set<nat>)
    ensures var reasons := CheckPrices(body, allowed);
            && (forall i | 0 <= i < |reasons| ::
                  && reasons[i].amount in AmountsFrom(body, 0) && reasons[i].amount !in allowed
                  && AmountsFrom(reasons[i].span, 0) == [reasons[i].amount])
            && forall a | a in AmountsFrom(body, 0) && a !in allowed ::
                 exists i | 0 <= i < |reasons| :: reasons[i].amount == a
  {
    hide AmountsFrom, FormatPaise, Unlisted;
    var reasons := CheckPrices(body, allowed);
    var unlisted := Unlisted(AmountsFrom(body, 0), allowed);
    UnlistedExactly(AmountsFrom(body, 0), allowed);
    forall i | 0 <= i < |reasons|
      ensures reasons[i].amount == unlisted[i] && unlisted[i] in unlisted
      ensures AmountsFrom(reasons[i].span, 0) == [reasons[i].amount]
    {
      SpanReads(unlisted[i]);
    }
  }

  /** Two amounts never print alike. */
  lemma PrintingInjective(a: nat, b: nat)
    requires FormatPaise(a, false) == FormatPaise(b, false)
    ensures a == b
  {
    PrintedIsNumeral(a);
    PrintedIsNumeral(b);
  }

  /**
   No marker stands anywhere: no symbol, no abbreviation at the start of a word, no word or stroke that follows
   a number.
   */
  ghost predicate Unmarked(s: string) {
    && (forall p: nat, a: nat :: !Prefix(s, p, a))
    && (forall c: nat, q: nat :: !Suffix(s, c, q))
  }

  /** Numbers that carry no marker are not money. */
  lemma {:induction false} UnmarkedIsNotMoney(s: string, p: nat)
    requires p <= |s| && Unmarked(s)
    ensures AmountsFrom(s, p) == []
    decreases |s| - p
  {
    hide AmountsFrom, Amount, MatchAt, Unmarked;
    if p < |s| {
      UnmarkedDoesNotMatch(s, p);
      AmountsStep(s, p);
      UnmarkedIsNotMoney(s, p + 1);
    } else {
      NothingLeft(s);
    }
  }

  lemma UnmarkedDoesNotMatch(s: string, p: nat)
    requires p < |s| && Unmarked(s)
    ensures MatchAt(s, p) == None
  {
    hide Prefix, Suffix, At, IsSpace, NumeralEnd;
    PrefixStands(s, p);
    forall c: nat
      ensures SuffixEnd(s, c) == None
    {
      SuffixStands(s, c);
    }
  }

  lemma PrefixStands(s: string, p: nat)
    requires p < |s|
    ensures PrefixEnd(s, p).Some? ==> Prefix(s, p, PrefixEnd(s, p).value)
  {
  }

  lemma SuffixStands(s: string, c: nat)
    ensures SuffixEnd(s, c).Some? ==> Suffix(s, c, SuffixEnd(s, c).value)
  {
  }

  // ----- Case -----

  /** What the scanner reads by is the same in either case. */
  lemma SameAt(s: string, t: string, p: nat)
    requires SameButForCase(s, t)
    ensures forall word :: At(s, p, word) <==> At(t, p, word)
    ensures p <= |s| ==> (WordStarts(s, p) <==> WordStarts(t, p))
    ensures p < |s| && (IsNumberChar(s[p]) || IsSpace(s[p]) || s[p] == '.' || s[p] == RUPEE) ==> t[p] == s[p]
  {
    forall i | 0 <= i < |s|
      ensures Lower(s[i]) == Lower(t[i]) && (IsWord(s[i]) <==> IsWord(t[i]))
    {
      LowerExactly(s[i], t[i]);
      SameClass(s[i], t[i]);
    }
    if p < |s| {
      SameClass(s[p], t[p]);
    }
  }

  lemma SameClass(c: char, d: char)
    requires SameLetter(c, d)
    ensures IsWord(c) <==> IsWord(d)
    ensures IsNumberChar(c) || IsSpace(c) || c == '.' || c == RUPEE ==> d == c
  {
  }

  lemma SameCaseSwapped(s: string, t: string)
    requires SameButForCase(s, t)
    ensures SameButForCase(t, s)
  {
  }

  lemma {:induction false} SameRuns(s: string, t: string, p: nat)
    requires SameButForCase(s, t) && p <= |s|
    ensures RunEnd(t, p) == RunEnd(s, p) && SpacesEnd(t, p) == SpacesEnd(s, p)
    decreases |s| - p
  {
    hide SameButForCase, IsSpace, IsNumberChar;
    SameAt(s, t, p);
    SameCaseSwapped(s, t);
    SameAt(t, s, p);
    SameLengths(s, t);
    if p < |s| {
      SameRuns(s, t, p + 1);
    }
  }

  lemma SameLengths(s: string, t: string)
    requires SameButForCase(s, t)
    ensures |t| == |s|
  {
  }

  lemma SameNumerals(s: string, t: string, p: nat)
    requires SameButForCase(s, t) && p <= |s|
    ensures NumeralEnd(t, p) == NumeralEnd(s, p)
    ensures t[p..NumeralEnd(s, p)] == s[p..NumeralEnd(s, p)]
  {
    hide SameButForCase, IsSpace;
    SameLengths(s, t);
    SameCaseSwapped(s, t);
    SameRuns(s, t, p);
    forall i: nat | i < |s|
      ensures IsNumberChar(s[i]) || s[i] == '.' ==> t[i] == s[i]
      ensures IsNumberChar(t[i]) || t[i] == '.' ==> t[i] == s[i]
    {
      SameAt(s, t, i);
      SameAt(t, s, i);
    }
  }

  lemma SameMatch(s: string, t: string, p: nat)
    requires SameButForCase(s, t) && p < |s| && p < |t|
    ensures MatchAt(t, p) == MatchAt(s, p)
    ensures MatchAt(s, p).Some? ==>
              var m := MatchAt(s, p).value; m.stop <= |t| && t[m.start..m.stop] == s[m.start..m.stop]
  {
    hide SameButForCase, IsSpace, IsNumberChar, At, PrefixEnd, NumeralEnd, RunEnd, SpacesEnd, IsWord;
    SameLengths(s, t);
    SameCaseSwapped(s, t);
    SamePrefix(s, t, p);
    if PrefixEnd(s, p).Some? {
      SameRuns(s, t, PrefixEnd(s, p).value);
      SameNumerals(s, t, SpacesEnd(s, PrefixEnd(s, p).value));
    } else {
      SameNumerals(s, t, p);
      SameRuns(s, t, NumeralEnd(s, p));
      SameAt(s, t, SpacesEnd(s, NumeralEnd(s, p)));
    }
  }

  lemma SamePrefix(s: string, t: string, p: nat)
    requires SameButForCase(s, t) && p < |s| && p < |t|
    ensures PrefixEnd(t, p) == PrefixEnd(s, p) && (PrefixEnd(s, p).Some? ==> PrefixEnd(s, p).value <= |s|)
  {
    hide SameButForCase, IsSpace, IsNumberChar, WordStarts;
    SameLengths(s, t);
    SameCaseSwapped(s, t);
    SameAt(s, t, p);
    SameAt(t, s, p);
    if p + 2 < |s| {
      SameAt(s, t, p + 2);
      SameAt(t, s, p + 2);
    }
  }

  /** The amounts a message mentions do not depend on the case it is written in. */
  lemma {:induction false} CaseIrrelevant(s: string, t: string, p: nat)
    requires SameButForCase(s, t) && p <= |s| && p <= |t|
    ensures AmountsFrom(t, p) == AmountsFrom(s, p)
    decreases |s| - p
  {
    hide SameButForCase, MatchAt, Amount;
    SameLengths(s, t);
    if p < |s| {
      SameMatch(s, t, p);
      if MatchAt(s, p).None? {
        CaseIrrelevant(s, t, p + 1);
      } else {
        CaseIrrelevant(s, t, MatchAt(s, p).value.end);
      }
    }
  }

  /** Word characters, at whose edge a marker may begin, are letters, digits and the underscore. */
  lemma WordsExactly(c: char)
    ensures IsWord(c) <==> IsDigit(c) || c == '_' || exists u :: u in ALPHABET && SameLetter(c, u)
  {
    hide ALPHABET;
    LettersExactly(c);
    if 'a' <= c <= 'z' {
      LettersExactly(c - 'a' + 'A');
      assert SameLetter(c, c - 'a' + 'A');
    }
    forall u | u in ALPHABET && SameLetter(c, u)
      ensures IsWord(c)
    {
      LettersExactly(u);
    }
  }

  // ----- Amounts after a word -----

  /** A word that marks an amount, in any case. */
  predicate IsMarkerWord(word: string) {
    SameButForCase(word, "rs") || SameButForCase(word, "rs.") || SameButForCase(word, "inr")
  }

  /** The text of an amount after a marker word is what the grammar accepts there, if the word begins there. */
  lemma WordIsPrefix(s: string, p: nat, word: string, next: nat)
    requires IsMarkerWord(word) && next == p + |word| < |s| && s[p..next] == word && s[next] != '.'
    ensures WordStarts(s, p) ==> Prefix(s, p, next)
    ensures !WordStarts(s, p) ==> PrefixEnd(s, p) == None
    ensures NumeralEnd(s, p) == p
  {
    assert forall i | 0 <= i < |word| :: s[p + i] == word[i];
    assert s[p] == word[0] && s[p + 1] == word[1];
    SameAt(word, if SameButForCase(word, "rs") then "rs" else if SameButForCase(word, "rs.") then "rs." else "inr", 0);
    LowerExactly(word[0], 'r');
    LowerExactly(word[1], 's');
    LowerExactly(word[0], 'i');
    LowerExactly(word[1], 'n');
    if |word| == 3 {
      assert s[p + 2] == word[2];
      LowerExactly(word[2], 'r');
    }
  }

  /**
   A printed amount after a marker word and any space is read as that amount, exactly when no letter,
       digit or underscore
   stands right before the word.
   */
  lemma WordedExactly(before: string, word: string, gap: string, paise: nat, rest: string)
    requires IsMarkerWord(word) && IsBlank(gap)
    ensures var front := before + word + gap + FormatPaise(paise, false);
            && (MatchAt(front + rest, |before|).Some? <==> before == "" || !IsWord(before[|before| - 1]))
            && (MatchAt(front + rest, |before|).Some? ==>
                  AmountsFrom(front + rest, |before|) == [paise] + AmountsFrom(front + rest, |front|))
  {
    hide IsSpace, FormatPaise, Amount, AmountsFrom, Grouped, IsNumeral, NumeralEnd, IsMarkerWord, Prefix, PrefixEnd;
    var raw := FormatPaise(paise, false);
    var s := before + word + gap + raw + rest;
    var p, a := |before|, |before| + |word|;
    var b, q := a + |gap|, a + |gap| + |raw|;
    FirstIsDigit(paise);
    PrintedIsNumeral(paise);
    WordLength(word);
    PrintedLength(paise);
    assert s == before + word + gap + raw + rest;
    assert s[b..q] == raw && s[p..a] == word && s[b] == raw[0];
    assert p > 0 ==> s[p - 1] == before[|before| - 1];
    assert forall i | a <= i < b :: s[i] == gap[i - a];
    NumeralFound(s, b, q, |Grouped(paise / 100)|);
    PointIsNoSpace(s[a]);
    WordIsPrefix(s, p, word, a);
    if WordStarts(s, p) {
      PrefixScanned(s, p, a, b);
      MatchOfPrefix(s, p, a, b);
      AmountsStep(s, p);
    }
  }

  lemma PrintedLength(paise: nat)
    ensures |FormatPaise(paise, false)| == |Grouped(paise / 100)| + 3
  {
  }

  lemma WordLength(word: string)
    requires IsMarkerWord(word)
    ensures 2 <= |word| <= 3
  {
  }

  lemma PointIsNoSpace(c: char)
    requires IsSpace(c) || IsDigit(c)
    ensures c != '.'
  {
  }
}
