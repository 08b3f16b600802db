/**
 The pattern that finds rupee amounts in a message: what it accepts, said as a grammar, and a scanner
 that takes the longest way at each choice. The two agree at every place of every text.
 */
module PricePattern {
  import opened Wrappers
  import opened Characters

  /** A match: where its numeral stands, and where the match ends. */
  datatype Match = Match(start: nat, stop: nat, end: nat)

  // ----- Characters -----

  predicate IsWord(c: char) {
    IsDigit(c) || 'a' <= c <= 'z' || 'A' <= c <= 'Z' || c == '_'
  }

  predicate IsNumberChar(c: char) {
    IsDigit(c) || c == ','
  }

  const TAMIL := ['\U{0BB0}', '\U{0BC2}', '\U{0BAA}', '\U{0BBE}', '\U{0BAF}', '\U{0BCD}']
  const HINDI := ['\U{0930}', '\U{0941}', '\U{092A}', '\U{092F}', '\U{0947}']

  /** The word stands at this place, letters in either case. */
  predicate At(s: string, p: nat, word: string) {
    p + |word| <= |s| && forall i | p <= i < p + |word| :: Lower(s[i]) == word[i - p]
  }

  predicate WordStarts(s: string, p: nat)
    requires p <= |s|
  {
    p == 0 || !IsWord(s[p - 1])
  }

  // ----- The grammar -----

  /** Digits and commas, then perhaps a point and one or two digits. */
  ghost predicate IsNumeral(raw: string, k: nat) {
    && 1 <= k <= |raw|
    && (forall i | 0 <= i < k :: IsNumberChar(raw[i]))
    && (k == |raw| || (raw[k] == '.' && k + 2 <= |raw| <= k + 3 && forall i | k < i < |raw| :: IsDigit(raw[i])))
  }

  ghost predicate AllSpaces(s: string, a: nat, b: nat) {
    a <= b <= |s| && forall i | a <= i < b :: IsSpace(s[i])
  }

  ghost predicate Prefix(s: string, p: nat, a: nat) {
    p < |s| && (|| (s[p] == RUPEE && a == p + 1)
                || (WordStarts(s, p) && At(s, p, "rs")
                    && (a == p + 2 || (p + 2 < |s| && s[p + 2] == '.' && a == p + 3)))
                || (WordStarts(s, p) && At(s, p, "inr") && a == p + 3))
  }

  ghost predicate Suffix(s: string, c: nat, q: nat) {
    || (At(s, c, "/-") && q == c + 2)
    || (At(s, c, "rupee") && q == c + 5)
    || (At(s, c, "rupees") && q == c + 6)
    || (At(s, c, TAMIL) && q == c + 6)
    || (At(s, c, HINDI) && q == c + 5)
  }

  /** A marker, spaces, and a numeral from b, of which k characters are before the point. */
  ghost predicate Marked(s: string, p: nat, a: nat, b: nat, k: nat, q: nat) {
    b < q <= |s| && Prefix(s, p, a) && AllSpaces(s, a, b) && IsNumeral(s[b..q], k)
  }

  /** A numeral from p, spaces, and a marker. */
  ghost predicate Followed(s: string, p: nat, k: nat, b: nat, c: nat, q: nat) {
    p < b <= |s| && IsNumeral(s[p..b], k) && AllSpaces(s, b, c) && Suffix(s, c, q)
  }

  // ----- The scanner -----

  function RunEnd(s: string, p: nat): (q: nat)
    requires p <= |s|
    ensures p <= q <= |s| && (forall i | p <= i < q :: IsNumberChar(s[i])) && (q < |s| ==> !IsNumberChar(s[q]))
    decreases |s| - p
  {
    if p < |s| && IsNumberChar(s[p]) then RunEnd(s, p + 1) else p
  }

  function SpacesEnd(s: string, p: nat): (q: nat)
    requires p <= |s|
    ensures p <= q <= |s| && (forall i | p <= i < q :: IsSpace(s[i])) && (q < |s| ==> !IsSpace(s[q]))
    decreases |s| - p
  {
    if p < |s| && IsSpace(s[p]) then SpacesEnd(s, p + 1) else p
  }

  function FractionEnd(s: string, p: nat): (q: nat)
    requires p <= |s|
    ensures p <= q <= |s|
  {
    if p + 1 < |s| && s[p] == '.' && IsDigit(s[p + 1]) then
      if p + 2 < |s| && IsDigit(s[p + 2]) then p + 3 else p + 2
    else p
  }

  function NumeralEnd(s: string, p: nat): (q: nat)
    requires p <= |s|
    ensures p <= q <= |s|
  {
    if RunEnd(s, p) == p then p else FractionEnd(s, RunEnd(s, p))
  }

  function PrefixEnd(s: string, p: nat): Option<nat>
    requires p < |s|
  {
    if s[p] == RUPEE then Some(p + 1)
    else if WordStarts(s, p) && At(s, p, "rs") then Some(if p + 2 < |s| && s[p + 2] == '.' then p + 3 else p + 2)
    else if WordStarts(s, p) && At(s, p, "inr") then Some(p + 3)
    else None
  }

  function SuffixEnd(s: string, p: nat): (q: Option<nat>)
    ensures q.Some? ==> p < q.value <= |s|
  {
    if At(s, p, "/-") then Some(p + 2)
    else if At(s, p, "rupees") then Some(p + 6)
    else if At(s, p, "rupee") then Some(p + 5)
    else if At(s, p, TAMIL) then Some(p + 6)
    else if At(s, p, HINDI) then Some(p + 5)
    else None
  }

  /** The match that starts at this place, if one does. */
  function MatchAt(s: string, p: nat): (m: Option<Match>)
    requires p < |s|
    ensures m.Some? ==> p <= m.value.start < m.value.stop <= m.value.end <= |s|
  {
    var prefix := PrefixEnd(s, p);
    if prefix.Some? then
      var start := SpacesEnd(s, prefix.value);
      var stop := NumeralEnd(s, start);
      if stop == start then None else Some(Match(start, stop, stop))
    else
      var stop := NumeralEnd(s, p);
      if stop == p then None
      else
        var suffix := SuffixEnd(s, SpacesEnd(s, stop));
        if suffix.None? then None else Some(Match(p, stop, suffix.value))
  }

  // ----- The scanner takes what the grammar accepts, and the longest of it -----

  lemma NumeralScanned(s: string, p: nat)
    requires p <= |s| && NumeralEnd(s, p) > p
    ensures IsNumeral(s[p..NumeralEnd(s, p)], RunEnd(s, p) - p)
  {
  }

  /** No numeral from p is longer than the scanned one. */
  lemma NumeralLongest(s: string, p: nat, k: nat, q: nat)
    requires p < q <= |s| && IsNumeral(s[p..q], k)
    ensures p < q <= NumeralEnd(s, p)
    ensures q == NumeralEnd(s, p) || (q < |s| && (IsNumberChar(s[q]) || s[q] == '.'))
  {
    var raw := s[p..q];
    assert forall i | 0 <= i < |raw| :: raw[i] == s[p + i];
    assert IsNumberChar(s[p]);
    var r := RunEnd(s, p);
    forall i | p <= i < p + k
      ensures IsNumberChar(s[i])
    {
      assert s[i] == raw[i - p];
    }
    if k < |raw| {
      assert s[p + k] == '.';
      assert r == p + k;
      assert IsDigit(raw[k + 1]);
    }
  }

  lemma MarkerIsNoNumber(s: string, c: nat, q: nat)
    requires Suffix(s, c, q)
    ensures c < q <= |s| && !IsSpace(s[c]) && !IsNumberChar(s[c]) && s[c] != '.'
  {
    assert Lower(s[c]) == '/' || Lower(s[c]) == 'r' || Lower(s[c]) == TAMIL[0] || Lower(s[c]) == HINDI[0];
  }

  lemma MarkedIsScanned(s: string, p: nat, a: nat, b: nat, k: nat, q: nat)
    requires Marked(s, p, a, b, k, q)
    ensures MatchAt(s, p).Some? && MatchAt(s, p).value.start == b && q <= MatchAt(s, p).value.end
  {
    hide MatchAt;
    NumeralLongest(s, b, k, q);
    assert s[b] == s[b..q][0];
    assert IsNumberChar(s[b]) && !IsSpace(s[b]);
    PrefixScanned(s, p, a, b);
    MatchOfPrefix(s, p, a, b);
  }

  lemma PrefixScanned(s: string, p: nat, a: nat, b: nat)
    requires Prefix(s, p, a) && AllSpaces(s, a, b) && b < |s| && IsNumberChar(s[b])
    ensures PrefixEnd(s, p) == Some(a) && SpacesEnd(s, a) == b
  {
    assert At(s, p, "rs") ==> Lower(s[p]) == 'r';
    assert At(s, p, "inr") ==> Lower(s[p]) == 'i';
  }

  lemma MatchOfPrefix(s: string, p: nat, a: nat, b: nat)
    requires p < |s| && PrefixEnd(s, p) == Some(a) && a <= |s| && SpacesEnd(s, a) == b && NumeralEnd(s, b) > b
    ensures MatchAt(s, p) == Some(Match(b, NumeralEnd(s, b), NumeralEnd(s, b)))
  {
  }

  lemma FollowedIsScanned(s: string, p: nat, k: nat, b: nat, c: nat, q: nat)
    requires Followed(s, p, k, b, c, q)
    ensures MatchAt(s, p).Some? && MatchAt(s, p).value.start == p && MatchAt(s, p).value.stop == b
    ensures q <= MatchAt(s, p).value.end
  {
    hide IsSpace;
    NumeralLongest(s, p, k, b);
    MarkerIsNoNumber(s, c, q);
    assert s[p] == s[p..b][0];
    assert IsNumberChar(s[p]);
    NumbersAreNoSpaces();
    assert b < c ==> IsSpace(s[b]);
    assert SpacesEnd(s, b) == c;
    NumberIsNoPrefix(s, p);
  }

  lemma NumbersAreNoSpaces()
    ensures forall c | IsNumberChar(c) || c == '.' :: !IsSpace(c)
  {
  }

  lemma NumberIsNoPrefix(s: string, p: nat)
    requires p < |s| && IsNumberChar(s[p])
    ensures PrefixEnd(s, p) == None
  {
    assert At(s, p, "rs") ==> Lower(s[p]) == 'r';
    assert At(s, p, "inr") ==> Lower(s[p]) == 'i';
  }

  ghost predicate Accepted(s: string, p: nat, start: nat, stop: nat, end: nat) {
    || (stop == end && exists a, k :: Marked(s, p, a, start, k, end))
    || (start == p && exists k, c :: Followed(s, p, k, stop, c, end))
  }

  /**
   At every place of every text, the scanner finds a match exactly when the grammar has one there. What
   it finds is one of the grammar's, begins its numeral where they all do, and ends no earlier than any.
   */
  lemma ScannerMeetsGrammar(s: string, p: nat)
    requires p < |s|
    ensures var m := MatchAt(s, p);
            && (m.Some? <==> exists start: nat, stop: nat, end: nat :: Accepted(s, p, start, stop, end))
            && (m.Some? ==> Accepted(s, p, m.value.start, m.value.stop, m.value.end))
            && (m.Some? ==> forall start: nat, stop: nat, end: nat | Accepted(s, p, start, stop, end) ::
                  start == m.value.start && stop <= m.value.stop && end <= m.value.end)
  {
    hide Marked, Followed, MatchAt;
    forall start: nat, stop: nat, end: nat | Accepted(s, p, start, stop, end)
      ensures MatchAt(s, p).Some? && start == MatchAt(s, p).value.start
      ensures stop <= MatchAt(s, p).value.stop && end <= MatchAt(s, p).value.end
    {
      if stop == end && exists a, k :: Marked(s, p, a, start, k, end) {
        var a, k :| Marked(s, p, a, start, k, end);
        MarkedIsScanned(s, p, a, start, k, end);
        MarkedEndsAtNumeral(s, p, a, start, k, end);
      } else {
        var k, c :| Followed(s, p, k, stop, c, end);
        FollowedIsScanned(s, p, k, stop, c, end);
      }
    }
    if MatchAt(s, p).Some? {
      ScannedIsAccepted(s, p);
    }
  }

  lemma MarkedEndsAtNumeral(s: string, p: nat, a: nat, b: nat, k: nat, q: nat)
    requires Marked(s, p, a, b, k, q) && MatchAt(s, p).Some?
    ensures MatchAt(s, p).value.stop == MatchAt(s, p).value.end
  {
    assert s[b] == s[b..q][0];
    PrefixScanned(s, p, a, b);
  }

  lemma ScannedIsAccepted(s: string, p: nat)
    requires p < |s| && MatchAt(s, p).Some?
    ensures var m := MatchAt(s, p).value; Accepted(s, p, m.start, m.stop, m.end)
  {
    hide IsSpace, At, IsNumeral;
    var m := MatchAt(s, p).value;
    NumeralScanned(s, m.start);
    var k := RunEnd(s, m.start) - m.start;
    if PrefixEnd(s, p).Some? {
      var a := PrefixEnd(s, p).value;
      assert Marked(s, p, a, m.start, k, m.end);
    } else {
      var c := SpacesEnd(s, m.stop);
      assert Followed(s, p, k, m.stop, c, m.end);
    }
  }
}
