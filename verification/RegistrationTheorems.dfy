/** What normalising a registration promises: one repair at most, one canonical form, and a display that reads back. */
module RegistrationTheorems {
  import opened Characters
  import opened Registration

  /** A BH registration, or a known state code with two district digits and a four-digit number. */
  predicate Canonical(s: string) {
    IsBh(s) || (8 <= |s| <= 11 && Splits(s, 2, |s| - 8) && s[..2] in STATE_CODES)
  }

  function CanonicalResult(s: string): Result {
    if IsBh(s) then Ok(Normalised(s, BhSeries, "BH")) else Ok(Normalised(s, Standard, if |s| >= 2 then s[..2] else ""))
  }

  // ----- At most one repair -----

  /** What a cleaned text is as it stands, with no repair. */
  function AsItStands(s: string): Result {
    if IsBh(s) then Ok(Normalised(s, BhSeries, "BH"))
    else
      var standard := MatchStandard(s);
      if standard.None? then Err(UnrecognisedFormat(s))
      else
        SplitFound(s);
        if s[..2] in STATE_CODES then Ok(Normalised(Padded(s, standard.value), Standard, s[..2]))
        else Err(UnknownStateCode(s, s[..2]))
  }

  lemma SettledAsItStands(upper: Casing, s: string)
    requires FoldsAscii(upper) && s != "" && Clean(upper, s) == s && !Repairs(s)
    ensures Normalise(upper, s) == AsItStands(s)
  {
  }

  lemma RepairMakesNoBh(s: string)
    requires |s| >= 6
    ensures !IsBh(Repaired(s))
  {
    var t := Repaired(s);
    if |t| >= 4 {
      assert t[2..4][0] == t[2] == AsDigit(s[2]);
    }
  }

  /** A text of the right shape keeps its state code under repair, so a wrong one stays wrong. */
  lemma RepairKeepsState(s: string)
    requires |s| >= 6 && MatchStandard(s).Some?
    ensures Repaired(s)[..2] == s[..2]
  {
    SplitFound(s);
    SplitChars(s, MatchStandard(s).value.rto, MatchStandard(s).value.series);
  }

  /** The repair tried on an unknown state code never leads to a success. */
  lemma RetryNeverSucceeds(upper: Casing, s: string)
    requires FoldsAscii(upper) && Clean(upper, s) == s && |s| >= 6
    requires MatchStandard(s).Some? && s[..2] !in STATE_CODES
    ensures Normalise(upper, Repaired(s)).Err?
  {
    RepairSettles(upper, s);
    SettledAsItStands(upper, Repaired(s));
    RepairMakesNoBh(s);
    RepairKeepsState(s);
  }

  /**
   Any input ends after at most one repair: it is what its cleaned text is as it stands or, when that has no
   recognised shape and holds a lookalike to repair, what the repaired text is as it stands.
   */
  lemma NormalisesInOneRepair(upper: Casing, input: string)
    requires FoldsAscii(upper)
    ensures var s := Clean(upper, input);
            Normalise(upper, input) ==
              if s == "" then Err(Empty)
              else if AsItStands(s) == Err(UnrecognisedFormat(s)) && Repairs(s) then AsItStands(Repaired(s))
              else AsItStands(s)
  {
    var s := Clean(upper, input);
    KeptStays(upper, s);
    RepairSettles(upper, s);
    if Repairs(s) {
      SettledAsItStands(upper, Repaired(s));
      if MatchStandard(s).Some? && s[..2] !in STATE_CODES {
        RetryNeverSucceeds(upper, s);
      }
    }
  }

  // ----- The canonical form -----

  lemma PaddedDigits(s: string, width: nat)
    requires |s| <= width && AllDigits(s)
    ensures |PadStart(s, width)| == width && AllDigits(PadStart(s, width))
    decreases width - |s|
  {
    if |s| < width {
      PaddedDigits("0" + s, width);
    }
  }

  lemma PaddedIsCanonical(s: string, split: Split)
    requires Splits(s, split.rto, split.series)
    ensures var t := Padded(s, split); |t| == 8 + split.series && Splits(t, 2, split.series) && t[..2] == s[..2]
  {
    hide PadStart, AllUpper, AllDigits;
    var Split(r, b) := split;
    var rto, number := PadStart(s[2..2 + r], 2), PadStart(s[2 + r + b..], 4);
    PaddedDigits(s[2..2 + r], 2);
    PaddedDigits(s[2 + r + b..], 4);
    PartsSplit(s[..2], rto, s[2 + r..2 + r + b], number);
  }

  /** Four parts of the right kinds, put together, split where they were joined. */
  lemma PartsSplit(state: string, rto: string, series: string, number: string)
    requires |state| == 2 && |rto| == 2 && |series| <= 3 && |number| == 4
    requires AllUpper(state) && AllDigits(rto) && AllUpper(series) && AllDigits(number)
    ensures var t := state + rto + series + number;
            |t| == 8 + |series| && Splits(t, 2, |series|) && t[..2] == state
  {
    hide AllUpper, AllDigits;
    var t, b := state + rto + series + number, |series|;
    assert t[..2] == state && t[2..4] == rto && t[4..4 + b] == series && t[4 + b..] == number;
  }

  // ----- The same registration -----

  lemma {:induction false} LeadingZero(s: string)
    requires AllDigits(s)
    ensures AllDigits("0" + s) && Whole("0" + s) == Whole(s)
    decreases |s|
  {
    if s == "" {
      WholeOfOneMore("", '0');
      assert "" + ['0'] == "0" + s;
    } else {
      var front, last := s[..|s| - 1], s[|s| - 1];
      LeadingZero(front);
      WholeOfOneMore(front, last);
      WholeOfOneMore("0" + front, last);
      assert s == front + [last] && "0" + s == "0" + front + [last];
    }
  }

  lemma {:induction false} PaddedNumber(s: string, width: nat)
    requires AllDigits(s)
    ensures AllDigits(PadStart(s, width)) && Whole(PadStart(s, width)) == Whole(s)
    decreases width - |s|
  {
    hide Whole, AllDigits;
    if |s| < width {
      LeadingZero(s);
      PaddedNumber("0" + s, width);
    }
  }

  /** One registration written two ways: the same state and series, and districts and numbers of the same value. */
  ghost predicate SameStandard(s: string, r: nat, b: nat, t: string) {
    && Splits(s, r, b) && Splits(t, 2, b)
    && t[..2] == s[..2]
    && t[4..4 + b] == s[2 + r..2 + r + b]
    && Whole(t[2..4]) == Whole(s[2..2 + r])
    && Whole(t[4 + b..]) == Whole(s[2 + r + b..])
  }

  lemma PaddedIsSame(s: string, r: nat, b: nat)
    requires Splits(s, r, b)
    ensures SameStandard(s, r, b, Padded(s, Split(r, b)))
  {
    hide PadStart, AllUpper, AllDigits, Whole;
    var t := Padded(s, Split(r, b));
    PaddedIsCanonical(s, Split(r, b));
    PaddedNumber(s[2..2 + r], 2);
    PaddedNumber(s[2 + r + b..], 4);
    PaddedDigits(s[2..2 + r], 2);
    PaddedDigits(s[2 + r + b..], 4);
    assert t[2..4] == PadStart(s[2..2 + r], 2) && t[4..4 + b] == s[2 + r..2 + r + b];
    assert t[4 + b..] == PadStart(s[2 + r + b..], 4);
  }

  /** No other split has a longer district, or the same with a longer series. */
  ghost predicate LongestSplit(s: string, r: nat, b: nat) {
    forall r2: nat, b2: nat :: Splits(s, r2, b2) ==> r2 < r || (r2 == r && b2 <= b)
  }

  /**
   The same text for a BH registration, and else the same registration, read with the longest district, then
   series.
   */
  ghost predicate SameRegistration(s: string, t: string) {
    if IsBh(s) then t == s
    else exists r: nat, b: nat :: SameStandard(s, r, b, t) && LongestSplit(s, r, b)
  }

  /** The text has one of the recognised shapes. */
  ghost predicate Recognised(s: string) {
    IsBh(s) || exists r: nat, b: nat :: Splits(s, r, b)
  }

  /**
   A success is the registration that went in: that of the cleaned text where it has a recognised shape, and else
   that of its repair.
   */
  lemma SuccessIsSameRegistration(upper: Casing, input: string)
    requires FoldsAscii(upper) && Normalise(upper, input).Ok?
    ensures var s, t := Clean(upper, input), Normalise(upper, input).value.text;
            if Recognised(s) then SameRegistration(s, t) else |s| >= 6 && SameRegistration(Repaired(s), t)
  {
    hide Normalise, Clean, Repaired, SameStandard, Splits;
    NormalisesInOneRepair(upper, input);
    var s := Clean(upper, input);
    MatchStandardExactly(s);
    StandsForItself(if AsItStands(s) == Err(UnrecognisedFormat(s)) && Repairs(s) then Repaired(s) else s);
  }

  lemma StandsForItself(s: string)
    requires AsItStands(s).Ok?
    ensures SameRegistration(s, AsItStands(s).value.text)
  {
    hide Splits, SameStandard;
    if !IsBh(s) {
      SplitFound(s);
      MatchStandardExactly(s);
      var Split(r, b) := MatchStandard(s).value;
      PaddedIsSame(s, r, b);
      assert LongestSplit(s, r, b);
    }
  }

  lemma PaddedAlready(s: string)
    requires 8 <= |s| <= 11 && Splits(s, 2, |s| - 8)
    ensures Padded(s, Split(2, |s| - 8)) == s
  {
  }

  lemma {:induction false} LooksClean(upper: Casing, s: string)
    requires FoldsAscii(upper) && Canonical(s)
    ensures Clean(upper, s) == s
  {
    hide IsUpper, IsDigit;
    forall i | 0 <= i < |s|
      ensures Kept(s[i])
    {
      CanonicalChar(s, i);
    }
    KeptStays(upper, s);
  }

  lemma CanonicalChar(s: string, i: nat)
    requires Canonical(s) && i < |s|
    ensures Kept(s[i])
  {
    if IsBh(s) {
      BhChars(s);
    } else {
      SplitChars(s, 2, |s| - 8);
    }
  }

  lemma BhChars(s: string)
    requires IsBh(s)
    ensures forall i | 0 <= i < |s| :: if i < 2 || 4 <= i < 8 then IsDigit(s[i]) else IsUpper(s[i])
  {
    forall i | 0 <= i < |s|
      ensures if i < 2 || 4 <= i < 8 then IsDigit(s[i]) else IsUpper(s[i])
    {
      if i < 2 {
        assert s[i] == s[..2][i];
      } else if i < 4 {
        assert s[i] == s[2..4][i - 2];
      } else if i < 8 {
        assert s[i] == s[4..8][i - 4];
      } else {
        assert s[i] == s[8..][i - 8];
      }
    }
  }

  lemma StandardIsNoBh(s: string, r: nat, b: nat)
    requires Splits(s, r, b)
    ensures !IsBh(s)
  {
    assert IsUpper(s[..2][0]);
  }

  lemma SuccessStands(s: string)
    requires AsItStands(s).Ok?
    ensures Canonical(AsItStands(s).value.text) && AsItStands(s) == CanonicalResult(AsItStands(s).value.text)
  {
    if !IsBh(s) {
      SplitFound(s);
      var split := MatchStandard(s).value;
      PaddedIsCanonical(s, split);
      StandardIsNoBh(Padded(s, split), 2, split.series);
    }
  }

  /** Every success is canonical, and its kind and state code are those of its text. */
  lemma SuccessIsCanonical(upper: Casing, input: string)
    requires FoldsAscii(upper) && Normalise(upper, input).Ok?
    ensures var r := Normalise(upper, input); Canonical(r.value.text) && r == CanonicalResult(r.value.text)
  {
    NormalisesInOneRepair(upper, input);
    var s := Clean(upper, input);
    SuccessStands(if AsItStands(s) == Err(UnrecognisedFormat(s)) && Repairs(s) then Repaired(s) else s);
  }

  lemma CanonicalStands(s: string)
    requires Canonical(s)
    ensures AsItStands(s) == CanonicalResult(s)
  {
    if !IsBh(s) {
      SplitUnique(s, |s| - 8);
      PaddedAlready(s);
    }
  }

  /** Exactly the canonical texts normalise to themselves. */
  lemma FixedExactly(upper: Casing, s: string)
    requires FoldsAscii(upper)
    ensures Canonical(s) <==> Normalise(upper, s).Ok? && Normalise(upper, s).value.text == s
    ensures Canonical(s) ==> Normalise(upper, s) == CanonicalResult(s)
  {
    if Canonical(s) {
      LooksClean(upper, s);
      NormalisesInOneRepair(upper, s);
      CanonicalStands(s);
    } else if Normalise(upper, s).Ok? {
      SuccessIsCanonical(upper, s);
    }
  }

  /** Normalising a success again changes nothing. */
  lemma NormalisesOnce(upper: Casing, input: string)
    requires FoldsAscii(upper) && Normalise(upper, input).Ok?
    ensures Normalise(upper, Normalise(upper, input).value.text) == Normalise(upper, input)
  {
    SuccessIsCanonical(upper, input);
    FixedExactly(upper, Normalise(upper, input).value.text);
  }

  // ----- The display form -----

  lemma {:induction false} UppercaseAppend(upper: Casing, s: string, t: string)
    ensures Uppercase(upper, s + t) == Uppercase(upper, s) + Uppercase(upper, t)
  {
    if s == "" {
      assert s + t == t;
    } else {
      assert (s + t)[1..] == s[1..] + t;
      UppercaseAppend(upper, s[1..], t);
    }
  }

  lemma {:induction false} KeepOnlyAppend(s: string, t: string)
    ensures KeepOnly(s + t) == KeepOnly(s) + KeepOnly(t)
  {
    if s == "" {
      assert s + t == t;
    } else {
      assert (s + t)[1..] == s[1..] + t;
      KeepOnlyAppend(s[1..], t);
    }
  }

  lemma CleanAppend(upper: Casing, s: string, t: string)
    ensures Clean(upper, s + t) == Clean(upper, s) + Clean(upper, t)
  {
    UppercaseAppend(upper, s, t);
    KeepOnlyAppend(Uppercase(upper, s), Uppercase(upper, t));
  }

  lemma CleanSpace(upper: Casing)
    requires FoldsAscii(upper)
    ensures Clean(upper, " ") == "" && Clean(upper, "") == ""
  {
    assert upper(' ') == " ";
    assert " "[1..] == "" && Uppercase(upper, " ") == " " + Uppercase(upper, "");
    assert KeepOnly(" ") == "" + KeepOnly("");
  }

  /** Spaces between parts are cleaned away. */
  lemma {:induction false} JoinCleans(upper: Casing, parts: seq<string>)
    requires FoldsAscii(upper) && forall part | part in parts :: Clean(upper, part) == part
    ensures Clean(upper, Join(NonEmpty(parts), " ")) == Concat(parts)
  {
    hide Clean, Join, NonEmpty, Concat;
    CleanSpace(upper);
    if parts == [] {
      NoParts();
    } else {
      JoinCleans(upper, parts[1..]);
      assert Clean(upper, parts[0]) == parts[0];
      var rest := NonEmpty(parts[1..]);
      PartOff(parts);
      JoinOneMore(parts[0], rest);
      if parts[0] != "" && rest != [] {
        CleanAppend(upper, parts[0] + " ", Join(rest, " "));
        CleanAppend(upper, parts[0], " ");
      }
    }
  }

  /** Writes a text with each letter in either case, and anything else on ASCII but letters and digits between. */
  ghost predicate Writes(input: string, s: string) {
    if input == "" then s == ""
    else
      var c := input[0];
      || (s != "" && (c == s[0] || (IsUpper(s[0]) && c as int == s[0] as int + 32)) && Writes(input[1..], s[1..]))
      || (c < '\U{0080}' && !('0' <= c <= '9' || 'A' <= c <= 'Z' || 'a' <= c <= 'z') && Writes(input[1..], s))
  }

  lemma {:induction false} WritingCleans(upper: Casing, input: string, s: string)
    requires FoldsAscii(upper) && Writes(input, s) && forall i | 0 <= i < |s| :: Kept(s[i])
    ensures Clean(upper, input) == s
  {
    if input != "" {
      var c, rest := input[0], input[1..];
      assert input == [c] + rest;
      CleanAppend(upper, [c], rest);
      CleanOne(upper, c);
      if s != "" && (c == s[0] || (IsUpper(s[0]) && c as int == s[0] as int + 32)) && Writes(rest, s[1..]) {
        WritingCleans(upper, rest, s[1..]);
      } else {
        WritingCleans(upper, rest, s);
      }
    }
  }

  lemma CleanOne(upper: Casing, c: char)
    requires FoldsAscii(upper) && c < '\U{0080}'
    ensures Clean(upper, [c]) == if Kept(AsciiUpper(c)) then [AsciiUpper(c)] else ""
  {
    var u := AsciiUpper(c);
    assert upper(c) == [u] && [c][1..] == "";
    assert Uppercase(upper, [c]) == [u] + Uppercase(upper, "") == [u];
    assert [u][1..] == "" && KeepOnly([u]) == (if Kept(u) then [u] else "") + KeepOnly("");
  }

  /** Case, spaces and punctuation make no difference to what a registration is normalised to. */
  lemma WritingIrrelevant(upper: Casing, a: string, b: string, s: string)
    requires FoldsAscii(upper) && Writes(a, s) && Writes(b, s) && forall i | 0 <= i < |s| :: Kept(s[i])
    ensures Clean(upper, a) == s && Normalise(upper, a) == Normalise(upper, b)
  {
    WritingCleans(upper, a, s);
    WritingCleans(upper, b, s);
    NormalisesInOneRepair(upper, a);
    NormalisesInOneRepair(upper, b);
  }

  lemma NoParts()
    ensures NonEmpty([]) == [] && Join([], " ") == "" && Concat([]) == ""
  {
  }

  lemma PartOff(parts: seq<string>)
    requires parts != []
    ensures NonEmpty(parts) == if parts[0] == "" then NonEmpty(parts[1..]) else [parts[0]] + NonEmpty(parts[1..])
    ensures Concat(parts) == parts[0] + Concat(parts[1..])
  {
  }

  lemma JoinOneMore(part: string, rest: seq<string>)
    ensures Join([part] + rest, " ") == if rest == [] then part else part + " " + Join(rest, " ")
    ensures rest == [] ==> Join(rest, " ") == ""
  {
    assert ([part] + rest)[1..] == rest;
  }

  function Concat(parts: seq<string>): string {
    if parts == [] then "" else parts[0] + Concat(parts[1..])
  }

  lemma KeptSlice(upper: Casing, s: string, i: nat, j: nat)
    requires FoldsAscii(upper) && i <= j <= |s| && Clean(upper, s) == s
    ensures Clean(upper, s[i..j]) == s[i..j]
    ensures i == 0 ==> Clean(upper, s[..j]) == s[..j]
    ensures j == |s| ==> Clean(upper, s[i..]) == s[i..]
  {
    KeptStays(upper, s[i..j]);
    assert i == 0 ==> s[..j] == s[i..j];
    assert j == |s| ==> s[i..] == s[i..j];
  }

  /** Four parts of a clean text, set apart by spaces where they are not empty, clean to the text. */
  lemma PartsClean(upper: Casing, s: string, i: nat, j: nat, k: nat)
    requires FoldsAscii(upper) && i <= j <= k <= |s| && Clean(upper, s) == s
    ensures Clean(upper, Join(NonEmpty([s[..i], s[i..j], s[j..k], s[k..]]), " ")) == s
  {
    hide Clean, NonEmpty, Join, Concat;
    var parts := [s[..i], s[i..j], s[j..k], s[k..]];
    KeptSlice(upper, s, 0, i);
    KeptSlice(upper, s, i, j);
    KeptSlice(upper, s, j, k);
    KeptSlice(upper, s, k, |s|);
    assert forall part | part in parts :: part == parts[0] || part == parts[1] || part == parts[2] || part == parts[3];
    JoinCleans(upper, parts);
    ConcatFour(parts);
    assert s[..i] + s[i..j] == s[..j];
    assert s[..j] + s[j..k] == s[..k];
    assert s == s[..k] + s[k..];
  }

  lemma ConcatFour(parts: seq<string>)
    requires |parts| == 4
    ensures Concat(parts) == parts[0] + parts[1] + parts[2] + parts[3]
  {
    assert parts[1..] == [parts[1], parts[2], parts[3]];
    assert parts[1..][1..] == [parts[2], parts[3]];
    assert parts[1..][1..][1..] == [parts[3]];
    assert Concat([parts[3]]) == parts[3] + Concat([]);
    assert Concat([parts[2], parts[3]]) == parts[2] + Concat([parts[3]]);
  }

  lemma FourParts(a: string, b: string, c: string, d: string)
    requires a != "" && b != "" && c != "" && d != ""
    ensures Join(NonEmpty([a, b, c, d]), " ") == a + " " + b + " " + c + " " + d
  {
    hide Join, NonEmpty;
    NoParts();
    assert [d] + [] == [d] && [c] + [d] == [c, d] && [b] + [c, d] == [b, c, d] && [a] + [b, c, d] == [a, b, c, d];
    KeepPart(d, []);
    KeepPart(c, [d]);
    KeepPart(b, [c, d]);
    KeepPart(a, [b, c, d]);
    JoinOneMore(d, []);
    JoinOneMore(c, [d]);
    JoinOneMore(b, [c, d]);
    JoinOneMore(a, [b, c, d]);
  }

  lemma KeepPart(part: string, rest: seq<string>)
    requires part != "" && NonEmpty(rest) == rest
    ensures NonEmpty([part] + rest) == [part] + rest
  {
    hide NonEmpty;
    PartOff([part] + rest);
    assert ([part] + rest)[1..] == rest;
  }

  lemma DisplayCleans(upper: Casing, s: string)
    requires FoldsAscii(upper) && Canonical(s)
    ensures Clean(upper, Display(s)) == s
  {
    hide Clean, NonEmpty, Join;
    LooksClean(upper, s);
    if IsBh(s) {
      PartsClean(upper, s, 2, 4, 8);
      FourParts(s[..2], s[2..4], s[4..8], s[8..]);
      assert Display(s) == s[..2] + " " + s[2..4] + " " + s[4..8] + " " + s[8..];
    } else {
      SplitUnique(s, |s| - 8);
      PartsClean(upper, s, 2, 4, |s| - 4);
    }
  }

  lemma ThreeParts(a: string, b: string, c: string)
    requires a != "" && b != "" && c != ""
    ensures Join(NonEmpty([a, b, "", c]), " ") == a + " " + b + " " + c
  {
    hide Join, NonEmpty;
    NoParts();
    assert [c] + [] == [c] && [b] + [c] == [b, c] && [a] + [b, c] == [a, b, c];
    KeepPart(c, []);
    PartOff(["", c]);
    assert ["", c][1..] == [c];
    PartOff([b, "", c]);
    assert [b, "", c][1..] == ["", c];
    PartOff([a, b, "", c]);
    assert [a, b, "", c][1..] == [b, "", c];
    JoinOneMore(c, []);
    JoinOneMore(b, [c]);
    JoinOneMore(a, [b, c]);
  }

  /** The parts of a success stand apart by single spaces: state, district, series if there is one, and number. */
  lemma DisplayedParts(upper: Casing, input: string)
    requires FoldsAscii(upper) && Normalise(upper, input).Ok?
    ensures var s := Normalise(upper, input).value.text;
            && 8 <= |s|
            && Display(s) ==
                 if IsBh(s) then s[..2] + " " + s[2..4] + " " + s[4..8] + " " + s[8..]
                 else if |s| == 8 then s[..2] + " " + s[2..4] + " " + s[4..]
                 else s[..2] + " " + s[2..4] + " " + s[4..|s| - 4] + " " + s[|s| - 4..]
  {
    hide Normalise, NonEmpty, Join;
    SuccessIsCanonical(upper, input);
    var s := Normalise(upper, input).value.text;
    if !IsBh(s) {
      SplitUnique(s, |s| - 8);
      if |s| == 8 {
        ThreeParts(s[..2], s[2..4], s[4..]);
        assert s[4..4] == "";
      } else {
        FourParts(s[..2], s[2..4], s[4..|s| - 4], s[|s| - 4..]);
      }
    }
  }

  /** A success shown for display and normalised again is the same success. */
  lemma DisplayReadsBack(upper: Casing, input: string)
    requires FoldsAscii(upper) && Normalise(upper, input).Ok?
    ensures Normalise(upper, Display(Normalise(upper, input).value.text)) == Normalise(upper, input)
  {
    SuccessIsCanonical(upper, input);
    var s := Normalise(upper, input).value.text;
    FixedExactly(upper, s);
    LooksClean(upper, s);
    DisplayCleans(upper, s);
    NormalisesInOneRepair(upper, s);
    NormalisesInOneRepair(upper, Display(s));
  }
}
