/**
 Vehicle registrations in one form: cleaned, recognised, repaired at most once where OCR confuses letters
 with digits, and padded. How case is folded outside ASCII is left to `upper`.
 */
module Registration {
  import opened Wrappers
  import opened Characters

  datatype Kind = Standard | BhSeries
  datatype Normalised = Normalised(text: string, kind: Kind, stateCode: string)
  datatype Error =
    | Empty
    | UnrecognisedFormat(cleaned: string)
    | UnknownStateCode(cleaned: string, stateCode: string)
  datatype Result = Ok(value: Normalised) | Err(error: Error)

  const STATE_CODES: set<string> := {
    "AN", "AP", "AR", "AS", "BR", "CG", "CH", "DD", "DL", "DN", "GA", "GJ", "HP", "HR",
    "JH", "JK", "KA", "KL", "LA", "LD", "MH", "ML", "MN", "MP", "MZ", "NL", "OD", "OR",
    "PB", "PY", "RJ", "SK", "TN", "TR", "TS", "UA", "UK", "UP", "WB"
  }

  // ----- Cleaning -----

  type Casing = char -> string

  predicate Kept(c: char) {
    IsUpper(c) || IsDigit(c)
  }

  function AsciiUpper(c: char): char {
    if 'a' <= c <= 'z' then c - 'a' + 'A' else c
  }

  /** Upper case is what it should be on ASCII, and anything elsewhere. */
  ghost predicate FoldsAscii(upper: Casing) {
    forall c: char | c < '\U{0080}' :: upper(c) == [AsciiUpper(c)]
  }

  function KeepOnly(s: string): (t: string)
    ensures forall i | 0 <= i < |t| :: Kept(t[i])
  {
    if s == "" then "" else (if Kept(s[0]) then [s[0]] else "") + KeepOnly(s[1..])
  }

  function Uppercase(upper: Casing, s: string): string {
    if s == "" then "" else upper(s[0]) + Uppercase(upper, s[1..])
  }

  function Clean(upper: Casing, input: string): (t: string)
    ensures forall i | 0 <= i < |t| :: Kept(t[i])
  {
    KeepOnly(Uppercase(upper, input))
  }

  // ----- Formats -----

  predicate IsBh(s: string) {
    && 9 <= |s| <= 10 && AllDigits(s[..2]) && s[2..4] == "BH" && AllDigits(s[4..8]) && AllUpper(s[8..])
  }

  /** Two letters, r digits, b letters, and one to four digits. */
  predicate Splits(s: string, r: nat, b: nat) {
    && 1 <= r <= 2 && b <= 3 && 3 + r + b <= |s| <= 6 + r + b
    && AllUpper(s[..2]) && AllDigits(s[2..2 + r]) && AllUpper(s[2 + r..2 + r + b]) && AllDigits(s[2 + r + b..])
  }

  datatype Split = Split(rto: nat, series: nat)

  /** The order a greedy match with backtracking tries: the longer district first, then the longer series. */
  function FindSplit(s: string, r: nat, b: nat): Option<Split>
    decreases r, b
  {
    if r == 0 then None
    else if Splits(s, r, b) then Some(Split(r, b))
    else if b > 0 then FindSplit(s, r, b - 1)
    else FindSplit(s, r - 1, 3)
  }

  function MatchStandard(s: string): Option<Split> {
    FindSplit(s, 2, 3)
  }

  function PadStart(s: string, width: nat): (t: string)
    ensures |t| == if |s| < width then width else |s|
    decreases width - |s|
  {
    if |s| < width then PadStart("0" + s, width) else s
  }

  function Padded(s: string, split: Split): string
    requires 2 + split.rto + split.series <= |s|
  {
    var Split(r, b) := split;
    s[..2] + PadStart(s[2..2 + r], 2) + s[2 + r..2 + r + b] + PadStart(s[2 + r + b..], 4)
  }

  // ----- Repair -----

  function AsLetter(c: char): char {
    match c
    case '0' => 'O' case '1' => 'I' case '5' => 'S' case '2' => 'Z' case '8' => 'B' case _ => c
  }

  function AsDigit(c: char): char {
    match c
    case 'O' => '0' case 'Q' => '0' case 'I' => '1' case 'L' => '1'
    case 'S' => '5' case 'Z' => '2' case 'B' => '8' case _ => c
  }

  /** A state code is letters and a district digits, so lookalikes are put right in the first four places. */
  function Repaired(s: string): (t: string)
    requires |s| >= 6
  {
    seq(|s|, i requires 0 <= i < |s| => if i < 2 then AsLetter(s[i]) else if i < 4 then AsDigit(s[i]) else s[i])
  }

  function Repair(s: string): Option<string> {
    if |s| < 6 then None else Some(Repaired(s))
  }

  predicate Repairs(s: string) {
    |s| >= 6 && Repaired(s) != s
  }

  method RepairCommonOcrErrors(cleaned: string) returns (repaired: Option<string>)
    requires forall i | 0 <= i < |cleaned| :: Kept(cleaned[i])
    ensures repaired == Repair(cleaned)
  {
    if |cleaned| < 6 {
      return None;
    }
    var chars := new char[|cleaned|](i requires 0 <= i < |cleaned| => cleaned[i]);
    for index := 0 to 2
      invariant forall i | 0 <= i < |cleaned| :: chars[i] == if i < index then AsLetter(cleaned[i]) else cleaned[i]
    {
      if IsDigit(chars[index]) {
        chars[index] := AsLetter(chars[index]);
      }
    }
    for index := 2 to 4
      invariant forall i | 0 <= i < |cleaned| ::
                  chars[i] == if i < 2 then AsLetter(cleaned[i])
                              else if i < index then AsDigit(cleaned[i])
                              else cleaned[i]
    {
      if IsUpper(chars[index]) {
        chars[index] := AsDigit(chars[index]);
      }
    }
    assert chars[..] == Repaired(cleaned);
    repaired := Some(chars[..]);
  }

  // ----- Normalising -----

  function Normalise(upper: Casing, input: string): Result
    requires FoldsAscii(upper)
    decreases if Repairs(Clean(upper, input)) then 1 else 0
  {
    var cleaned := Clean(upper, input);
    if cleaned == "" then Err(Empty)
    else if IsBh(cleaned) then Ok(Normalised(cleaned, BhSeries, "BH"))
    else
      var standard := MatchStandard(cleaned);
      if standard.Some? then
        SplitFound(cleaned);
        if cleaned[..2] in STATE_CODES then Ok(Normalised(Padded(cleaned, standard.value), Standard, cleaned[..2]))
        else
          var repaired := Repair(cleaned);
          RepairSettles(upper, cleaned);
          if repaired.Some? && repaired.value != cleaned && Normalise(upper, repaired.value).Ok?
          then Normalise(upper, repaired.value)
          else Err(UnknownStateCode(cleaned, cleaned[..2]))
      else
        var repaired := Repair(cleaned);
        RepairSettles(upper, cleaned);
        if repaired.Some? && repaired.value != cleaned then Normalise(upper, repaired.value)
        else Err(UnrecognisedFormat(cleaned))
  }

  function NonEmpty(parts: seq<string>): seq<string> {
    if parts == [] then [] else (if parts[0] == "" then [] else [parts[0]]) + NonEmpty(parts[1..])
  }

  function Display(s: string): string {
    if IsBh(s) then s[..2] + " BH " + s[4..8] + " " + s[8..]
    else
      var standard := MatchStandard(s);
      if standard.None? then s
      else
        SplitFound(s);
        var Split(r, b) := standard.value;
        Join(NonEmpty([s[..2], s[2..2 + r], s[2 + r..2 + r + b], s[2 + r + b..]]), " ")
  }

  // ----- Matching -----

  /** What is found splits the text, and nothing tried before it does. */
  lemma {:induction false} FindSplitFirst(s: string, r: nat, b: nat)
    requires r <= 2 && b <= 3
    ensures var found := FindSplit(s, r, b);
            && (found.Some? ==>
                  && Splits(s, found.value.rto, found.value.series)
                  && (found.value.rto < r || (found.value.rto == r && found.value.series <= b)))
            && forall r2: nat, b2: nat | Splits(s, r2, b2) && (r2 < r || (r2 == r && b2 <= b)) ::
                 found.Some? && (r2 < found.value.rto || (r2 == found.value.rto && b2 <= found.value.series))
    decreases r, b
  {
    if r > 0 && !Splits(s, r, b) {
      if b > 0 {
        FindSplitFirst(s, r, b - 1);
      } else {
        FindSplitFirst(s, r - 1, 3);
      }
    }
  }

  lemma SplitFound(s: string)
    ensures var found := MatchStandard(s); found.Some? ==> Splits(s, found.value.rto, found.value.series)
  {
    FindSplitFirst(s, 2, 3);
  }

  /**
   The format is recognised exactly when some split exists, and the one taken has the longest district, then
   series.
   */
  lemma MatchStandardExactly(s: string)
    ensures MatchStandard(s).Some? <==> exists r: nat, b: nat :: Splits(s, r, b)
    ensures forall r: nat, b: nat | Splits(s, r, b) ::
              var found := MatchStandard(s).value; r < found.rto || (r == found.rto && b <= found.series)
  {
    FindSplitFirst(s, 2, 3);
    if MatchStandard(s).Some? {
      assert Splits(s, MatchStandard(s).value.rto, MatchStandard(s).value.series);
    }
  }

  /** A split is the text's being a state, a district, a series and a number put together. */
  lemma SplitsExactly(s: string, r: nat, b: nat)
    ensures Splits(s, r, b) <==>
              exists state: string, rto: string, series: string, number: string ::
                && s == state + rto + series + number
                && |state| == 2 && 1 <= |rto| == r <= 2 && 0 <= |series| == b <= 3 && 1 <= |number| <= 4
                && AllUpper(state) && AllDigits(rto) && AllUpper(series) && AllDigits(number)
  {
    hide AllUpper, AllDigits;
    if Splits(s, r, b) {
      var state, rto, series, number := s[..2], s[2..2 + r], s[2 + r..2 + r + b], s[2 + r + b..];
      assert s == state + rto + series + number;
    }
    forall state: string, rto: string, series: string, number: string
      | s == state + rto + series + number && |state| == 2 && |rto| == r && |series| == b
      ensures |s| == 2 + r + b + |number|
      ensures s[..2] == state && s[2..2 + r] == rto && s[2 + r..2 + r + b] == series && s[2 + r + b..] == number
    {
    }
  }

  /** Two digits, the letters BH, four digits, and one or two letters. */
  ghost predicate BhOf(s: string, year: string, number: string, suffix: string) {
    && s == year + "BH" + number + suffix && |year| == 2 && |number| == 4 && 1 <= |suffix| <= 2
    && AllDigits(year) && AllDigits(number) && AllUpper(suffix)
  }

  lemma IsBhExactly(s: string)
    ensures IsBh(s) <==> exists year, number, suffix :: BhOf(s, year, number, suffix)
  {
    hide AllUpper, AllDigits, BhOf;
    if IsBh(s) {
      BhHas(s);
    }
    forall year, number, suffix | BhOf(s, year, number, suffix)
      ensures IsBh(s)
    {
      BhIs(s, year, number, suffix);
    }
  }

  lemma BhHas(s: string)
    requires IsBh(s)
    ensures BhOf(s, s[..2], s[4..8], s[8..])
  {
    hide AllUpper, AllDigits;
    assert s == s[..2] + s[2..4] + s[4..8] + s[8..];
  }

  lemma BhIs(s: string, year: string, number: string, suffix: string)
    requires BhOf(s, year, number, suffix)
    ensures IsBh(s)
  {
    hide AllUpper, AllDigits;
    BhParts(year, number, suffix);
  }

  lemma BhParts(year: string, number: string, suffix: string)
    requires |year| == 2 && |number| == 4
    ensures var s := year + "BH" + number + suffix;
            |s| == 8 + |suffix| && s[..2] == year && s[2..4] == "BH" && s[4..8] == number && s[8..] == suffix
  {
  }

  lemma SplitChars(s: string, r: nat, b: nat)
    requires Splits(s, r, b)
    ensures forall i | 0 <= i < 2 || 2 + r <= i < 2 + r + b :: IsUpper(s[i])
    ensures forall i | 2 <= i < 2 + r || 2 + r + b <= i < |s| :: IsDigit(s[i])
  {
    forall i | 0 <= i < |s|
      ensures if i < 2 || 2 + r <= i < 2 + r + b then IsUpper(s[i]) else IsDigit(s[i])
    {
      if i < 2 {
        assert s[i] == s[..2][i];
      } else if i < 2 + r {
        assert s[i] == s[2..2 + r][i - 2];
      } else if i < 2 + r + b {
        assert s[i] == s[2 + r..2 + r + b][i - 2 - r];
      } else {
        assert s[i] == s[2 + r + b..][i - 2 - r - b];
      }
    }
  }

  /** With two district digits there is one series. */
  lemma SplitUnique(s: string, b: nat)
    requires Splits(s, 2, b)
    ensures MatchStandard(s) == Some(Split(2, b))
  {
    MatchStandardExactly(s);
    SplitFound(s);
    var found := MatchStandard(s).value;
    SplitChars(s, 2, b);
    SplitChars(s, 2, found.series);
    assert IsDigit(s[4 + b]);
  }

  // ----- Repairing -----

  lemma {:induction false} KeptStays(upper: Casing, s: string)
    requires FoldsAscii(upper) && forall i | 0 <= i < |s| :: Kept(s[i])
    ensures Clean(upper, s) == s
  {
    if s != "" {
      KeptStays(upper, s[1..]);
      assert upper(s[0]) == [s[0]];
      assert Uppercase(upper, s) == [s[0]] + Uppercase(upper, s[1..]);
      assert Uppercase(upper, s)[1..] == Uppercase(upper, s[1..]);
    }
  }

  /** A letter and a digit that are read for each other. */
  const LOOKALIKES: set<(char, char)> :=
    {('O', '0'), ('Q', '0'), ('I', '1'), ('L', '1'), ('S', '5'), ('Z', '2'), ('B', '8')}

  lemma Lookalikes(c: char)
    requires Kept(c)
    ensures AsDigit(c) != c ==> (c, AsDigit(c)) in LOOKALIKES
    ensures AsDigit(c) == c ==> forall d :: (c, d) !in LOOKALIKES
    ensures AsLetter(c) != c ==> (AsLetter(c), c) in LOOKALIKES && AsDigit(AsLetter(c)) == c
    ensures AsLetter(c) == c ==> forall letter :: (letter, c) !in LOOKALIKES
  {
  }

  /**
   A repair leaves all but the first four places. In the first two it puts a letter for a digit that looks like one,
   and in the next two a digit for a letter, and it leaves nothing there that has a lookalike of the other kind.
   */
  lemma RepairsLookalikes(s: string, i: nat)
    requires |s| >= 6 && i < |s| && forall k | 0 <= k < |s| :: Kept(s[k])
    ensures var t := Repaired(s);
            && |t| == |s|
            && (t[i] != s[i] ==> i < 4 && if i < 2 then (t[i], s[i]) in LOOKALIKES else (s[i], t[i]) in LOOKALIKES)
            && (i < 2 ==> forall letter :: (letter, t[i]) !in LOOKALIKES)
            && (2 <= i < 4 ==> forall digit :: (t[i], digit) !in LOOKALIKES)
  {
    Lookalikes(s[i]);
  }

  lemma AsLetterSettles(c: char)
    requires Kept(c)
    ensures Kept(AsLetter(c)) && AsLetter(AsLetter(c)) == AsLetter(c)
  {
  }

  lemma AsDigitSettles(c: char)
    requires Kept(c)
    ensures Kept(AsDigit(c)) && AsDigit(AsDigit(c)) == AsDigit(c)
  {
  }

  /** A repaired text is clean, and there is nothing left to repair in it. */
  lemma RepairSettles(upper: Casing, s: string)
    requires FoldsAscii(upper) && forall i | 0 <= i < |s| :: Kept(s[i])
    ensures |s| >= 6 ==> Clean(upper, Repaired(s)) == Repaired(s) && !Repairs(Repaired(s))
  {
    if |s| >= 6 {
      var t := Repaired(s);
      forall i | 0 <= i < |s|
        ensures Kept(t[i]) && Repaired(t)[i] == t[i]
      {
        AsLetterSettles(s[i]);
        AsDigitSettles(s[i]);
      }
      KeptStays(upper, t);
    }
  }
}
