/** Amounts of money as text: whole paise in the Indian grouping, printed so that they can be read back. */
module Money {
  import opened Characters

  function Pair(n: nat): (s: string)
    requires n < 100
    ensures |s| == 2
  {
    [DigitChar(n / 10), DigitChar(n % 10)]
  }

  /** Up to ninety-nine without a leading zero. */
  function Short(n: nat): string
    requires n < 100
  {
    if n < 10 then [DigitChar(n)] else Pair(n)
  }

  /** Above the thousands, digits go in pairs: lakhs, crores and on. */
  function GroupPairs(n: nat): string {
    if n < 100 then Short(n) else GroupPairs(n / 100) + "," + Pair(n % 100)
  }

  function Grouped(n: nat): string {
    if n < 100 then Short(n)
    else if n < 1000 then [DigitChar(n / 100)] + Pair(n % 100)
    else GroupPairs(n / 1000) + "," + [DigitChar(n / 100 % 10)] + Pair(n % 100)
  }

  function FormatPaise(paise: nat, withSymbol: bool): string {
    (if withSymbol then [RUPEE] else "") + Grouped(paise / 100) + "." + Pair(paise % 100)
  }

  // ----- The grouping -----

  /** A comma stands after the third digit from the right, and after every second one from there. */
  ghost predicate IndianGroups(s: string) {
    forall i | 0 <= i < |s| ::
      if |s| - 1 - i >= 3 && (|s| - 1 - i) % 3 == 0 then s[i] == ',' else IsDigit(s[i])
  }

  ghost predicate PairGroups(s: string) {
    forall i | 0 <= i < |s| :: if (|s| - 1 - i) % 3 == 2 then s[i] == ',' else IsDigit(s[i])
  }

  lemma PairDigits(n: nat)
    requires n < 100
    ensures IsDigit(Pair(n)[0]) && IsDigit(Pair(n)[1])
    ensures 10 * DigitValue(Pair(n)[0]) + DigitValue(Pair(n)[1]) == n
  {
    DigitCharIsDigit(n / 10);
    DigitCharIsDigit(n % 10);
  }

  lemma PairAdded(front: string, pair: string)
    requires PairGroups(front) && |pair| == 2 && IsDigit(pair[0]) && IsDigit(pair[1])
    ensures PairGroups(front + "," + pair)
  {
    var s := front + "," + pair;
    forall i | 0 <= i < |s|
      ensures if (|s| - 1 - i) % 3 == 2 then s[i] == ',' else IsDigit(s[i])
    {
      if i < |front| {
        assert s[i] == front[i];
        assert |s| - 1 - i == (|front| - 1 - i) + 3;
      } else {
        assert i == |front| || i == |front| + 1 || i == |front| + 2;
      }
    }
  }

  lemma HundredsAdded(front: string, hundreds: string)
    requires PairGroups(front) && |hundreds| == 3 && AllDigits(hundreds)
    ensures IndianGroups(front + "," + hundreds)
  {
    var s := front + "," + hundreds;
    forall i | 0 <= i < |s|
      ensures if |s| - 1 - i >= 3 && (|s| - 1 - i) % 3 == 0 then s[i] == ',' else IsDigit(s[i])
    {
      if i < |front| {
        assert s[i] == front[i];
        assert |s| - 1 - i == (|front| - 1 - i) + 4;
      } else if i > |front| {
        assert s[i] == hundreds[i - |front| - 1];
      }
    }
  }

  lemma ShortShape(n: nat)
    requires n < 100
    ensures AllDigits(Short(n)) && 1 <= |Short(n)| <= 2 && (Short(n)[0] == '0' <==> n == 0)
  {
    DigitCharIsDigit(n / 10);
    DigitCharIsDigit(n % 10);
  }

  lemma {:induction false} GroupPairsShape(n: nat)
    ensures PairGroups(GroupPairs(n)) && GroupPairs(n) != "" && IsDigit(GroupPairs(n)[0])
    ensures GroupPairs(n)[0] == '0' <==> n == 0
  {
    hide Short, Pair, PairGroups;
    if n < 100 {
      ShortShape(n);
      DigitsArePairGroups(Short(n));
    } else {
      GroupPairsShape(n / 100);
      PairDigits(n % 100);
      PairAdded(GroupPairs(n / 100), Pair(n % 100));
    }
  }

  lemma DigitsArePairGroups(s: string)
    requires AllDigits(s) && |s| <= 2
    ensures PairGroups(s)
  {
  }

  /** Amounts are grouped as they are in India, with no zero in front of another digit. */
  lemma GroupedShape(n: nat)
    ensures IndianGroups(Grouped(n)) && Grouped(n) != "" && IsDigit(Grouped(n)[0])
    ensures Grouped(n)[0] == '0' <==> n == 0
  {
    hide Short, Pair, PairGroups, GroupPairs;
    PairDigits(n % 100);
    DigitCharIsDigit(n / 100 % 10);
    if n < 100 {
      ShortShape(n);
    } else if n >= 1000 {
      GroupPairsShape(n / 1000);
      var hundreds := [DigitChar(n / 100 % 10)] + Pair(n % 100);
      HundredsAdded(GroupPairs(n / 1000), hundreds);
      assert Grouped(n) == GroupPairs(n / 1000) + "," + hundreds;
    }
  }

  // ----- Reading back -----

  function WithoutCommas(s: string): (t: string) {
    if s == "" then ""
    else WithoutCommas(s[..|s| - 1]) + if s[|s| - 1] == ',' then "" else [s[|s| - 1]]
  }

  lemma {:induction false} WithoutCommasAppend(s: string, t: string)
    ensures WithoutCommas(s + t) == WithoutCommas(s) + WithoutCommas(t)
    decreases |t|
  {
    if t == "" {
      assert s + t == s;
    } else {
      assert (s + t)[..|s + t| - 1] == s + t[..|t| - 1];
      WithoutCommasAppend(s, t[..|t| - 1]);
    }
  }

  lemma {:induction false} DigitsKept(s: string)
    requires AllDigits(s)
    ensures WithoutCommas(s) == s
    decreases |s|
  {
    if s != "" {
      DigitsKept(s[..|s| - 1]);
    }
  }

  lemma WholeOfPair(s: string, n: nat)
    requires AllDigits(s) && n < 100
    ensures AllDigits(s + Pair(n)) && Whole(s + Pair(n)) == 100 * Whole(s) + n
  {
    PairDigits(n);
    WholeOfOneMore(s, Pair(n)[0]);
    WholeOfOneMore(s + [Pair(n)[0]], Pair(n)[1]);
    assert s + Pair(n) == s + [Pair(n)[0]] + [Pair(n)[1]];
  }

  lemma ShortReads(n: nat)
    requires n < 100
    ensures AllDigits(Short(n)) && WithoutCommas(Short(n)) == Short(n) && Whole(Short(n)) == n
  {
    DigitCharIsDigit(n % 10);
    if n < 10 {
      WholeOfOneMore("", DigitChar(n));
      assert "" + [DigitChar(n)] == Short(n);
    } else {
      WholeOfPair("", n);
      assert "" + Pair(n) == Short(n);
    }
    DigitsKept(Short(n));
  }

  lemma DigitsAfterComma(front: string, digits: string)
    requires AllDigits(digits)
    ensures WithoutCommas(front + "," + digits) == WithoutCommas(front) + digits
  {
    WithoutCommasAppend(front + ",", digits);
    WithoutCommasAppend(front, ",");
    DigitsKept(digits);
    OneComma();
  }

  lemma OneComma()
    ensures WithoutCommas(",") == ""
  {
    assert ","[..0] == "";
  }

  lemma {:induction false} GroupPairsReads(n: nat)
    ensures AllDigits(WithoutCommas(GroupPairs(n))) && Whole(WithoutCommas(GroupPairs(n))) == n
  {
    if n < 100 {
      ShortReads(n);
    } else {
      GroupPairsReads(n / 100);
      PairDigits(n % 100);
      DigitsAfterComma(GroupPairs(n / 100), Pair(n % 100));
      WholeOfPair(WithoutCommas(GroupPairs(n / 100)), n % 100);
    }
  }

  /** Taking the commas out of a grouped number leaves its digits. */
  lemma GroupedReads(n: nat)
    ensures AllDigits(WithoutCommas(Grouped(n))) && Whole(WithoutCommas(Grouped(n))) == n
  {
    hide Pair, Whole, WithoutCommas, DigitChar, Short, GroupPairs;
    if n < 100 {
      ShortReads(n);
    } else {
      var h := n / 100 % 10;
      ReadsOne(h);
      WholeOfPair([DigitChar(h)], n % 100);
      var hundreds := [DigitChar(h)] + Pair(n % 100);
      if n < 1000 {
        DigitsKept(hundreds);
      } else {
        var front := GroupPairs(n / 1000);
        GroupPairsReads(n / 1000);
        assert Grouped(n) == front + "," + hundreds;
        DigitsAfterComma(front, hundreds);
        WholeOfOneMore(WithoutCommas(front), DigitChar(h));
        WholeOfPair(WithoutCommas(front) + [DigitChar(h)], n % 100);
        assert WithoutCommas(front) + hundreds == WithoutCommas(front) + [DigitChar(h)] + Pair(n % 100);
      }
    }
  }

  lemma ReadsOne(d: nat)
    requires d < 10
    ensures IsDigit(DigitChar(d)) && DigitValue(DigitChar(d)) == d && Whole([DigitChar(d)]) == d
  {
    DigitCharIsDigit(d);
    WholeOfOneMore("", DigitChar(d));
    assert "" + [DigitChar(d)] == [DigitChar(d)];
  }
}
