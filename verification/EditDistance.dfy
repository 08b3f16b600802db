/**
 Bounded Levenshtein distance between two registrations.

 The reference notion is the textbook one: the least number of single-character
 insertions, deletions and replacements, at any positions and in any order, that
 turn one string into the other.
 */
module EditDistance {

  /** One single-character edit, addressed by position. */
  datatype Edit =
    | Insert(at: nat, ch: char)
    | Delete(at: nat)
    | Replace(at: nat, ch: char)

  predicate Fits(e: Edit, s: string) {
    match e
    case Insert(at, _) => at <= |s|
    case Delete(at) => at < |s|
    case Replace(at, _) => at < |s|
  }

  function Apply(e: Edit, s: string): string
    requires Fits(e, s)
  {
    match e
    case Insert(at, ch) => s[..at] + [ch] + s[at..]
    case Delete(at) => s[..at] + s[at + 1..]
    case Replace(at, ch) => s[at := ch]
  }

  /** The script runs from `s`, edit after edit, and ends at `t`. */
  predicate Transforms(script: seq<Edit>, s: string, t: string)
    decreases |script|
  {
    if script == [] then s == t
    else Fits(script[0], s) && Transforms(script[1..], Apply(script[0], s), t)
  }

  function Min(a: int, b: int): int {
    if a < b then a else b
  }

  function Init(s: string): string
    requires s != []
  {
    s[..|s| - 1]
  }

  function Last(s: string): char
    requires s != []
  {
    s[|s| - 1]
  }

  /** The recurrence that the table of `BoundedEditDistance` tabulates. */
  function Distance(s: string, t: string): nat
    decreases |s| + |t|
  {
    if s == [] then |t|
    else if t == [] then |s|
    else
      Min(Distance(Init(s), Init(t)) + (if Last(s) == Last(t) then 0 else 1),
          Min(Distance(Init(s), t) + 1, Distance(s, Init(t)) + 1))
  }

  // ----- No script is shorter than Distance -----

  lemma {:induction false} DropLastRight(s: string, t: string)
    requires t != []
    ensures Distance(s, Init(t)) <= Distance(s, t) + 1
    decreases |s|
  {
    if s != [] {
      DropLastRight(Init(s), t);
      if |t| > 1 {
        assert Distance(s, Init(t)) <= Distance(Init(s), Init(t)) + 1;
      }
    }
  }

  lemma {:induction false} DistanceSymmetric(s: string, t: string)
    ensures Distance(s, t) == Distance(t, s)
    decreases |s| + |t|
  {
    if s != [] && t != [] {
      DistanceSymmetric(Init(s), Init(t));
      DistanceSymmetric(Init(s), t);
      DistanceSymmetric(s, Init(t));
    }
  }

  lemma {:induction false} ZeroOnlyWhenEqual(s: string, t: string)
    ensures Distance(s, t) == 0 <==> s == t
    decreases |s|
  {
    if s != [] && t != [] {
      ZeroOnlyWhenEqual(Init(s), Init(t));
      assert s == Init(s) + [Last(s)] && t == Init(t) + [Last(t)];
    }
  }

  /** Inserting `x` after `u` on the left moves the distance to `t` by at most one, either way. */
  lemma {:induction false} InsertMovesByOne(u: string, x: char, v: string, t: string)
    ensures Distance(u + v, t) <= Distance(u + [x] + v, t) + 1
    ensures Distance(u + [x] + v, t) <= Distance(u + v, t) + 1
    decreases |v| + |t|
  {
    var long, short := u + [x] + v, u + v;
    if v == [] {
      assert long == u + [x] && short == u && Init(long) == u;
      DropLastRight(t, long);
      DistanceSymmetric(t, long);
      DistanceSymmetric(t, u);
      LongerByOne(u, x, t);
    } else {
      assert Init(long) == u + [x] + Init(v) && Init(short) == u + Init(v);
      assert Last(long) == Last(v) == Last(short);
      InsertMovesByOne(u, x, Init(v), t);
      if t != [] {
        InsertMovesByOne(u, x, v, Init(t));
        InsertMovesByOne(u, x, Init(v), Init(t));
      }
    }
  }

  lemma LongerByOne(u: string, x: char, t: string)
    ensures Distance(u + [x], t) <= Distance(u, t) + 1
  {
    assert Init(u + [x]) == u;
  }

  lemma {:induction false} ReplaceMovesByOne(u: string, x: char, y: char, v: string, t: string)
    ensures Distance(u + [x] + v, t) <= Distance(u + [y] + v, t) + 1
    decreases |v| + |t|
  {
    var p, q := u + [x] + v, u + [y] + v;
    if v == [] {
      assert p == u + [x] && q == u + [y] && Init(p) == u == Init(q);
      if t != [] {
        ReplaceMovesByOne(u, x, y, v, Init(t));
      }
    } else {
      assert Init(p) == u + [x] + Init(v) && Init(q) == u + [y] + Init(v);
      assert Last(p) == Last(v) == Last(q);
      ReplaceMovesByOne(u, x, y, Init(v), t);
      if t != [] {
        ReplaceMovesByOne(u, x, y, v, Init(t));
        ReplaceMovesByOne(u, x, y, Init(v), Init(t));
      }
    }
  }

  lemma EditMovesByOne(e: Edit, s: string, t: string)
    requires Fits(e, s)
    ensures Distance(s, t) <= Distance(Apply(e, s), t) + 1
  {
    match e
    case Insert(at, ch) =>
      assert s == s[..at] + s[at..];
      InsertMovesByOne(s[..at], ch, s[at..], t);
    case Delete(at) =>
      assert s == s[..at] + [s[at]] + s[at + 1..];
      InsertMovesByOne(s[..at], s[at], s[at + 1..], t);
    case Replace(at, ch) =>
      assert s == s[..at] + [s[at]] + s[at + 1..];
      assert Apply(e, s) == s[..at] + [ch] + s[at + 1..];
      ReplaceMovesByOne(s[..at], s[at], ch, s[at + 1..], t);
  }

  /** Every script from `s` to `t` has at least `Distance(s, t)` edits. */
  lemma {:induction false} NoShorterScript(script: seq<Edit>, s: string, t: string)
    requires Transforms(script, s, t)
    ensures Distance(s, t) <= |script|
    decreases |script|
  {
    if script == [] {
      ZeroOnlyWhenEqual(s, t);
    } else {
      NoShorterScript(script[1..], Apply(script[0], s), t);
      EditMovesByOne(script[0], s, t);
    }
  }

  // ----- Some script is that short -----

  lemma {:induction false} TransformsThen(first: seq<Edit>, second: seq<Edit>, s: string, m: string, t: string)
    requires Transforms(first, s, m) && Transforms(second, m, t)
    ensures Transforms(first + second, s, t)
    decreases |first|
  {
    if first == [] {
      assert first + second == second;
    } else {
      assert (first + second)[1..] == first[1..] + second;
      TransformsThen(first[1..], second, Apply(first[0], s), m, t);
    }
  }

  lemma {:induction false} TransformsUnderSuffix(script: seq<Edit>, s: string, t: string, c: char)
    requires Transforms(script, s, t)
    ensures Transforms(script, s + [c], t + [c])
    decreases |script|
  {
    if script != [] {
      assert Apply(script[0], s + [c]) == Apply(script[0], s) + [c];
      TransformsUnderSuffix(script[1..], Apply(script[0], s), t, c);
    }
  }

  lemma OneStep(e: Edit, s: string, t: string)
    requires Fits(e, s) && Apply(e, s) == t
    ensures Transforms([e], s, t)
  {
    assert [e][1..] == [];
  }

  lemma PrependDelete(rest: seq<Edit>, s: string, t: string)
    requires s != [] && Transforms(rest, Init(s), t)
    ensures Transforms([Delete(|s| - 1)] + rest, s, t)
  {
    OneStep(Delete(|s| - 1), s, Init(s));
    TransformsThen([Delete(|s| - 1)], rest, s, Init(s), t);
  }

  lemma AppendInsert(rest: seq<Edit>, s: string, t: string)
    requires t != [] && Transforms(rest, s, Init(t))
    ensures Transforms(rest + [Insert(|t| - 1, Last(t))], s, t)
  {
    OneStep(Insert(|t| - 1, Last(t)), Init(t), t);
    TransformsThen(rest, [Insert(|t| - 1, Last(t))], s, Init(t), t);
  }

  lemma KeepLast(rest: seq<Edit>, s: string, t: string)
    requires s != [] && t != [] && Last(s) == Last(t) && Transforms(rest, Init(s), Init(t))
    ensures Transforms(rest, s, t)
  {
    assert s == Init(s) + [Last(s)] && t == Init(t) + [Last(t)];
    TransformsUnderSuffix(rest, Init(s), Init(t), Last(s));
  }

  lemma AppendReplace(rest: seq<Edit>, s: string, t: string)
    requires s != [] && t != [] && Transforms(rest, Init(s), Init(t))
    ensures Transforms(rest + [Replace(|t| - 1, Last(t))], s, t)
  {
    assert s == Init(s) + [Last(s)];
    TransformsUnderSuffix(rest, Init(s), Init(t), Last(s));
    var m := Init(t) + [Last(s)];
    OneStep(Replace(|t| - 1, Last(t)), m, t);
    TransformsThen(rest, [Replace(|t| - 1, Last(t))], s, m, t);
  }

  /** A script of exactly `Distance(s, t)` edits, read off the recurrence. */
  lemma {:induction false} ShortestScript(s: string, t: string) returns (script: seq<Edit>)
    ensures Transforms(script, s, t) && |script| == Distance(s, t)
    decreases |s| + |t|
  {
    if s == [] && t == [] {
      script := [];
    } else if s != [] && (t == [] || Distance(s, t) == Distance(Init(s), t) + 1) {
      var rest := ShortestScript(Init(s), t);
      PrependDelete(rest, s, t);
      script := [Delete(|s| - 1)] + rest;
    } else if t != [] && (s == [] || Distance(s, t) == Distance(s, Init(t)) + 1) {
      var rest := ShortestScript(s, Init(t));
      AppendInsert(rest, s, t);
      script := rest + [Insert(|t| - 1, Last(t))];
    } else {
      var rest := ShortestScript(Init(s), Init(t));
      if Last(s) == Last(t) {
        KeepLast(rest, s, t);
        script := rest;
      } else {
        AppendReplace(rest, s, t);
        script := rest + [Replace(|t| - 1, Last(t))];
      }
    }
  }

  /** `n` is the least number of single-character edits from `s` to `t`. */
  ghost predicate IsEditDistance(n: nat, s: string, t: string) {
    && (exists script :: Transforms(script, s, t) && |script| == n)
    && (forall script :: Transforms(script, s, t) ==> n <= |script|)
  }

  /** The recurrence computes the true edit distance, and nothing else does. */
  lemma DistanceIsEditDistance(s: string, t: string, n: nat)
    ensures IsEditDistance(n, s, t) <==> n == Distance(s, t)
  {
    var best := ShortestScript(s, t);
    forall script | Transforms(script, s, t)
      ensures Distance(s, t) <= |script|
    {
      NoShorterScript(script, s, t);
    }
  }

  // ----- The two early exits -----

  /** The length test: the lengths alone already force this many edits. */
  lemma {:induction false} DistanceCoversLengths(s: string, t: string)
    ensures Distance(s, t) >= |s| - |t| && Distance(s, t) >= |t| - |s|
    decreases |s| + |t|
  {
    if s != [] && t != [] {
      DistanceCoversLengths(Init(s), Init(t));
      DistanceCoversLengths(Init(s), t);
      DistanceCoversLengths(s, Init(t));
    }
  }

  /** The abandonment test: every alignment passes through row `i` of the table. */
  lemma {:induction false} EveryRowIsCrossed(s: string, t: string, i: nat, bound: int)
    requires i <= |s|
    requires forall j :: 0 <= j <= |t| ==> Distance(s[..i], t[..j]) >= bound
    ensures Distance(s, t) >= bound
    decreases |s| + |t|
  {
    if i == |s| {
      assert s[..i] == s && t[..|t|] == t;
    } else if t == [] {
      assert Distance(s[..i], t[..0]) >= bound;
    } else {
      assert Init(s)[..i] == s[..i];
      assert forall j :: 0 <= j < |t| ==> Init(t)[..j] == t[..j];
      EveryRowIsCrossed(Init(s), Init(t), i, bound);
      EveryRowIsCrossed(Init(s), t, i, bound);
      EveryRowIsCrossed(s, Init(t), i, bound);
    }
  }

  lemma Snoc(s: string, x: char, t: string, y: char)
    ensures Distance(s + [x], t + [y])
         == Min(Distance(s, t) + (if x == y then 0 else 1),
                Min(Distance(s, t + [y]) + 1, Distance(s + [x], t) + 1))
  {
    hide Distance;
    assert Init(s + [x]) == s && Init(t + [y]) == t;
    Recurrence(s + [x], t + [y]);
  }

  lemma {:induction false} Recurrence(s: string, t: string)
    requires s != [] && t != []
    ensures Distance(s, t)
         == Min(Distance(Init(s), Init(t)) + (if Last(s) == Last(t) then 0 else 1),
                Min(Distance(Init(s), t) + 1, Distance(s, Init(t)) + 1))
  {
  }

  /** One cell of the table from its three neighbours. */
  lemma Cell(left: string, right: string, i: nat, j: nat)
    requires 1 <= i <= |left| && 1 <= j <= |right|
    ensures Distance(left[..i], right[..j])
         == Min(Distance(left[..i - 1], right[..j - 1]) + (if left[i - 1] == right[j - 1] then 0 else 1),
                Min(Distance(left[..i - 1], right[..j]) + 1, Distance(left[..i], right[..j - 1]) + 1))
  {
    hide Distance;
    assert left[..i] == left[..i - 1] + [left[i - 1]] && right[..j] == right[..j - 1] + [right[j - 1]];
    Snoc(left[..i - 1], left[i - 1], right[..j - 1], right[j - 1]);
  }

  lemma FirstCell(left: string, right: string, i: nat)
    requires i <= |left|
    ensures Distance(left[..i], right[..0]) == i
  {
  }

  /** `row` holds row `i` of the table up to column `n`. */
  ghost predicate IsRow(row: seq<int>, left: string, right: string, i: nat, n: nat)
    requires i <= |left| && n <= |right|
  {
    |row| == n + 1 && forall j :: 0 <= j <= n ==> row[j] == Distance(left[..i], right[..j])
  }

  /** One inner pass: row `i` from row `i - 1`, with the least entry of the new row. */
  method NextRow(left: string, right: string, i: nat, previous: seq<int>)
    returns (current: seq<int>, rowMinimum: int)
    requires 1 <= i <= |left|
    requires IsRow(previous, left, right, i - 1, |right|)
    ensures IsRow(current, left, right, i, |right|)
    ensures forall j :: 0 <= j <= |right| ==> rowMinimum <= current[j]
  {
    hide Distance;
    current := [i];
    rowMinimum := i;
    FirstCell(left, right, i);
    var j := 1;
    while j <= |right|
      invariant 1 <= j <= |right| + 1
      invariant IsRow(current, left, right, i, j - 1)
      invariant forall k :: 0 <= k < j ==> rowMinimum <= current[k]
    {
      Cell(left, right, i, j);
      var substitution := previous[j - 1] + (if left[i - 1] == right[j - 1] then 0 else 1);
      var deletion := previous[j] + 1;
      var insertion := current[j - 1] + 1;
      var best := Min(substitution, Min(deletion, insertion));
      current := current + [best];
      if best < rowMinimum {
        rowMinimum := best;
      }
      j := j + 1;
    }
  }

  /**
   The two-row walk. It stops early on the length test, or once every entry of a
   row is above the limit. Within the limit the answer is the true distance;
   beyond it, some number beyond the limit.
   */
  method BoundedEditDistance(left: string, right: string, limit: int) returns (r: int)
    ensures Distance(left, right) <= limit ==> r == Distance(left, right)
    ensures Distance(left, right) > limit ==> r > limit && (r == limit + 1 || r == Distance(left, right))
  {
    ZeroOnlyWhenEqual(left, right);
    DistanceCoversLengths(left, right);
    if left == right {
      return 0;
    }
    var gap := |left| - |right|;
    if (if gap < 0 then -gap else gap) > limit {
      return limit + 1;
    }

    var previous: seq<int> := seq(|right| + 1, index => index);
    assert left[..0] == [];
    var i := 1;
    while i <= |left|
      invariant 1 <= i <= |left| + 1
      invariant IsRow(previous, left, right, i - 1, |right|)
    {
      var current, rowMinimum := NextRow(left, right, i, previous);
      if rowMinimum > limit {
        EveryRowIsCrossed(left, right, i, limit + 1);
        return limit + 1;
      }
      previous := current;
      i := i + 1;
    }
    assert left[..|left|] == left && right[..|right|] == right;
    return previous[|right|];
  }
}
