/**
 Strings as the program sees them: sequences of UTF-16 code units, compared and
 sorted code unit by code unit.
 */
module Text {

  type CodeUnit = u: nat | u < 0x1_0000
  type Text = seq<CodeUnit>

  /** Lexicographic order by code unit; a proper prefix comes first. */
  predicate Before(a: Text, b: Text)
    decreases |a|
  {
    b != [] && (a == [] || a[0] < b[0] || (a[0] == b[0] && Before(a[1..], b[1..])))
  }

  /** The second goes on where the first ends, or has the greater unit where the two first differ. */
  ghost predicate Ascends(a: Text, b: Text) {
    exists k: nat :: k <= |a| && k < |b| && a[..k] == b[..k] && (k == |a| || a[k] < b[k])
  }

  lemma {:induction false} BeforeExactly(a: Text, b: Text)
    ensures Before(a, b) <==> Ascends(a, b)
    decreases |a|
  {
    if a != [] && b != [] && a[0] == b[0] {
      BeforeExactly(a[1..], b[1..]);
      if Before(a, b) {
        var k: nat :| k < |a| && k < |b| - 1 && a[1..][..k] == b[1..][..k]
            && (k == |a| - 1 || a[1..][k] < b[1..][k]);
        FirstUnitOff(a, k);
        FirstUnitOff(b, k);
      }
      forall k: nat | k <= |a| && k < |b| && a[..k] == b[..k] && (k == |a| || a[k] < b[k])
        ensures Before(a, b)
      {
        FirstUnitOff(a, k - 1);
        FirstUnitOff(b, k - 1);
        assert a[1..][..k - 1] == a[..k][1..] == b[1..][..k - 1];
      }
    } else if b != [] {
      assert a[..0] == b[..0];
      CommonHead(a, b);
    }
  }

  lemma CommonHead(a: Text, b: Text)
    ensures forall k: nat | 0 < k <= |a| && k <= |b| && a[..k] == b[..k] :: a[0] == b[0]
  {
    assert forall k: nat | 0 < k <= |a| :: a[..k][0] == a[0];
    assert forall k: nat | 0 < k <= |b| :: b[..k][0] == b[0];
  }

  lemma FirstUnitOff(a: Text, k: nat)
    requires k < |a|
    ensures a[..k + 1] == [a[0]] + a[1..][..k]
  {
  }

  lemma {:induction false} BeforeTotal(a: Text, b: Text)
    ensures Before(a, b) || a == b || Before(b, a)
    decreases |a|
  {
    if a != [] && b != [] && a[0] == b[0] {
      BeforeTotal(a[1..], b[1..]);
      assert a == [a[0]] + a[1..] && b == [b[0]] + b[1..];
    }
  }

  lemma {:induction false} BeforeTransitive(a: Text, b: Text, c: Text)
    requires Before(a, b) && Before(b, c)
    ensures Before(a, c)
    decreases |a|
  {
    if a != [] && a[0] == b[0] == c[0] {
      BeforeTransitive(a[1..], b[1..], c[1..]);
    }
  }

  lemma {:induction false} BeforeIrreflexive(a: Text)
    ensures !Before(a, a)
    decreases |a|
  {
    if a != [] {
      BeforeIrreflexive(a[1..]);
    }
  }

  predicate Increasing(keys: seq<Text>) {
    forall i, j :: 0 <= i < j < |keys| ==> Before(keys[i], keys[j])
  }

  predicate Distinct(keys: seq<Text>) {
    forall i, j :: 0 <= i < j < |keys| ==> keys[i] != keys[j]
  }

  function Insert(key: Text, keys: seq<Text>): (r: seq<Text>)
    ensures |r| == |keys| + 1
    ensures forall k :: k in r <==> k == key || k in keys
  {
    if keys == [] then [key]
    else if Before(keys[0], key) then [keys[0]] + Insert(key, keys[1..])
    else [key] + keys
  }

  lemma {:induction false} InsertIncreasing(key: Text, keys: seq<Text>)
    requires Increasing(keys) && key !in keys
    ensures Increasing(Insert(key, keys))
  {
    if keys != [] {
      BeforeTotal(keys[0], key);
      if Before(keys[0], key) {
        InsertIncreasing(key, keys[1..]);
        var rest := Insert(key, keys[1..]);
        forall j | 0 <= j < |rest|
          ensures Before(keys[0], rest[j])
        {
          assert rest[j] in rest;
        }
      } else {
        forall j | 0 <= j < |keys|
          ensures Before(key, keys[j])
        {
          if j > 0 {
            BeforeTransitive(key, keys[0], keys[j]);
          }
        }
      }
    }
  }

  /** The standard sort, on distinct keys. */
  function Sort(keys: seq<Text>): (r: seq<Text>)
    ensures |r| == |keys|
    ensures forall k :: k in r <==> k in keys
  {
    if keys == [] then [] else Insert(keys[0], Sort(keys[1..]))
  }

  lemma {:induction false} SortIncreasing(keys: seq<Text>)
    requires Distinct(keys)
    ensures Increasing(Sort(keys))
  {
    if keys != [] {
      SortIncreasing(keys[1..]);
      InsertIncreasing(keys[0], Sort(keys[1..]));
    }
  }

  lemma IncreasingDistinct(keys: seq<Text>)
    requires Increasing(keys)
    ensures Distinct(keys)
  {
    forall i, j | 0 <= i < j < |keys|
      ensures keys[i] != keys[j]
    {
      BeforeIrreflexive(keys[i]);
    }
  }

  /** Only one increasing sequence has a given set of elements, so sorting forgets the order it was given. */
  lemma {:induction false} IncreasingUnique(a: seq<Text>, b: seq<Text>)
    requires Increasing(a) && Increasing(b)
    requires forall k :: k in a <==> k in b
    ensures a == b
    decreases |a|
  {
    assert |a| > 0 ==> a[0] in a;
    assert |b| > 0 ==> b[0] in b;
    if a != [] {
      assert a[0] in b;
      var j :| 0 <= j < |b| && b[j] == a[0];
      assert b[0] in a;
      var i :| 0 <= i < |a| && a[i] == b[0];
      if i > 0 && j > 0 {
        BeforeTransitive(a[0], a[i], a[0]);
        BeforeIrreflexive(a[0]);
      }
      IncreasingDistinct(a);
      IncreasingDistinct(b);
      assert forall k :: k in a[1..] <==> k in a && k != a[0];
      assert forall k :: k in b[1..] <==> k in b && k != b[0];
      IncreasingUnique(a[1..], b[1..]);
    }
  }
}
