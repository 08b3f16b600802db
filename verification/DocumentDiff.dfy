/**
 The field-by-field diff of two documents, and why it is a complete record of
 the change: nothing is reported twice, nothing is missed, and replaying it turns
 the old document into the new one.
 */
module DocumentDiff {
  import opened Text
  import opened Documents

  /** One changed field, addressed by its keys from the root. */
  datatype Change = Change(path: seq<Text>, before: Doc, after: Doc)

  /** Any set of keys, sorted. */
  ghost function SortedKeys(keys: set<Text>): (r: seq<Text>)
    ensures forall k :: k in r <==> k in keys
    decreases |keys|
  {
    if keys == {} then []
    else
      var k :| k in keys;
      Insert(k, SortedKeys(keys - {k}))
  }

  lemma {:induction false} SortedKeysIncreasing(keys: set<Text>)
    ensures Increasing(SortedKeys(keys))
    decreases |keys|
  {
    if keys != {} {
      var k :| k in keys && SortedKeys(keys) == Insert(k, SortedKeys(keys - {k}));
      SortedKeysIncreasing(keys - {k});
      InsertIncreasing(k, SortedKeys(keys - {k}));
    }
  }

  ghost function Under(key: Text, changes: seq<Change>): (r: seq<Change>)
    ensures |r| == |changes|
    ensures forall i :: 0 <= i < |r| ==> r[i] == changes[i].(path := [key] + changes[i].path)
  {
    seq(|changes|, i requires 0 <= i < |changes| => changes[i].(path := [key] + changes[i].path))
  }

  ghost function Diff(before: Doc, after: Doc): seq<Change>
    decreases before, 3, 0
  {
    if before.Obj? && after.Obj? then
      DiffKeys(before, after, SortedKeys(before.members.Keys + after.members.Keys))
    else if SameValue(before, after) then []
    else [Change([], before, after)]
  }

  ghost function DiffKeys(before: Doc, after: Doc, keys: seq<Text>): seq<Change>
    requires before.Obj? && after.Obj?
    decreases before, 1, |keys|
  {
    if keys == [] then []
    else Under(keys[0], DiffMember(before, after, keys[0])) + DiffKeys(before, after, keys[1..])
  }

  /** A member missing on either side is compared as `undefined`, which nothing but `undefined` equals. */
  ghost function DiffMember(before: Doc, after: Doc, key: Text): seq<Change>
    requires before.Obj? && after.Obj?
    decreases before, 0, 0
  {
    if key in before.members then Diff(before.members[key], Get(after, key))
    else if Get(after, key) == Undefined then []
    else [Change([], Undefined, Get(after, key))]
  }

  ghost predicate SameValue(a: Doc, b: Doc)
    decreases a, 2, 0
  {
    match a
    case Arr(items) => b.Arr? && |items| == |b.items| && forall i :: 0 <= i < |items| ==>
        SameValue(items[i], b.items[i])
    case Obj(_) => b.Obj? && DiffKeys(a, b, SortedKeys(a.members.Keys + b.members.Keys)) == []
    case _ => a == b
  }

  /** The document without its `undefined` members, at every depth: what is left when it is stored. */
  function Clean(d: Doc): Doc
    decreases d
  {
    match d
    case Arr(items) => Arr(seq(|items|, i requires 0 <= i < |items| => Clean(items[i])))
    case Obj(members) => Obj(map key | key in members && members[key] != Undefined :: Clean(members[key]))
    case _ => d
  }

  lemma CleanUndefined(d: Doc)
    ensures Clean(d) == Undefined <==> d == Undefined
  {
  }

  lemma CleanMember(d: Doc, key: Text)
    requires d.Obj?
    ensures Clean(d).Obj? && (key in Clean(d).members <==> Get(d, key) != Undefined)
    ensures Clean(Get(d, key)) == if key in Clean(d).members then Clean(d).members[key] else Undefined
  {
  }

  /** Two objects are clean-equal exactly when they read alike, key by key. */
  lemma CleanObjects(a: Doc, b: Doc)
    requires a.Obj? && b.Obj?
    ensures Clean(a) == Clean(b) <==> forall key :: Clean(Get(a, key)) == Clean(Get(b, key))
  {
    forall key
      ensures Clean(Get(a, key)) == Clean(Get(b, key)) <==>
        (if key in Clean(a).members then Clean(a).members[key] else Undefined)
        == (if key in Clean(b).members then Clean(b).members[key] else Undefined)
      ensures key in Clean(a).members ==> Clean(a).members[key] != Undefined
      ensures key in Clean(b).members ==> Clean(b).members[key] != Undefined
    {
      CleanMember(a, key);
      CleanMember(b, key);
      CleanUndefined(Get(a, key));
      CleanUndefined(Get(b, key));
    }
    hide Clean, Get;
    SameReadings(Clean(a).members, Clean(b).members);
  }

  lemma SameReadings(a: map<Text, Doc>, b: map<Text, Doc>)
    requires forall key :: key in a ==> a[key] != Undefined
    requires forall key :: key in b ==> b[key] != Undefined
    ensures a == b <==> forall key ::
        (if key in a then a[key] else Undefined) == (if key in b then b[key] else Undefined)
  {
    if forall key :: (if key in a then a[key] else Undefined) == (if key in b then b[key] else Undefined) {
      forall key
        ensures key in a <==> key in b
        ensures key in a ==> a[key] == b[key]
      {
      }
      assert a == b;
    }
  }

  // ----- Empty exactly on equal documents -----

  lemma {:induction false} DiffKeysEmpty(before: Doc, after: Doc, keys: seq<Text>)
    requires before.Obj? && after.Obj?
    ensures DiffKeys(before, after, keys) == [] <==> forall key :: key in keys ==> DiffMember(before, after, key) == []
    decreases |keys|
  {
    if keys != [] {
      DiffKeysEmpty(before, after, keys[1..]);
      assert |DiffKeys(before, after, keys)|
          == |DiffMember(before, after, keys[0])| + |DiffKeys(before, after, keys[1..])|;
      assert forall key :: key in keys <==> key == keys[0] || key in keys[1..];
    }
  }

  lemma {:induction false} DiffMemberEmpty(before: Doc, after: Doc, key: Text)
    requires before.Obj? && after.Obj?
    ensures DiffMember(before, after, key) == [] <==> Clean(Get(before, key)) == Clean(Get(after, key))
    decreases before, 0
  {
    if key in before.members {
      DiffEmptyIffEqual(before.members[key], Get(after, key));
    } else {
      CleanUndefined(Get(after, key));
    }
  }

  /** The diff is empty exactly when the documents are equal, `undefined` members aside. */
  lemma {:induction false} DiffEmptyIffEqual(before: Doc, after: Doc)
    ensures Diff(before, after) == [] <==> Clean(before) == Clean(after)
    decreases before, 3
  {
    if before.Obj? && after.Obj? {
      ObjectsSame(before, after);
    } else {
      SameValueIffEqual(before, after);
    }
  }

  lemma {:induction false} ObjectsSame(before: Doc, after: Doc)
    requires before.Obj? && after.Obj?
    ensures DiffKeys(before, after, SortedKeys(before.members.Keys + after.members.Keys)) == []
        <==> Clean(before) == Clean(after)
    decreases before, 1
  {
    var keys := SortedKeys(before.members.Keys + after.members.Keys);
    DiffKeysEmpty(before, after, keys);
    CleanObjects(before, after);
    forall key
      ensures DiffMember(before, after, key) == [] <==> Clean(Get(before, key)) == Clean(Get(after, key))
    {
      DiffMemberEmpty(before, after, key);
    }
    assert forall key :: key !in keys ==> Get(before, key) == Undefined == Get(after, key);
  }

  /** Comparison by value is equality, `undefined` members aside. */
  lemma {:induction false} SameValueIffEqual(a: Doc, b: Doc)
    ensures SameValue(a, b) <==> Clean(a) == Clean(b)
    decreases a, 2
  {
    match a
    case Arr(items) =>
      if b.Arr? && |items| == |b.items| {
        forall i | 0 <= i < |items|
          ensures SameValue(items[i], b.items[i]) <==> Clean(a).items[i] == Clean(b).items[i]
        {
          SameValueIffEqual(items[i], b.items[i]);
        }
      }
    case Obj(_) =>
      if b.Obj? {
        ObjectsSame(a, b);
      }
    case _ =>
  }
}
