/**
 Replaying a diff, and the paths it is written in.
 */
module DocumentReplay {
  import opened Text
  import opened Documents
  import opened DocumentDiff

  // ----- Each change tells the truth, once -----

  /** A change reports what the two documents hold at its path. */
  lemma {:induction false} ChangesAreTrue(before: Doc, after: Doc, i: nat)
    requires i < |Diff(before, after)|
    ensures var c := Diff(before, after)[i];
            c.before == Lookup(before, c.path) && c.after == Lookup(after, c.path) && Clean(c.before) != Clean(c.after)
    decreases before, 3, 0
  {
    if before.Obj? && after.Obj? {
      KeyChangesAreTrue(before, after, SortedKeys(before.members.Keys + after.members.Keys), i);
    } else {
      SameValueIffEqual(before, after);
    }
  }

  lemma {:induction false} KeyChangesAreTrue(before: Doc, after: Doc, keys: seq<Text>, i: nat)
    requires before.Obj? && after.Obj? && i < |DiffKeys(before, after, keys)|
    ensures var c := DiffKeys(before, after, keys)[i];
            && c.path != [] && c.path[0] in keys
            && c.before == Lookup(before, c.path) && c.after == Lookup(after, c.path)
            && Clean(c.before) != Clean(c.after)
    decreases before, 1, |keys|
  {
    var first := DiffMember(before, after, keys[0]);
    if i < |first| {
      var c := first[i];
      MemberChangesAreTrue(before, after, keys[0], i);
      assert DiffKeys(before, after, keys)[i] == c.(path := [keys[0]] + c.path);
      assert ([keys[0]] + c.path)[1..] == c.path;
    } else {
      KeyChangesAreTrue(before, after, keys[1..], i - |first|);
    }
  }

  lemma {:induction false} MemberChangesAreTrue(before: Doc, after: Doc, key: Text, i: nat)
    requires before.Obj? && after.Obj? && i < |DiffMember(before, after, key)|
    ensures var c := DiffMember(before, after, key)[i];
            && c.before == Lookup(Get(before, key), c.path) && c.after == Lookup(Get(after, key), c.path)
            && Clean(c.before) != Clean(c.after)
    decreases before, 0, 0
  {
    if key in before.members {
      ChangesAreTrue(before.members[key], Get(after, key), i);
    } else {
      CleanUndefined(Get(after, key));
    }
  }

  /** Neither path leads to or through the other. */
  predicate Apart(p: seq<Text>, q: seq<Text>) {
    exists n :: 0 <= n < |p| && n < |q| && p[n] != q[n]
  }

  ghost predicate PairwiseApart(changes: seq<Change>) {
    forall i, j :: 0 <= i < j < |changes| ==> Apart(changes[i].path, changes[j].path)
  }

  lemma UnderApart(key: Text, changes: seq<Change>)
    requires PairwiseApart(changes)
    ensures PairwiseApart(Under(key, changes))
  {
    var r := Under(key, changes);
    forall i, j | 0 <= i < j < |r|
      ensures Apart(r[i].path, r[j].path)
    {
      var n :| 0 <= n < |changes[i].path| && n < |changes[j].path| && changes[i].path[n] != changes[j].path[n];
      assert r[i].path[n + 1] == changes[i].path[n] && r[j].path[n + 1] == changes[j].path[n];
    }
  }

  /** No two changes overlap. */
  lemma {:induction false} ChangesApart(before: Doc, after: Doc)
    ensures PairwiseApart(Diff(before, after))
    decreases before, 3, 0
  {
    if before.Obj? && after.Obj? {
      var keys := SortedKeys(before.members.Keys + after.members.Keys);
      SortedKeysIncreasing(before.members.Keys + after.members.Keys);
      IncreasingDistinct(keys);
      KeyChangesApart(before, after, keys);
    }
  }

  lemma {:induction false} KeyChangesApart(before: Doc, after: Doc, keys: seq<Text>)
    requires before.Obj? && after.Obj? && Distinct(keys)
    ensures PairwiseApart(DiffKeys(before, after, keys))
    decreases before, 1, |keys|
  {
    if keys != [] {
      if keys[0] in before.members {
        ChangesApart(before.members[keys[0]], Get(after, keys[0]));
      }
      var first, rest := DiffMember(before, after, keys[0]), DiffKeys(before, after, keys[1..]);
      UnderApart(keys[0], first);
      KeyChangesApart(before, after, keys[1..]);
      forall i, j | 0 <= i < |first| && 0 <= j < |rest|
        ensures Apart(Under(keys[0], first)[i].path, rest[j].path)
      {
        KeyChangesAreTrue(before, after, keys[1..], j);
        assert Under(keys[0], first)[i].path[0] != rest[j].path[0];
      }
    }
  }

  // ----- Replay -----

  /** Writes a value at a path, making objects along the way where there are none. */
  function SetAt(d: Doc, path: seq<Text>, value: Doc): Doc
    decreases |path|
  {
    if path == [] then value
    else
      var o := if d.Obj? then d else Obj(map[]);
      Obj(o.members[path[0] := SetAt(Get(o, path[0]), path[1..], value)])
  }

  function Replay(d: Doc, changes: seq<Change>): Doc
    decreases |changes|
  {
    if changes == [] then d
    else Replay(SetAt(d, changes[0].path, changes[0].after), changes[1..])
  }

  lemma {:induction false} ReplayJoins(d: Doc, first: seq<Change>, second: seq<Change>)
    ensures Replay(d, first + second) == Replay(Replay(d, first), second)
    decreases |first|
  {
    if first == [] {
      assert first + second == second;
    } else {
      assert (first + second)[1..] == first[1..] + second;
      ReplayJoins(SetAt(d, first[0].path, first[0].after), first[1..], second);
    }
  }

  /** Changes under one key touch only that member. */
  lemma {:induction false} ReplayUnder(d: Doc, key: Text, changes: seq<Change>)
    requires d.Obj?
    ensures Replay(d, Under(key, changes))
         == if changes == [] then d else Obj(d.members[key := Replay(Get(d, key), changes)])
    decreases |changes|
  {
    if changes != [] {
      var c := changes[0];
      assert ([key] + c.path)[1..] == c.path;
      var next := SetAt(d, [key] + c.path, c.after);
      assert next == Obj(d.members[key := SetAt(Get(d, key), c.path, c.after)]);
      assert Under(key, changes)[1..] == Under(key, changes[1..]);
      ReplayUnder(next, key, changes[1..]);
      var last := Replay(Get(next, key), changes[1..]);
      assert next.members[key := last] == d.members[key := last];
    }
  }

  lemma {:induction false} ReplayKeys(before: Doc, after: Doc, keys: seq<Text>, d: Doc)
    requires before.Obj? && after.Obj? && d.Obj? && Distinct(keys)
    requires forall key :: key in keys ==> Get(d, key) == Get(before, key)
    ensures var r := Replay(d, DiffKeys(before, after, keys));
            && r.Obj?
            && (forall key :: key in keys ==> Clean(Get(r, key)) == Clean(Get(after, key)))
            && (forall key :: key !in keys ==> Get(r, key) == Get(d, key))
    decreases before, 1, |keys|
  {
    if keys != [] {
      var changes := DiffMember(before, after, keys[0]);
      var next := Replay(d, Under(keys[0], changes));
      ReplayUnder(d, keys[0], changes);
      ReplayMember(before, after, keys[0]);
      DiffMemberEmpty(before, after, keys[0]);
      ReplayJoins(d, Under(keys[0], changes), DiffKeys(before, after, keys[1..]));
      assert forall key :: key in keys <==> key == keys[0] || key in keys[1..];
      assert keys[0] !in keys[1..];
      ReplayKeys(before, after, keys[1..], next);
    }
  }

  lemma {:induction false} ReplayMember(before: Doc, after: Doc, key: Text)
    requires before.Obj? && after.Obj?
    ensures Clean(Replay(Get(before, key), DiffMember(before, after, key))) == Clean(Get(after, key))
    decreases before, 0, 0
  {
    if key in before.members {
      ReplayGivesAfter(before.members[key], Get(after, key));
    }
  }

  /** Replaying the diff onto the old document gives the new one, `undefined` members aside. */
  lemma {:induction false} ReplayGivesAfter(before: Doc, after: Doc)
    ensures Clean(Replay(before, Diff(before, after))) == Clean(after)
    decreases before, 3, 0
  {
    if before.Obj? && after.Obj? {
      var keys := SortedKeys(before.members.Keys + after.members.Keys);
      SortedKeysIncreasing(before.members.Keys + after.members.Keys);
      IncreasingDistinct(keys);
      ReplayKeys(before, after, keys, before);
      CleanObjects(Replay(before, Diff(before, after)), after);
    } else {
      SameValueIffEqual(before, after);
    }
  }

  // ----- Dotted paths -----

  const DOT: CodeUnit := '.' as int

  /** How the recursion grows its prefix. */
  function Extend(prefix: Text, key: Text): Text {
    if prefix == [] then key else prefix + [DOT] + key
  }

  function DottedFrom(prefix: Text, path: seq<Text>): Text
    decreases |path|
  {
    if path == [] then prefix else DottedFrom(Extend(prefix, path[0]), path[1..])
  }

  predicate Plain(key: Text) {
    key != [] && DOT !in key
  }

  predicate PlainPath(path: seq<Text>) {
    forall i :: 0 <= i < |path| ==> Plain(path[i])
  }

  /** The keys joined by dots. */
  function Dotted(path: seq<Text>): Text {
    if path == [] then [] else if |path| == 1 then path[0] else path[0] + [DOT] + Dotted(path[1..])
  }

  lemma {:induction false} DottedFromPrefix(prefix: Text, path: seq<Text>)
    requires prefix != []
    ensures DottedFrom(prefix, path) == if path == [] then prefix else prefix + [DOT] + Dotted(path)
    decreases |path|
  {
    if path != [] {
      DottedFromPrefix(Extend(prefix, path[0]), path[1..]);
    }
  }

  lemma DottedFromRoot(path: seq<Text>)
    requires PlainPath(path)
    ensures DottedFrom([], path) == Dotted(path)
  {
    if path != [] {
      DottedFromPrefix(path[0], path[1..]);
    }
  }

  lemma PlainNotLonger(a: Text, s: Text, b: Text, t: Text)
    requires Plain(b) && (s == [] || s[0] == DOT) && a + s == b + t
    ensures |b| <= |a|
  {
    assert forall i :: 0 <= i < |b| ==> (a + s)[i] == b[i];
    assert s != [] ==> (a + s)[|a|] == DOT;
  }

  lemma PlainHead(a: Text, s: Text, b: Text, t: Text)
    requires Plain(a) && Plain(b)
    requires s == [] || s[0] == DOT
    requires t == [] || t[0] == DOT
    requires a + s == b + t
    ensures a == b && s == t
  {
    PlainNotLonger(a, s, b, t);
    PlainNotLonger(b, t, a, s);
    assert (a + s)[..|a|] == a && (b + t)[..|b|] == b;
    assert (a + s)[|a|..] == s && (b + t)[|b|..] == t;
  }

  /** What follows the first key of a dotted path. */
  function Tail(path: seq<Text>): Text
    requires path != []
  {
    if |path| == 1 then [] else [DOT] + Dotted(path[1..])
  }

  lemma DottedHead(path: seq<Text>)
    requires path != []
    ensures Dotted(path) == path[0] + Tail(path)
  {
    assert path[0] + [] == path[0];
  }

  lemma TailSplits(path: seq<Text>)
    requires path != []
    ensures |path| == 1 ==> Tail(path) == []
    ensures |path| > 1 ==> Tail(path) != [] && Tail(path)[0] == DOT && Tail(path)[1..] == Dotted(path[1..])
  {
    hide Dotted;
  }

  /** Over keys that are non-empty and free of dots, the dotted path names one path only. */
  lemma {:induction false} DottedInjective(p: seq<Text>, q: seq<Text>)
    requires PlainPath(p) && PlainPath(q) && Dotted(p) == Dotted(q)
    ensures p == q
    decreases |p|
  {
    if p != [] && q != [] {
      hide Dotted, Tail;
      DottedHead(p);
      DottedHead(q);
      TailSplits(p);
      TailSplits(q);
      PlainHead(p[0], Tail(p), q[0], Tail(q));
      if |p| > 1 {
        DottedInjective(p[1..], q[1..]);
      }
      assert p == [p[0]] + p[1..] && q == [q[0]] + q[1..];
    }
  }

  // ----- The recursion as the code runs it -----

  datatype FieldDiff = FieldDiff(path: Text, before: Doc, after: Doc)

  ghost function Rendered(prefix: Text, changes: seq<Change>): (r: seq<FieldDiff>) {
    seq(|changes|, i requires 0 <= i < |changes| =>
      FieldDiff(DottedFrom(prefix, changes[i].path), changes[i].before, changes[i].after))
  }

  lemma RenderedUnder(prefix: Text, key: Text, changes: seq<Change>)
    ensures Rendered(prefix, Under(key, changes)) == Rendered(Extend(prefix, key), changes)
  {
    forall i | 0 <= i < |changes|
      ensures DottedFrom(prefix, [key] + changes[i].path) == DottedFrom(Extend(prefix, key), changes[i].path)
    {
      assert ([key] + changes[i].path)[1..] == changes[i].path;
    }
  }

  method SortSet(keys: set<Text>) returns (r: seq<Text>)
    ensures r == SortedKeys(keys)
  {
    r := [];
    var left := keys;
    while left != {}
      invariant left <= keys && Increasing(r)
      invariant forall k :: k in r <==> k in keys && k !in left
      decreases left
    {
      var k :| k in left;
      InsertIncreasing(k, r);
      r := Insert(k, r);
      left := left - {k};
    }
    SortedKeysIncreasing(keys);
    IncreasingUnique(r, SortedKeys(keys));
  }

  lemma DiffMemberIsDiff(before: Doc, after: Doc, key: Text)
    requires before.Obj? && after.Obj?
    ensures DiffMember(before, after, key) == Diff(Get(before, key), Get(after, key))
  {
  }

  lemma RenderedJoins(prefix: Text, a: seq<Change>, b: seq<Change>)
    ensures Rendered(prefix, a + b) == Rendered(prefix, a) + Rendered(prefix, b)
  {
  }

  lemma NoKeysLeft(prefix: Text, before: Doc, after: Doc)
    requires before.Obj? && after.Obj?
    ensures Rendered(prefix, DiffKeys(before, after, [])) == []
  {
  }

  /** One turn of the loop takes one key's changes off the front of what is left. */
  lemma NextKey(prefix: Text, before: Doc, after: Doc, keys: seq<Text>, i: nat)
    requires before.Obj? && after.Obj? && i < |keys|
    ensures Rendered(prefix, DiffKeys(before, after, keys[i..]))
         == Rendered(Extend(prefix, keys[i]), Diff(Get(before, keys[i]), Get(after, keys[i])))
            + Rendered(prefix, DiffKeys(before, after, keys[i + 1..]))
  {
    var changes := DiffMember(before, after, keys[i]);
    assert keys[i..][1..] == keys[i + 1..];
    assert DiffKeys(before, after, keys[i..]) == Under(keys[i], changes) + DiffKeys(before, after, keys[i + 1..]);
    hide DiffKeys, DiffMember, Diff, Rendered, Under;
    DiffMemberIsDiff(before, after, keys[i]);
    RenderedJoins(prefix, Under(keys[i], changes), DiffKeys(before, after, keys[i + 1..]));
    RenderedUnder(prefix, keys[i], changes);
  }

  lemma DiffOfObjects(before: Doc, after: Doc)
    requires before.Obj? && after.Obj?
    ensures Diff(before, after) == DiffKeys(before, after, SortedKeys(before.members.Keys + after.members.Keys))
  {
  }

  method DiffPaths(before: Doc, after: Doc, prefix: Text) returns (diffs: seq<FieldDiff>)
    ensures diffs == Rendered(prefix, Diff(before, after))
    decreases before != Undefined, before, if before.Obj? && after.Obj? then 1 else 3
  {
    if before.Obj? && after.Obj? {
      diffs := DiffObjects(before, after, prefix);
    } else {
      var same := IsSameValue(before, after);
      diffs := if same then [] else [FieldDiff(prefix, before, after)];
    }
  }

  /** The branch of the recursion that walks the keys of two objects. */
  method DiffObjects(before: Doc, after: Doc, prefix: Text) returns (diffs: seq<FieldDiff>)
    requires before.Obj? && after.Obj?
    ensures diffs == Rendered(prefix, Diff(before, after))
    decreases before != Undefined, before, 0
  {
    hide Diff, DiffKeys, Rendered;
    var keys := SortSet(before.members.Keys + after.members.Keys);
    DiffOfObjects(before, after);
    diffs := [];
    var i := 0;
    assert keys[0..] == keys;
    while i < |keys|
      invariant i <= |keys|
      invariant diffs + Rendered(prefix, DiffKeys(before, after, keys[i..])) == Rendered(prefix, Diff(before, after))
    {
      NextKey(prefix, before, after, keys, i);
      var more := DiffPaths(Get(before, keys[i]), Get(after, keys[i]), Extend(prefix, keys[i]));
      diffs := diffs + more;
      i := i + 1;
    }
    assert keys[i..] == [];
    NoKeysLeft(prefix, before, after);
  }

  method IsSameValue(a: Doc, b: Doc) returns (same: bool)
    ensures same == SameValue(a, b)
    decreases a != Undefined, a, 2
  {
    if a.Arr? && b.Arr? {
      if |a.items| != |b.items| {
        return false;
      }
      var i := 0;
      while i < |a.items|
        invariant i <= |a.items|
        invariant forall j :: 0 <= j < i ==> SameValue(a.items[j], b.items[j])
      {
        var each := IsSameValue(a.items[i], b.items[i]);
        if !each {
          return false;
        }
        i := i + 1;
      }
      return true;
    }
    if a.Obj? && b.Obj? {
      var diffs := DiffPaths(a, b, []);
      return diffs == [];
    }
    return a == b;
  }

  // ----- Nothing is missed -----

  /** Every key on the way to the path's end is asked of two objects. */
  ghost predicate BothReach(before: Doc, after: Doc, path: seq<Text>)
    decreases |path|
  {
    path != [] ==> before.Obj? && after.Obj? && BothReach(Get(before, path[0]), Get(after, path[0]), path[1..])
  }

  /** Nothing is missed: where two documents differ in other than two objects, there is an entry for the path. */
  lemma {:induction false} ChangeReported(before: Doc, after: Doc, path: seq<Text>) returns (i: nat)
    requires BothReach(before, after, path) && Clean(Lookup(before, path)) != Clean(Lookup(after, path))
    requires !(Lookup(before, path).Obj? && Lookup(after, path).Obj?)
    ensures i < |Diff(before, after)| && Diff(before, after)[i].path == path
    decreases |path|
  {
    if path == [] {
      SameValueIffEqual(before, after);
      i := 0;
    } else {
      var key, rest := path[0], path[1..];
      var keys := before.members.Keys + after.members.Keys;
      var j: nat := 0;
      if key in before.members {
        j := ChangeReported(before.members[key], Get(after, key), rest);
      } else {
        assert rest == [];
      }
      assert Get(after, key) != Undefined || key in before.members;
      i := KeyReported(before, after, SortedKeys(keys), key, j);
      assert path == [key] + rest;
    }
  }

  lemma {:induction false} KeyReported(before: Doc, after: Doc, keys: seq<Text>, key: Text, j: nat) returns (i: nat)
    requires before.Obj? && after.Obj? && key in keys && j < |DiffMember(before, after, key)|
    ensures i < |DiffKeys(before, after, keys)|
    ensures DiffKeys(before, after, keys)[i].path == [key] + DiffMember(before, after, key)[j].path
    decreases |keys|
  {
    if keys[0] == key {
      i := j;
    } else {
      i := KeyReported(before, after, keys[1..], key, j);
      i := i + |DiffMember(before, after, keys[0])|;
    }
  }
}
