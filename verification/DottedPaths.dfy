/**
 Which fields of a diff can share a dotted path: exactly what two keys of one object, side by side, have to be for
 it, and that documents with no such keys never have it happen.
 */
module DottedPaths {
  import opened Text
  import opened Documents
  import opened DocumentDiff
  import opened DocumentReplay

  // ----- Two keys side by side -----

  /** One key goes on where the other, followed by a dot, ends. */
  predicate Continues(k: Text, l: Text) {
    |k| < |l| && l[..|k|] == k && l[|k|] == DOT
  }

  /** Paths through the two keys can read alike: one continues the other, or is empty where nothing comes before it. */
  predicate Clash(prefix: Text, k: Text, l: Text) {
    Continues(k, l) || Continues(l, k) || (prefix == [] && (k == [] || l == []))
  }

  /** What a path adds to a prefix that is there already. */
  function Suffix(path: seq<Text>): Text {
    if path == [] then [] else [DOT] + path[0] + Suffix(path[1..])
  }

  lemma {:induction false} DottedAdds(prefix: Text, path: seq<Text>)
    requires prefix != []
    ensures DottedFrom(prefix, path) == prefix + Suffix(path)
    decreases |path|
  {
    if path != [] {
      DottedAdds(Extend(prefix, path[0]), path[1..]);
    }
  }

  lemma DottedStep(prefix: Text, key: Text, path: seq<Text>)
    ensures DottedFrom(prefix, [key] + path) == DottedFrom(Extend(prefix, key), path)
  {
    assert ([key] + path)[1..] == path;
  }

  lemma {:induction false} DottedJoins(prefix: Text, front: seq<Text>, rest: seq<Text>)
    ensures DottedFrom(prefix, front + rest) == DottedFrom(DottedFrom(prefix, front), rest)
    decreases |front|
  {
    if front == [] {
      assert front + rest == rest;
    } else {
      assert (front + rest)[1..] == front[1..] + rest;
      DottedJoins(Extend(prefix, front[0]), front[1..], rest);
    }
  }

  /** Different keys that read alike with what follows them: the longer continues the shorter. */
  lemma AlikeContinues(k: Text, s: Text, l: Text, t: Text)
    requires k != l && |k| <= |l| && k + s == l + t
    requires s == [] || s[0] == DOT
    ensures Continues(k, l)
  {
    assert (k + s)[..|k|] == k && (l + t)[..|k|] == l[..|k|] && (l + t)[..|l|] == l;
    assert |k| < |l| ==> (k + s)[|k|] == s[0] && (l + t)[|k|] == l[|k|];
  }

  lemma SuffixStarts(path: seq<Text>)
    ensures Suffix(path) == [] || Suffix(path)[0] == DOT
  {
  }

  lemma AlikeClash(prefix: Text, k: Text, p: seq<Text>, l: Text, q: seq<Text>)
    requires k != l && DottedFrom(prefix, [k] + p) == DottedFrom(prefix, [l] + q)
    ensures Clash(prefix, k, l)
  {
    hide DottedFrom, Continues;
    DottedStep(prefix, k, p);
    DottedStep(prefix, l, q);
    if prefix != [] || (k != [] && l != []) {
      DottedAdds(Extend(prefix, k), p);
      DottedAdds(Extend(prefix, l), q);
      SuffixStarts(p);
      SuffixStarts(q);
      var front := if prefix == [] then [] else prefix + [DOT];
      assert Extend(prefix, k) == front + k && Extend(prefix, l) == front + l;
      assert front + k + Suffix(p) == front + (k + Suffix(p)) && front + l + Suffix(q) == front + (l + Suffix(q));
      SameFront(front, k + Suffix(p), l + Suffix(q));
      if |k| <= |l| {
        AlikeContinues(k, Suffix(p), l, Suffix(q));
      } else {
        AlikeContinues(l, Suffix(q), k, Suffix(p));
      }
    }
  }

  lemma SameFront(front: Text, s: Text, t: Text)
    requires front + s == front + t
    ensures s == t
  {
    assert (front + s)[|front|..] == s && (front + t)[|front|..] == t;
  }

  /** Paths through clashing keys that read alike, with no empty key but the clashing one. */
  lemma ClashAlike(prefix: Text, k: Text, l: Text) returns (p: seq<Text>, q: seq<Text>)
    requires k != l && Clash(prefix, k, l)
    ensures DottedFrom(prefix, [k] + p) == DottedFrom(prefix, [l] + q)
    ensures [] !in p && [] !in q
  {
    if prefix == [] && k == [] {
      p, q := [l], [];
      EmptyAlike(l);
    } else if prefix == [] && l == [] {
      p, q := [], [k];
      EmptyAlike(k);
    } else if Continues(k, l) {
      p, q := ContinuedAlike(prefix, k, l);
    } else {
      q, p := ContinuedAlike(prefix, l, k);
    }
  }

  /** At the root an empty key leaves no trace. */
  lemma EmptyAlike(l: Text)
    ensures DottedFrom([], [[]] + [l]) == DottedFrom([], [l] + [])
  {
    DottedStep([], [], [l]);
    assert Extend([], []) == [] && [l] + [] == [l];
  }

  lemma ContinuedAlike(prefix: Text, k: Text, l: Text) returns (p: seq<Text>, q: seq<Text>)
    requires Continues(k, l) && (prefix != [] || k != [])
    ensures DottedFrom(prefix, [k] + p) == DottedFrom(prefix, [l] + q)
    ensures [] !in p && [] !in q
  {
    hide DottedFrom, Suffix;
    var x: Text := ['x' as int];
    var rest := l[|k| + 1..];
    p, q := [rest + [DOT] + x], [x];
    DottedStep(prefix, k, p);
    DottedStep(prefix, l, q);
    DottedAdds(Extend(prefix, k), p);
    DottedAdds(Extend(prefix, l), q);
    OneSuffix(rest + [DOT] + x);
    OneSuffix(x);
    ExtendContinued(prefix, k, l, rest);
    Regroup(Extend(prefix, k), rest, x);
  }

  lemma ExtendContinued(prefix: Text, k: Text, l: Text, rest: Text)
    requires Continues(k, l) && (prefix != [] || k != []) && rest == l[|k| + 1..]
    ensures Extend(prefix, l) == Extend(prefix, k) + [DOT] + rest
  {
    assert l == k + [DOT] + rest;
  }

  lemma Regroup(front: Text, rest: Text, x: Text)
    ensures front + ([DOT] + (rest + [DOT] + x)) == front + [DOT] + rest + ([DOT] + x)
  {
  }

  lemma OneSuffix(key: Text)
    ensures Suffix([key]) == [DOT] + key
  {
    assert Suffix([key]) == [DOT] + key + Suffix([]);
  }

  /** Two keys of one object can give two fields one dotted path exactly when they clash. */
  lemma SiblingsClashExactly(prefix: Text, k: Text, l: Text)
    requires k != l
    ensures Clash(prefix, k, l) <==> exists p, q :: DottedFrom(prefix, [k] + p) == DottedFrom(prefix, [l] + q)
  {
    hide DottedFrom, Clash;
    if Clash(prefix, k, l) {
      var p, q := ClashAlike(prefix, k, l);
    }
    forall p, q | DottedFrom(prefix, [k] + p) == DottedFrom(prefix, [l] + q)
      ensures Clash(prefix, k, l)
    {
      AlikeClash(prefix, k, p, l, q);
    }
  }

  // ----- Documents -----

  /** Wherever the diff compares two objects, no two of their keys clash. */
  ghost predicate Separable(before: Doc, after: Doc, prefix: Text)
    decreases before
  {
    before.Obj? && after.Obj? ==>
      && (forall k, l | k in before.members.Keys + after.members.Keys && l in before.members.Keys + after.members.Keys
            && k != l :: !Clash(prefix, k, l))
      && (forall k | k in before.members && k in after.members ::
            Separable(before.members[k], after.members[k], Extend(prefix, k)))
  }

  /** Every key of the path is a key of one of two objects. */
  ghost predicate Leads(before: Doc, after: Doc, path: seq<Text>)
    decreases |path|
  {
    path != [] ==>
      && before.Obj? && after.Obj? && (path[0] in before.members || path[0] in after.members)
      && Leads(Get(before, path[0]), Get(after, path[0]), path[1..])
  }

  lemma {:induction false} ChangeLeads(before: Doc, after: Doc, i: nat)
    requires i < |Diff(before, after)|
    ensures Leads(before, after, Diff(before, after)[i].path)
    decreases before, 3, 0
  {
    if before.Obj? && after.Obj? {
      KeyChangeLeads(before, after, SortedKeys(before.members.Keys + after.members.Keys), i);
    }
  }

  lemma {:induction false} KeyChangeLeads(before: Doc, after: Doc, keys: seq<Text>, i: nat)
    requires before.Obj? && after.Obj? && i < |DiffKeys(before, after, keys)|
    requires forall key | key in keys :: key in before.members || key in after.members
    ensures Leads(before, after, DiffKeys(before, after, keys)[i].path)
    decreases before, 1, |keys|
  {
    var key, first := keys[0], DiffMember(before, after, keys[0]);
    if i < |first| {
      if key in before.members {
        ChangeLeads(before.members[key], Get(after, key), i);
      }
      assert Leads(Get(before, key), Get(after, key), first[i].path);
      assert DiffKeys(before, after, keys)[i].path == [key] + first[i].path;
      assert ([key] + first[i].path)[1..] == first[i].path;
    } else {
      KeyChangeLeads(before, after, keys[1..], i - |first|);
    }
  }

  lemma {:induction false} PathsDiffer(before: Doc, after: Doc, prefix: Text, p: seq<Text>, q: seq<Text>)
    requires Separable(before, after, prefix) && Leads(before, after, p) && Leads(before, after, q) && Apart(p, q)
    ensures DottedFrom(prefix, p) != DottedFrom(prefix, q)
    decreases |p|
  {
    hide DottedFrom, Clash;
    var k, l := p[0], q[0];
    assert p == [k] + p[1..] && q == [l] + q[1..];
    if k != l {
      assert !Clash(prefix, k, l);
      if DottedFrom(prefix, p) == DottedFrom(prefix, q) {
        AlikeClash(prefix, k, p[1..], l, q[1..]);
      }
    } else {
      DottedStep(prefix, k, p[1..]);
      DottedStep(prefix, k, q[1..]);
      RestApart(p, q);
      assert k in before.members && k in after.members;
      PathsDiffer(before.members[k], after.members[k], Extend(prefix, k), p[1..], q[1..]);
    }
  }

  lemma RestApart(p: seq<Text>, q: seq<Text>)
    requires Apart(p, q) && p[0] == q[0]
    ensures p[1..] != [] && q[1..] != [] && Apart(p[1..], q[1..])
  {
    var n :| 0 <= n < |p| && n < |q| && p[n] != q[n];
    assert p[1..][n - 1] != q[1..][n - 1];
  }

  /** Of documents no two of whose keys clash, a diff never reports two fields under one dotted path. */
  lemma ReportedPathsDistinct(before: Doc, after: Doc, prefix: Text)
    requires Separable(before, after, prefix)
    ensures var diffs := Rendered(prefix, Diff(before, after));
            forall i, j | 0 <= i < j < |diffs| :: diffs[i].path != diffs[j].path
  {
    hide Separable, Diff, DottedFrom, Leads;
    var changes := Diff(before, after);
    ChangesApart(before, after);
    forall i, j | 0 <= i < j < |changes|
      ensures DottedFrom(prefix, changes[i].path) != DottedFrom(prefix, changes[j].path)
    {
      ChangeLeads(before, after, i);
      ChangeLeads(before, after, j);
      assert Apart(changes[i].path, changes[j].path);
      PathsDiffer(before, after, prefix, changes[i].path, changes[j].path);
    }
  }

  // ----- Clashing keys do collide -----

  /** A document that is nothing but `d` at a path. */
  function Nest(path: seq<Text>, d: Doc): Doc {
    if path == [] then d else Obj(map[path[0] := Nest(path[1..], d)])
  }

  /** An object of two keys, that holds `v` at a path through each. */
  function Fork(k: Text, p: seq<Text>, l: Text, q: seq<Text>, v: int): Doc {
    Obj(map[k := Nest(p, Num(v)), l := Nest(q, Num(v))])
  }

  lemma {:induction false} NestLooked(path: seq<Text>, d: Doc, e: Doc, rest: seq<Text>)
    ensures Lookup(Nest(path, d), path + rest) == Lookup(d, rest)
    ensures BothReach(d, e, rest) ==> BothReach(Nest(path, d), Nest(path, e), path + rest)
    decreases |path|
  {
    if path == [] {
      assert path + rest == rest;
    } else {
      assert (path + rest)[1..] == path[1..] + rest;
      NestLooked(path[1..], d, e, rest);
    }
  }

  lemma ForkLooked(k: Text, p: seq<Text>, l: Text, q: seq<Text>)
    requires k != l
    ensures forall v :: Lookup(Fork(k, p, l, q, v), [k] + p) == Lookup(Fork(k, p, l, q, v), [l] + q) == Num(v)
    ensures BothReach(Fork(k, p, l, q, 1), Fork(k, p, l, q, 2), [k] + p)
    ensures BothReach(Fork(k, p, l, q, 1), Fork(k, p, l, q, 2), [l] + q)
  {
    assert ([k] + p)[1..] == p && ([l] + q)[1..] == q && p + [] == p && q + [] == q;
    forall v
      ensures Lookup(Fork(k, p, l, q, v), [k] + p) == Num(v) && Lookup(Fork(k, p, l, q, v), [l] + q) == Num(v)
    {
      NestLooked(p, Num(v), Num(v), []);
      NestLooked(q, Num(v), Num(v), []);
    }
    NestLooked(p, Num(1), Num(2), []);
    NestLooked(q, Num(1), Num(2), []);
  }

  lemma ForkReported(front: seq<Text>, k: Text, p: seq<Text>, l: Text, q: seq<Text>) returns (i: nat, j: nat)
    requires k != l
    ensures var changes := Diff(Nest(front, Fork(k, p, l, q, 1)), Nest(front, Fork(k, p, l, q, 2)));
            && i < |changes| && j < |changes| && i != j
            && changes[i].path == front + ([k] + p) && changes[j].path == front + ([l] + q)
  {
    hide Diff, Fork, Nest, Lookup, BothReach;
    var d, e := Fork(k, p, l, q, 1), Fork(k, p, l, q, 2);
    ForkLooked(k, p, l, q);
    NestLooked(front, d, e, [k] + p);
    NestLooked(front, e, d, [k] + p);
    NestLooked(front, d, e, [l] + q);
    NestLooked(front, e, d, [l] + q);
    assert Clean(Num(1)) != Clean(Num(2));
    i := ChangeReported(Nest(front, d), Nest(front, e), front + ([k] + p));
    j := ChangeReported(Nest(front, d), Nest(front, e), front + ([l] + q));
    assert (front + ([k] + p))[|front|] == k && (front + ([l] + q))[|front|] == l;
  }

  /**
   Any two keys that clash, side by side at any depth, do it: there are documents of these keys alone whose diff
   reports one dotted path twice, whatever stands before the dot, after it, or in place of an empty key.
   */
  lemma ReportedPathsCollide(front: seq<Text>, k: Text, l: Text)
    returns (before: Doc, after: Doc, i: nat, j: nat)
    requires k != l && Clash(DottedFrom([], front), k, l)
    ensures Lookup(before, front).Obj? && Lookup(before, front).members.Keys == {k, l}
    ensures Lookup(after, front).Obj? && Lookup(after, front).members.Keys == {k, l}
    ensures var diffs := Rendered([], Diff(before, after));
            i < |diffs| && j < |diffs| && i != j && diffs[i].path == diffs[j].path
  {
    hide Diff, DottedFrom, Clash, Nest;
    var p, q := ClashAlike(DottedFrom([], front), k, l);
    var d, e := Fork(k, p, l, q, 1), Fork(k, p, l, q, 2);
    before, after := Nest(front, d), Nest(front, e);
    i, j := ForkReported(front, k, p, l, q);
    DottedJoins([], front, [k] + p);
    DottedJoins([], front, [l] + q);
    NestLooked(front, d, e, []);
    NestLooked(front, e, d, []);
    assert front + [] == front;
  }
}
