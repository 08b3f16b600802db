/**
 Structural merge and diff of configuration documents. Arrays are atomic to both.
 */
module Documents {
  import opened Text

  /** A document tree. Members have no order; a member may be present with the value `undefined`. */
  datatype Doc =
    | Undefined
    | Null
    | Bool(b: bool)
    | Num(n: int)
    | Str(s: Text)
    | Date(ms: int)
    | Arr(items: seq<Doc>)
    | Obj(members: map<Text, Doc>)

  /** Reading a member that is not there gives `undefined`. */
  function Get(d: Doc, key: Text): Doc
    requires d.Obj?
  {
    if key in d.members then d.members[key] else Undefined
  }

  // ----- Merge -----

  /** The patch's members over the base's: objects merge, everything else is replaced, `undefined` is skipped. */
  function Merge(base: Doc, patch: Doc): (r: Doc)
    requires base.Obj? && patch.Obj?
    ensures r.Obj?
    decreases patch, 0
  {
    Obj(map key | key in base.members.Keys + patch.members.Keys
        && (key in base.members || patch.members[key] != Undefined) ::
      if key in patch.members && patch.members[key] != Undefined then MergeMember(Get(base, key), patch.members[key])
      else base.members[key])
  }

  function MergeMember(was: Doc, patch: Doc): (r: Doc)
    decreases patch, 1
  {
    if was.Obj? && patch.Obj? then Merge(was, patch) else patch
  }

  method DeepMerge(base: Doc, patch: Doc) returns (output: Doc)
    requires base.Obj? && patch.Obj?
    ensures output == Merge(base, patch)
    decreases patch
  {
    hide Merge, MergeMember;
    var members := base.members;
    var keys := patch.members.Keys;
    while keys != {}
      invariant keys <= patch.members.Keys
      invariant members.Keys
          == base.members.Keys + (set key | key in patch.members && key !in keys && patch.members[key] != Undefined)
      invariant forall key :: key in members ==>
        members[key] == if key in patch.members && key !in keys && patch.members[key] != Undefined
                        then MergeMember(Get(base, key), patch.members[key]) else base.members[key]
      decreases keys
    {
      var key :| key in keys;
      keys := keys - {key};
      var patchValue := patch.members[key];
      if patchValue == Undefined {
        continue;
      }
      MemberMerged(Get(base, key), patchValue);
      var baseValue := if key in members then members[key] else Undefined;
      if baseValue.Obj? && patchValue.Obj? {
        var merged := DeepMerge(baseValue, patchValue);
        members := members[key := merged];
      } else {
        members := members[key := patchValue];
      }
    }
    MembersAreMerge(base, patch, members);
    output := Obj(members);
  }

  lemma {:induction false} MembersAreMerge(base: Doc, patch: Doc, members: map<Text, Doc>)
    requires base.Obj? && patch.Obj?
    requires members.Keys == base.members.Keys + (set key | key in patch.members && patch.members[key] != Undefined)
    requires forall key :: key in members ==>
        members[key] == if key in patch.members && patch.members[key] != Undefined
                        then MergeMember(Get(base, key), patch.members[key]) else base.members[key]
    ensures Obj(members) == Merge(base, patch)
  {
    hide MergeMember;
    var merged := Merge(base, patch).members;
    assert members.Keys == merged.Keys;
    assert forall key | key in members :: members[key] == merged[key];
  }

  lemma {:induction false} MemberMerged(was: Doc, patch: Doc)
    ensures MergeMember(was, patch) == if was.Obj? && patch.Obj? then Merge(was, patch) else patch
  {
  }

  /** What a member of the merge is, read through `Get`. */
  lemma MergedMember(base: Doc, patch: Doc, key: Text)
    requires base.Obj? && patch.Obj?
    ensures Get(Merge(base, patch), key)
         == if Get(patch, key) == Undefined then Get(base, key) else MergeMember(Get(base, key), Get(patch, key))
    ensures key in Merge(base, patch).members <==> key in base.members || Get(patch, key) != Undefined
  {
  }

  /** Two objects with the same keys and the same readings are the same. */
  lemma SameMembers(a: Doc, b: Doc)
    requires a.Obj? && b.Obj?
    requires forall key :: key in a.members <==> key in b.members
    requires forall key :: Get(a, key) == Get(b, key)
    ensures a == b
  {
    forall key | key in a.members
      ensures a.members[key] == b.members[key]
    {
      assert Get(a, key) == Get(b, key);
    }
    assert a.members == b.members;
  }

  lemma {:induction false} MergeSelf(d: Doc)
    requires d.Obj?
    ensures Merge(d, d) == d
    decreases d
  {
    forall key
      ensures Get(Merge(d, d), key) == Get(d, key)
      ensures key in Merge(d, d).members <==> key in d.members
    {
      MergedMember(d, d, key);
      if Get(d, key).Obj? {
        MergeSelf(Get(d, key));
      }
    }
    SameMembers(Merge(d, d), d);
  }

  /** Merging the same defaults beneath a document twice is merging them once. */
  lemma {:induction false} MergeIdempotent(base: Doc, d: Doc)
    requires base.Obj? && d.Obj?
    ensures Merge(base, Merge(base, d)) == Merge(base, d)
    decreases base
  {
    var m := Merge(base, d);
    forall key
      ensures Get(Merge(base, m), key) == Get(m, key)
      ensures key in Merge(base, m).members <==> key in m.members
    {
      MergedMember(base, m, key);
      MergedMember(base, d, key);
      var was, now := Get(base, key), Get(d, key);
      if was.Obj? {
        if now == Undefined {
          MergeSelf(was);
        } else if now.Obj? {
          MergeIdempotent(was, now);
        }
      }
    }
    SameMembers(Merge(base, m), m);
  }

  // ----- Paths -----

  /** The value at a path of keys; `undefined` when the path leads nowhere. */
  function Lookup(d: Doc, path: seq<Text>): Doc
    decreases |path|
  {
    if path == [] then d
    else if d.Obj? then Lookup(Get(d, path[0]), path[1..])
    else Undefined
  }

  predicate IsLeaf(d: Doc) {
    d != Undefined && !d.Obj?
  }

  /** Every leaf of the patch is in the merge, where it was. */
  lemma {:induction false} PatchLeafSurvives(base: Doc, patch: Doc, path: seq<Text>)
    requires base.Obj? && patch.Obj? && IsLeaf(Lookup(patch, path))
    ensures Lookup(Merge(base, patch), path) == Lookup(patch, path)
    decreases |path|
  {
    var was, now := Get(base, path[0]), Get(patch, path[0]);
    MergedMember(base, patch, path[0]);
    assert now != Undefined by {
      UndefinedLeadsNowhere(path[1..]);
    }
    if was.Obj? && now.Obj? {
      PatchLeafSurvives(was, now, path[1..]);
    }
  }

  lemma UndefinedLeadsNowhere(path: seq<Text>)
    ensures Lookup(Undefined, path) == Undefined
  {
  }

  /** Every leaf of the base that the patch does not reach, or reach past, is in the merge too. */
  lemma {:induction false} BaseLeafSurvives(base: Doc, patch: Doc, path: seq<Text>)
    requires base.Obj? && patch.Obj? && IsLeaf(Lookup(base, path))
    requires forall n :: 0 <= n <= |path| ==> !IsLeaf(Lookup(patch, path[..n]))
    requires !Lookup(patch, path).Obj?
    ensures Lookup(Merge(base, patch), path) == Lookup(base, path)
    decreases |path|
  {
    var was, now := Get(base, path[0]), Get(patch, path[0]);
    MergedMember(base, patch, path[0]);
    UndefinedLeadsNowhere(path[1..]);
    if now != Undefined {
      assert path[..1] == [path[0]] && Lookup(patch, path[..1]) == Lookup(now, []) == now;
      assert now.Obj?;
      if was.Obj? {
        forall n | 0 <= n <= |path[1..]|
          ensures !IsLeaf(Lookup(now, path[1..][..n]))
        {
          assert path[..n + 1][1..] == path[1..][..n];
          assert Lookup(patch, path[..n + 1]) == Lookup(now, path[1..][..n]);
        }
        BaseLeafSurvives(was, now, path[1..]);
      }
    }
  }
}
