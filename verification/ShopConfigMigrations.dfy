/**
 In-code migrations of a shop's stored configuration document, up to the schema
 parse. The current defaults are a parameter.
 */
module ShopConfigMigrations {
  import opened Text
  import opened Documents

  function Ascii(s: string): (r: Text)
    ensures |r| == |s|
  {
    seq(|s|, i requires 0 <= i < |s| => s[i] as int % 0x80)
  }

  const CONFIG_VERSION: Text := Ascii("configVersion")
  const LADDERS: Text := Ascii("ladders")
  const RUNGS: Text := Ascii("rungs")
  const CHANNEL: Text := Ascii("channel")
  const TYPE: Text := Ascii("type")
  const WHATSAPP := Ascii("WHATSAPP")
  const SMS := Ascii("SMS")
  const VOICE := Ascii("VOICE")
  const VOICE_OR_ADVISOR := Ascii("VOICE_OR_ADVISOR")
  const HUMAN := Ascii("HUMAN")
  const SHOP_CONFIG_VERSION := 7

  // ----- The rung rewrite -----

  function LegacyType(channel: Doc): Text {
    if channel == Str(WHATSAPP) then WHATSAPP
    else if channel == Str(SMS) then SMS
    else if channel == Str(VOICE) then VOICE_OR_ADVISOR
    else HUMAN
  }

  function RetypeRung(rung: Doc): Doc {
    if !rung.Obj? then rung
    else
      var rest := rung.members - {CHANNEL};
      if Get(Obj(rest), TYPE).Str? then Obj(rest)
      else Obj(rest[TYPE := Str(LegacyType(Get(rung, CHANNEL)))])
  }

  function RetypeRungs(rungs: seq<Doc>): seq<Doc> {
    seq(|rungs|, i requires 0 <= i < |rungs| => RetypeRung(rungs[i]))
  }

  function RetypeLadder(ladder: Doc): Doc {
    if !ladder.Obj? || !Get(ladder, RUNGS).Arr? then ladder
    else Obj(ladder.members[RUNGS := Arr(RetypeRungs(Get(ladder, RUNGS).items))])
  }

  function RetypeLadders(ladders: Doc): (r: Doc)
    requires ladders.Obj?
    ensures r.Obj?
  {
    Obj(map objective | objective in ladders.members :: RetypeLadder(ladders.members[objective]))
  }

  function RungTypes(document: Doc): (r: Doc)
    requires document.Obj?
    ensures r.Obj?
  {
    if Get(document, LADDERS).Obj? then
      Obj(document.members[LADDERS := RetypeLadders(Get(document, LADDERS))])
    else document
  }

  method WithRungTypes(document: Doc) returns (r: Doc)
    requires document.Obj?
    ensures r == RungTypes(document)
  {
    var ladders := Get(document, LADDERS);
    if !ladders.Obj? {
      return document;
    }
    var migrated: map<Text, Doc> := map[];
    var keys := ladders.members.Keys;
    while keys != {}
      invariant keys <= ladders.members.Keys
      invariant migrated.Keys == ladders.members.Keys - keys
      invariant forall objective :: objective in migrated ==>
          migrated[objective] == RetypeLadder(ladders.members[objective])
      decreases keys
    {
      var objective :| objective in keys;
      keys := keys - {objective};
      migrated := migrated[objective := RetypeLadder(ladders.members[objective])];
    }
    assert migrated == RetypeLadders(ladders).members;
    r := Obj(document.members[LADDERS := Obj(migrated)]);
  }

  /** What a rung without a type becomes: its channel as a type, with a person where that is none of the four. */
  ghost predicate TypedByChannel(channel: Doc, typed: Doc) {
    && (channel == Str(WHATSAPP) ==> typed == Str(WHATSAPP))
    && (channel == Str(SMS) ==> typed == Str(SMS))
    && (channel == Str(VOICE) ==> typed == Str(VOICE_OR_ADVISOR))
    && (channel == Str(HUMAN) ==> typed == Str(HUMAN))
    && (channel !in {Str(WHATSAPP), Str(SMS), Str(VOICE)} ==> typed == Str(HUMAN))
  }

  /** A rung as stored and as it is now: a type and no channel, and everything else as it was. */
  ghost predicate RungKept(was: Doc, now: Doc) {
    if !was.Obj? then now == was
    else
      && now.Obj? && CHANNEL !in now.members
      && (forall key | key != CHANNEL && key != TYPE ::
            (key in now.members <==> key in was.members) && Get(now, key) == Get(was, key))
      && (if Get(was, TYPE).Str? then Get(now, TYPE) == Get(was, TYPE)
          else TypedByChannel(Get(was, CHANNEL), Get(now, TYPE)))
  }

  lemma ChannelNames()
    ensures WHATSAPP != SMS && VOICE != WHATSAPP && VOICE != SMS && HUMAN != WHATSAPP && HUMAN != SMS
    ensures HUMAN != VOICE && CHANNEL != TYPE
  {
    assert |WHATSAPP| != |SMS| && |VOICE| != |WHATSAPP| && |VOICE| != |SMS| && |HUMAN| != |WHATSAPP|;
    assert |HUMAN| != |SMS| && |CHANNEL| != |TYPE|;
    assert HUMAN[0] != VOICE[0];
  }

  /** A rewritten rung has a type and no channel, and keeps everything else it had; rewriting again changes nothing. */
  lemma RetypeRungKeeps(rung: Doc)
    ensures RungKept(rung, RetypeRung(rung)) && RetypeRung(RetypeRung(rung)) == RetypeRung(rung)
  {
    ChannelNames();
    if rung.Obj? {
      var r := RetypeRung(rung);
      assert r.members - {CHANNEL} == r.members;
    }
  }

  /** Defaults written for the current version: every rung already has a type and no channel. */
  predicate RungTyped(rung: Doc) {
    rung.Obj? ==> Get(rung, TYPE).Str? && CHANNEL !in rung.members
  }

  ghost predicate LadderTyped(ladder: Doc) {
    ladder.Obj? && Get(ladder, RUNGS).Arr? ==> forall rung :: rung in Get(ladder, RUNGS).items ==> RungTyped(rung)
  }

  ghost predicate CurrentDefaults(d: Doc) {
    d.Obj? && (Get(d, LADDERS).Obj? ==> forall o :: LadderTyped(Get(Get(d, LADDERS), o)))
  }

  lemma TypedLadderFixed(ladder: Doc)
    requires LadderTyped(ladder)
    ensures RetypeLadder(ladder) == ladder
  {
    if ladder.Obj? && Get(ladder, RUNGS).Arr? {
      var rungs := Get(ladder, RUNGS).items;
      forall i | 0 <= i < |rungs|
        ensures RetypeRung(rungs[i]) == rungs[i]
      {
        assert rungs[i] in rungs;
        if rungs[i].Obj? {
          assert rungs[i].members - {CHANNEL} == rungs[i].members;
        }
      }
      assert RetypeRungs(rungs) == rungs;
      assert ladder.members[RUNGS := Arr(rungs)] == ladder.members;
    }
  }

  // ----- The rewrite commutes with merging typed defaults beneath -----

  lemma RetypeLadderReads(ladder: Doc, key: Text)
    requires ladder.Obj?
    ensures RetypeLadder(ladder).Obj?
    ensures key in RetypeLadder(ladder).members <==> key in ladder.members
    ensures Get(RetypeLadder(ladder), key)
         == if key == RUNGS && Get(ladder, RUNGS).Arr? then Arr(RetypeRungs(Get(ladder, RUNGS).items))
             else Get(ladder, key)
  {
  }

  lemma LadderCommutes(base: Doc, ladder: Doc)
    requires base.Obj? && ladder.Obj? && LadderTyped(base)
    ensures RetypeLadder(Merge(base, ladder)) == Merge(base, RetypeLadder(ladder))
  {
    TypedLadderFixed(base);
    var l, r := RetypeLadder(Merge(base, ladder)), Merge(base, RetypeLadder(ladder));
    MergedMember(base, ladder, RUNGS);
    forall key
      ensures key in l.members <==> key in r.members
      ensures Get(l, key) == Get(r, key)
    {
      RetypeLadderReads(Merge(base, ladder), key);
      RetypeLadderReads(ladder, key);
      RetypeLadderReads(base, key);
      MergedMember(base, ladder, key);
      MergedMember(base, RetypeLadder(ladder), key);
    }
    SameMembers(l, r);
  }

  lemma MemberCommutes(base: Doc, ladder: Doc)
    requires LadderTyped(base)
    ensures RetypeLadder(MergeMember(base, ladder)) == MergeMember(base, RetypeLadder(ladder))
  {
    if base.Obj? && ladder.Obj? {
      LadderCommutes(base, ladder);
    }
  }

  lemma LaddersCommute(base: Doc, ladders: Doc)
    requires base.Obj? && ladders.Obj? && forall o :: LadderTyped(Get(base, o))
    ensures RetypeLadders(Merge(base, ladders)) == Merge(base, RetypeLadders(ladders))
  {
    var l, r := RetypeLadders(Merge(base, ladders)), Merge(base, RetypeLadders(ladders));
    forall o
      ensures o in l.members <==> o in r.members
      ensures Get(l, o) == Get(r, o)
    {
      MergedMember(base, ladders, o);
      MergedMember(base, RetypeLadders(ladders), o);
      MemberCommutes(Get(base, o), Get(ladders, o));
      TypedLadderFixed(Get(base, o));
      assert Get(RetypeLadders(ladders), o) == RetypeLadder(Get(ladders, o));
      assert Get(l, o) == RetypeLadder(Get(Merge(base, ladders), o));
    }
    SameMembers(l, r);
  }

  lemma RungTypesReads(document: Doc, key: Text)
    requires document.Obj?
    ensures key in RungTypes(document).members <==> key in document.members
    ensures Get(RungTypes(document), key)
         == if key == LADDERS && Get(document, LADDERS).Obj? then RetypeLadders(Get(document, LADDERS))
             else Get(document, key)
  {
  }

  lemma TypedLaddersFixed(ladders: Doc)
    requires ladders.Obj? && forall o :: LadderTyped(Get(ladders, o))
    ensures RetypeLadders(ladders) == ladders
  {
    forall o
      ensures o in RetypeLadders(ladders).members <==> o in ladders.members
      ensures Get(RetypeLadders(ladders), o) == Get(ladders, o)
    {
      TypedLadderFixed(Get(ladders, o));
    }
    SameMembers(RetypeLadders(ladders), ladders);
  }

  /** Rewriting rungs before or after the defaults go beneath makes no difference. */
  lemma RewriteCommutes(defaults: Doc, document: Doc)
    requires CurrentDefaults(defaults) && document.Obj?
    ensures RungTypes(Merge(defaults, document)) == Merge(defaults, RungTypes(document))
  {
    var l, r := RungTypes(Merge(defaults, document)), Merge(defaults, RungTypes(document));
    var base, own := Get(defaults, LADDERS), Get(document, LADDERS);
    MergedMember(defaults, document, LADDERS);
    if base.Obj? {
      TypedLaddersFixed(base);
      if own.Obj? {
        LaddersCommute(base, own);
      }
    }
    forall key
      ensures key in l.members <==> key in r.members
      ensures Get(l, key) == Get(r, key)
    {
      RungTypesReads(Merge(defaults, document), key);
      RungTypesReads(document, key);
      MergedMember(defaults, document, key);
      MergedMember(defaults, RungTypes(document), key);
    }
    SameMembers(l, r);
  }

  // ----- The loop -----

  function WithVersion(document: Doc, version: int): (r: Doc)
    requires document.Obj?
    ensures r.Obj? && Get(r, CONFIG_VERSION) == Num(version)
  {
    Obj(document.members[CONFIG_VERSION := Num(version)])
  }

  /** The registered step from version `v`, for `v` from 0 to 6. */
  function Step(defaults: Doc, v: int, document: Doc): (r: Doc)
    requires defaults.Obj? && document.Obj? && 0 <= v < SHOP_CONFIG_VERSION
    ensures r.Obj? && Get(r, CONFIG_VERSION) == Num(v + 1)
  {
    WithVersion(Merge(defaults, if v == 2 then RungTypes(document) else document), v + 1)
  }

  datatype Outcome =
    | Migrated(document: Doc, from: int, wasCurrent: bool)
    | WrittenByNewerRelease(version: int)
    | NoMigrationFrom(version: int)

  function Stored(raw: Doc): (r: Doc)
    ensures r.Obj?
  {
    if raw.Obj? then raw else Obj(map[])
  }

  function StoredVersion(raw: Doc): int {
    var v := Get(Stored(raw), CONFIG_VERSION);
    if v.Num? then v.n else 0
  }

  /** One merge of the defaults beneath the stored document, rungs rewritten if it predates the rewrite. */
  function MergedOnce(defaults: Doc, document: Doc, from: int, version: int): (r: Doc)
    requires defaults.Obj? && document.Obj?
    ensures r.Obj?
  {
    WithVersion(Merge(defaults, if from <= 2 < version then RungTypes(document) else document), version)
  }

  /** A version stamp on the document does not survive the next step's merge and stamp. */
  lemma MergeUnderStamp(defaults: Doc, d: Doc, v: int, next: int)
    requires defaults.Obj? && d.Obj?
    ensures WithVersion(Merge(defaults, WithVersion(Merge(defaults, d), v)), next)
        == WithVersion(Merge(defaults, d), next)
  {
    var m := Merge(defaults, d);
    var l, r := WithVersion(Merge(defaults, WithVersion(m, v)), next), WithVersion(m, next);
    MergeIdempotent(defaults, d);
    forall key
      ensures key in l.members <==> key in r.members
      ensures Get(l, key) == Get(r, key)
    {
      MergedMember(defaults, WithVersion(m, v), key);
      MergedMember(defaults, m, key);
    }
    SameMembers(l, r);
  }

  lemma RungTypesUnderStamp(d: Doc, v: int)
    requires d.Obj?
    ensures RungTypes(WithVersion(d, v)) == WithVersion(RungTypes(d), v)
  {
    assert |LADDERS| != |CONFIG_VERSION|;
    var l, r := RungTypes(WithVersion(d, v)), WithVersion(RungTypes(d), v);
    forall key
      ensures key in l.members <==> key in r.members
      ensures Get(l, key) == Get(r, key)
    {
    }
    SameMembers(l, r);
  }

  /** Another step on a document merged once leaves it merged once. */
  lemma StepStaysMergedOnce(defaults: Doc, document: Doc, from: int, version: int)
    requires CurrentDefaults(defaults) && document.Obj?
    requires 0 <= from < version < SHOP_CONFIG_VERSION
    ensures Step(defaults, version, MergedOnce(defaults, document, from, version))
        == MergedOnce(defaults, document, from, version + 1)
  {
    if version == 2 {
      RungTypesUnderStamp(Merge(defaults, document), version);
      RewriteCommutes(defaults, document);
      MergeUnderStamp(defaults, RungTypes(document), version, version + 1);
    } else {
      MergeUnderStamp(defaults, if from <= 2 < version then RungTypes(document) else document, version, version + 1);
    }
  }

  /**
   Migrates forward until current. Seven steps collapse to one merge; a current
   document is untouched; a newer or unregistered version is refused.
   */
  method MigrateShopConfig(defaults: Doc, raw: Doc) returns (r: Outcome, ghost steps: nat)
    requires CurrentDefaults(defaults)
    ensures raw.Obj? && Get(raw, CONFIG_VERSION).Num? ==>
              var from := Get(raw, CONFIG_VERSION).n;
              && (from > SHOP_CONFIG_VERSION ==> r == WrittenByNewerRelease(from) && steps == 0)
              && (from < 0 ==> r == NoMigrationFrom(from) && steps == 0)
              && (from == SHOP_CONFIG_VERSION ==> r == Migrated(raw, SHOP_CONFIG_VERSION, true) && steps == 0)
              && (0 <= from < SHOP_CONFIG_VERSION ==>
                    && r == Migrated(MergedOnce(defaults, raw, from, SHOP_CONFIG_VERSION), from, false)
                    && steps == SHOP_CONFIG_VERSION - from)
    ensures !(raw.Obj? && Get(raw, CONFIG_VERSION).Num?) ==>
              var document := if raw.Obj? then raw else Obj(map[]);
              r == Migrated(MergedOnce(defaults, document, 0, SHOP_CONFIG_VERSION), 0, false) && steps == 7
  {
    hide CurrentDefaults, RungTypes, Merge, WithVersion, Step, MergedOnce;
    var document := Stored(raw);
    var storedVersion := StoredVersion(raw);
    steps := 0;
    if storedVersion > SHOP_CONFIG_VERSION {
      return WrittenByNewerRelease(storedVersion), 0;
    }
    var version := storedVersion;
    assert defaults.Obj? by {
      DefaultsAreObject(defaults);
    }
    while version < SHOP_CONFIG_VERSION
      invariant storedVersion <= version <= SHOP_CONFIG_VERSION && document.Obj?
      invariant version == storedVersion ==> document == Stored(raw)
      invariant version > storedVersion ==>
          0 <= storedVersion && document == MergedOnce(defaults, Stored(raw), storedVersion, version)
      invariant steps == version - storedVersion
      decreases SHOP_CONFIG_VERSION - version
    {
      if version < 0 {
        return NoMigrationFrom(version), steps;
      }
      if version == storedVersion {
        FirstStep(defaults, document, version);
      } else {
        StepStaysMergedOnce(defaults, Stored(raw), storedVersion, version);
      }
      document := Step(defaults, version, document);
      var next := Get(document, CONFIG_VERSION);
      version := if next.Num? then next.n else version + 1;
      steps := steps + 1;
    }
    return Migrated(document, storedVersion, storedVersion == SHOP_CONFIG_VERSION), steps;
  }

  lemma DefaultsAreObject(d: Doc)
    requires CurrentDefaults(d)
    ensures d.Obj?
  {
  }

  lemma FirstStep(defaults: Doc, document: Doc, from: int)
    requires defaults.Obj? && document.Obj? && 0 <= from < SHOP_CONFIG_VERSION
    ensures Step(defaults, from, document) == MergedOnce(defaults, document, from, from + 1)
  {
  }

  // ----- What a shop keeps -----

  predicate IsRungList(path: seq<Text>) {
    |path| == 3 && path[0] == LADDERS && path[2] == RUNGS
  }

  lemma LadderRewriteTouchesRungsOnly(ladder: Doc, path: seq<Text>)
    requires IsLeaf(Lookup(ladder, path)) && !(|path| == 1 && path[0] == RUNGS)
    ensures Lookup(RetypeLadder(ladder), path) == Lookup(ladder, path)
  {
    if ladder.Obj? && path != [] {
      RetypeLadderReads(ladder, path[0]);
    }
  }

  /** The rewrite touches nothing but rung lists. */
  lemma RewriteTouchesRungsOnly(document: Doc, path: seq<Text>)
    requires document.Obj? && IsLeaf(Lookup(document, path)) && !IsRungList(path)
    ensures Lookup(RungTypes(document), path) == Lookup(document, path)
  {
    RungTypesReads(document, path[0]);
    var ladders := Get(document, LADDERS);
    if path[0] == LADDERS && ladders.Obj? && |path| > 1 {
      var rest := path[1..];
      var ladder := Get(ladders, rest[0]);
      assert Lookup(document, path) == Lookup(ladders, rest) == Lookup(ladder, rest[1..]);
      assert Get(RetypeLadders(ladders), rest[0]) == RetypeLadder(ladder);
      assert Lookup(RungTypes(document), path) == Lookup(RetypeLadders(ladders), rest)
          == Lookup(RetypeLadder(ladder), rest[1..]);
      LadderRewriteTouchesRungsOnly(ladder, rest[1..]);
    }
  }

  /**
   Every stored leaf outside rung lists and the version stamp is still there, unchanged, whatever version it
   was stored at.
   */
  lemma StoredLeafSurvives(defaults: Doc, document: Doc, from: int, path: seq<Text>)
    requires defaults.Obj? && document.Obj? && IsLeaf(Lookup(document, path))
    requires path[0] != CONFIG_VERSION && !(from <= 2 && IsRungList(path))
    ensures Lookup(MergedOnce(defaults, document, from, SHOP_CONFIG_VERSION), path) == Lookup(document, path)
  {
    var own := if from <= 2 then RungTypes(document) else document;
    if from <= 2 {
      RewriteTouchesRungsOnly(document, path);
    }
    PatchLeafSurvives(defaults, own, path);
    assert Get(WithVersion(Merge(defaults, own), SHOP_CONFIG_VERSION), path[0]) == Get(Merge(defaults, own), path[0]);
  }

  /**
   A stored rung list survives too, rung by rung, where it was; of a version before the rewrite each rung comes with
   its channel as its type.
   */
  lemma StoredRungsSurvive(defaults: Doc, document: Doc, from: int, objective: Text)
    requires defaults.Obj? && document.Obj?
    requires Lookup(document, [LADDERS, objective, RUNGS]).Arr?
    ensures var was := Lookup(document, [LADDERS, objective, RUNGS]);
            var now := Lookup(MergedOnce(defaults, document, from, SHOP_CONFIG_VERSION), [LADDERS, objective, RUNGS]);
            if from <= 2 then
              && now.Arr? && |now.items| == |was.items|
              && forall i | 0 <= i < |was.items| :: RungKept(was.items[i], now.items[i])
            else now == was
  {
    hide RungKept, MergedOnce, Lookup, RetypeRung;
    var was := Lookup(document, [LADDERS, objective, RUNGS]);
    RungsRewritten(defaults, document, from, objective);
    forall i | 0 <= i < |was.items|
      ensures RungKept(was.items[i], RetypeRung(was.items[i]))
    {
      RetypeRungKeeps(was.items[i]);
    }
  }

  lemma RungsRewritten(defaults: Doc, document: Doc, from: int, objective: Text)
    requires defaults.Obj? && document.Obj?
    requires Lookup(document, [LADDERS, objective, RUNGS]).Arr?
    ensures var rungs := Lookup(document, [LADDERS, objective, RUNGS]).items;
            Lookup(MergedOnce(defaults, document, from, SHOP_CONFIG_VERSION), [LADDERS, objective, RUNGS])
            == Arr(if from <= 2 then RetypeRungs(rungs) else rungs)
  {
    hide LegacyType, RetypeRung, RetypeRungs, Lookup, Merge, RetypeLadder, RetypeLadders, RungTypes;
    var path: seq<Text> := [LADDERS, objective, RUNGS];
    var own := if from <= 2 then RungTypes(document) else document;
    LookupThree(document, LADDERS, objective, RUNGS);
    if from <= 2 {
      RewrittenRungs(document, objective);
    }
    PatchLeafSurvives(defaults, own, path);
    VersionIsNotLadders();
    LookupThree(Merge(defaults, own), LADDERS, objective, RUNGS);
    LookupThree(MergedOnce(defaults, document, from, SHOP_CONFIG_VERSION), LADDERS, objective, RUNGS);
  }

  function Child(d: Doc, key: Text): Doc {
    if d.Obj? then Get(d, key) else Undefined
  }

  /** A path of three keys is three readings. */
  lemma LookupThree(d: Doc, a: Text, b: Text, c: Text)
    ensures Lookup(d, [a, b, c]) == Child(Child(Child(d, a), b), c)
  {
    assert [a, b, c][1..] == [b, c] && [b, c][1..] == [c] && [c][1..] == [];
    LookupStep(d, [a, b, c]);
    LookupStep(Child(d, a), [b, c]);
    LookupStep(Child(Child(d, a), b), [c]);
  }

  lemma LookupStep(d: Doc, path: seq<Text>)
    requires path != []
    ensures Lookup(d, path) == Lookup(Child(d, path[0]), path[1..])
    ensures |path| == 1 ==> Lookup(d, path) == Child(d, path[0])
  {
  }

  lemma VersionIsNotLadders()
    ensures LADDERS != CONFIG_VERSION
  {
    assert |LADDERS| != |CONFIG_VERSION|;
  }

  /** The rewritten document holds the rewritten list where the stored one held the list. */
  lemma RewrittenRungs(document: Doc, objective: Text)
    requires document.Obj? && Lookup(document, [LADDERS, objective, RUNGS]).Arr?
    ensures Lookup(RungTypes(document), [LADDERS, objective, RUNGS])
         == Arr(RetypeRungs(Lookup(document, [LADDERS, objective, RUNGS]).items))
  {
    hide LegacyType, RetypeRung, RetypeRungs, Lookup;
    LookupThree(document, LADDERS, objective, RUNGS);
    LookupThree(RungTypes(document), LADDERS, objective, RUNGS);
    RungTypesReads(document, LADDERS);
    var ladders := Get(document, LADDERS);
    RetypeLadderReads(Get(ladders, objective), RUNGS);
  }
}
