/**
 What canonical text says about the value it was printed from: it can be read
 back, so it is injective on meanings, and it never depends on insertion order.
 */
module CanonicalJsonTheorems {
  import opened Text
  import Characters
  import opened CanonicalJson

  /** What an object's members amount to, visited in the given key order. */
  ghost function Collect(fields: seq<Field>, keys: seq<Text>): map<Text, Value>
    requires forall k :: k in keys ==> k in PresentKeys(fields)
  {
    if keys == [] then map[]
    else map[keys[0] := Meaning(fields[IndexOf(fields, keys[0])].value)] + Collect(fields, keys[1..])
  }

  lemma {:induction false} CollectLookup(fields: seq<Field>, keys: seq<Text>)
    requires forall k :: k in keys ==> k in PresentKeys(fields)
    ensures forall k :: k in Collect(fields, keys) <==> k in keys
    ensures forall k :: k in keys ==> Collect(fields, keys)[k] == Meaning(fields[IndexOf(fields, k)].value)
  {
    if keys != [] {
      CollectLookup(fields, keys[1..]);
      assert forall k :: k in keys <==> k == keys[0] || k in keys[1..];
    }
  }

  lemma {:induction false} MembersOfLookup(fields: seq<Field>)
    ensures forall k :: k in MembersOf(fields) <==> k in PresentKeys(fields)
    ensures forall k :: k in PresentKeys(fields) ==> MembersOf(fields)[k] == Meaning(fields[IndexOf(fields, k)].value)
  {
    if fields != [] {
      MembersOfLookup(fields[1..]);
    }
  }

  lemma CollectIsMembersOf(fields: seq<Field>)
    ensures Collect(fields, Sort(PresentKeys(fields))) == MembersOf(fields)
  {
    CollectLookup(fields, Sort(PresentKeys(fields)));
    MembersOfLookup(fields);
  }

  lemma {:induction false} PresentKeysDistinct(fields: seq<Field>)
    requires Distinct(Keys(fields))
    ensures Distinct(PresentKeys(fields))
    ensures forall k :: k in PresentKeys(fields) ==> k in Keys(fields)
  {
    if fields != [] {
      assert Keys(fields)[1..] == Keys(fields[1..]);
      PresentKeysDistinct(fields[1..]);
      var rest := PresentKeys(fields[1..]);
      forall i | 0 <= i < |rest|
        ensures rest[i] != fields[0].key
      {
        assert rest[i] in Keys(fields[1..]);
      }
    }
  }

  // ----- Reading back -----

  /** No value's text starts like the end of a list or an object. */
  lemma FirstUnit(j: Json)
    ensures Canonical(j) != [] && Canonical(j)[0] != CLOSE_LIST && Canonical(j)[0] != CLOSE_OBJECT
  {
  }

  lemma ParseList(t: Text)
    requires t != [] && t[0] != CLOSE_LIST && ParseItems(t).Done?
    ensures Parse([OPEN_LIST] + t) == Done(VArr(ParseItems(t).value), ParseItems(t).rest)
  {
    NotAWord([OPEN_LIST] + t);
    assert ([OPEN_LIST] + t)[1..] == t;
  }

  lemma ParseEmptyList(rest: Text)
    ensures Parse([OPEN_LIST, CLOSE_LIST] + rest) == Done(VArr([]), rest)
  {
    NotAWord([OPEN_LIST, CLOSE_LIST] + rest);
    assert ([OPEN_LIST, CLOSE_LIST] + rest)[2..] == rest;
  }

  lemma ParseObject(t: Text)
    requires t != [] && t[0] != CLOSE_OBJECT && ParseMembers(t).Done?
    ensures Parse([OPEN_OBJECT] + t) == Done(VObj(ParseMembers(t).value), ParseMembers(t).rest)
  {
    NotAWord([OPEN_OBJECT] + t);
    assert ([OPEN_OBJECT] + t)[1..] == t;
  }

  lemma ParseEmptyObject(rest: Text)
    ensures Parse([OPEN_OBJECT, CLOSE_OBJECT] + rest) == Done(VObj(map[]), rest)
  {
    NotAWord([OPEN_OBJECT, CLOSE_OBJECT] + rest);
    assert ([OPEN_OBJECT, CLOSE_OBJECT] + rest)[2..] == rest;
  }

  lemma ParseQuoted(s: Text, rest: Text)
    ensures Parse(Quote(s) + rest) == Done(VStr(s), rest)
  {
    QuoteRoundTrip(s, rest);
    NotAWord(Quote(s) + rest);
  }

  lemma ParseWord(word: Text, rest: Text, v: Value)
    requires (word, v) in {(NULL, VNull), (TRUE, VBool(true)), (FALSE, VBool(false))}
    ensures Parse(word + rest) == Done(v, rest)
  {
    assert StartsWith(word + rest, word);
    assert (word + rest)[|word|..] == rest;
    assert (word + rest)[0] == word[0];
    assert word == NULL || !StartsWith(word + rest, NULL) by {
      if StartsWith(word + rest, NULL) {
        assert (word + rest)[..4][0] == word[0];
      }
    }
    assert word != FALSE || !StartsWith(word + rest, TRUE) by {
      if StartsWith(word + rest, TRUE) {
        assert (word + rest)[..4][0] == word[0];
      }
    }
  }

  lemma ItemsStep(first: Json, more: Text)
    requires Parse(Canonical(first) + ([COMMA] + more)) == Done(Meaning(first), [COMMA] + more)
    requires ParseItems(more).Done?
    ensures ParseItems(Canonical(first) + ([COMMA] + more))
         == Done([Meaning(first)] + ParseItems(more).value, ParseItems(more).rest)
  {
    assert ([COMMA] + more)[1..] == more;
  }

  lemma ItemsEnd(last: Json, rest: Text)
    requires Parse(Canonical(last) + ([CLOSE_LIST] + rest)) == Done(Meaning(last), [CLOSE_LIST] + rest)
    ensures ParseItems(Canonical(last) + ([CLOSE_LIST] + rest)) == Done([Meaning(last)], rest)
  {
    assert ([CLOSE_LIST] + rest)[1..] == rest;
  }

  /** Parsing one `"key":value` pair that is followed by `end`. */
  lemma MemberText(key: Text, value: Json, end: Text)
    requires Parse(Canonical(value) + end) == Done(Meaning(value), end)
    ensures
      var t := Quote(key) + [COLON] + Canonical(value) + end;
      && t[0] == QUOTE
      && Unquote(t[1..]) == Done(key, [COLON] + Canonical(value) + end)
      && Parse(([COLON] + Canonical(value) + end)[1..]) == Done(Meaning(value), end)
  {
    hide Parse, Unquote, Canonical, Meaning, Quote;
    assert Quote(key) + [COLON] + Canonical(value) + end == Quote(key) + ([COLON] + Canonical(value) + end);
    QuoteRoundTrip(key, [COLON] + Canonical(value) + end);
    assert ([COLON] + Canonical(value) + end)[1..] == Canonical(value) + end;
  }

  lemma MembersStep(key: Text, value: Json, more: Text)
    requires Parse(Canonical(value) + ([COMMA] + more)) == Done(Meaning(value), [COMMA] + more)
    requires ParseMembers(more).Done?
    ensures ParseMembers(Quote(key) + [COLON] + Canonical(value) + ([COMMA] + more))
         == Done(map[key := Meaning(value)] + ParseMembers(more).value, ParseMembers(more).rest)
  {
    hide Parse, Unquote, Canonical, Meaning, Quote;
    MemberText(key, value, [COMMA] + more);
    assert ([COMMA] + more)[1..] == more;
  }

  lemma MembersEnd(key: Text, value: Json, rest: Text)
    requires Parse(Canonical(value) + ([CLOSE_OBJECT] + rest)) == Done(Meaning(value), [CLOSE_OBJECT] + rest)
    ensures ParseMembers(Quote(key) + [COLON] + Canonical(value) + ([CLOSE_OBJECT] + rest))
         == Done(map[key := Meaning(value)], rest)
  {
    hide Parse, Unquote, Canonical, Meaning, Quote;
    MemberText(key, value, [CLOSE_OBJECT] + rest);
    assert ([CLOSE_OBJECT] + rest)[1..] == rest;
  }

  /** The parser undoes the serialiser, whatever text follows. */
  lemma {:induction false} ParseCanonical(j: Json, rest: Text)
    requires WellFormed(j) && Delimited(rest)
    ensures Parse(Canonical(j) + rest) == Done(Meaning(j), rest)
    decreases j, 0
  {
    hide Parse, ParseItems, ParseMembers;
    match j
    case Undefined => ParseWord(NULL, rest, VNull);
    case Null => ParseWord(NULL, rest, VNull);
    case Bool(b) => ParseWord(if b then TRUE else FALSE, rest, VBool(b));
    case Num(n) => DecimalRoundTrip(n, rest);
    case Str(s) => ParseQuoted(s, rest);
    case Arr(items) =>
      var body := Characters.Join(ItemTexts(items), [COMMA]) + ([CLOSE_LIST] + rest);
      if items == [] {
        assert Canonical(j) + rest == [OPEN_LIST, CLOSE_LIST] + rest;
        ParseEmptyList(rest);
      } else {
        ParseItemTexts(items, rest);
        FirstUnit(items[0]);
        assert Canonical(j) + rest == [OPEN_LIST] + body;
        ParseList(body);
      }
    case Obj(fields) =>
      ParseFields(fields, rest);
  }

  lemma {:induction false} ParseItemTexts(items: seq<Json>, rest: Text)
    requires items != [] && forall i :: 0 <= i < |items| ==> WellFormed(items[i])
    ensures ParseItems(Characters.Join(ItemTexts(items), [COMMA]) + ([CLOSE_LIST] + rest))
        == Done(Meanings(items), rest)
    decreases items, 0
  {
    hide Parse, ParseItems, ParseMembers, Canonical, Meaning;
    if |items| == 1 {
      ParseCanonical(items[0], [CLOSE_LIST] + rest);
      ItemsEnd(items[0], rest);
      assert Characters.Join(ItemTexts(items), [COMMA]) == Canonical(items[0]);
      assert Meanings(items) == [Meaning(items[0])];
    } else {
      var more := Characters.Join(ItemTexts(items[1..]), [COMMA]) + ([CLOSE_LIST] + rest);
      ParseCanonical(items[0], [COMMA] + more);
      ParseItemTexts(items[1..], rest);
      ItemsStep(items[0], more);
      assert ItemTexts(items)[1..] == ItemTexts(items[1..]);
      assert Characters.Join(ItemTexts(items), [COMMA]) + ([CLOSE_LIST] + rest)
          == Canonical(items[0]) + ([COMMA] + more);
    }
  }

  lemma {:induction false} ParseFields(fields: seq<Field>, rest: Text)
    requires forall i :: 0 <= i < |fields| ==> WellFormed(fields[i].value)
    ensures Parse(Canonical(Obj(fields)) + rest) == Done(Meaning(Obj(fields)), rest)
    decreases fields, |fields| + 1
  {
    hide Parse, ParseItems, ParseMembers;
    var keys := Sort(PresentKeys(fields));
    CollectIsMembersOf(fields);
    var body := Characters.Join(MemberTexts(fields, keys), [COMMA]) + ([CLOSE_OBJECT] + rest);
    if keys == [] {
      assert Canonical(Obj(fields)) + rest == [OPEN_OBJECT, CLOSE_OBJECT] + rest;
      ParseEmptyObject(rest);
    } else {
      PresentKeysFew(fields);
      ParseMemberTexts(fields, keys, rest);
      assert Canonical(Obj(fields)) + rest == [OPEN_OBJECT] + body;
      assert body[0] == QUOTE;
      ParseObject(body);
    }
  }

  lemma {:induction false} PresentKeysFew(fields: seq<Field>)
    ensures |PresentKeys(fields)| <= |fields|
  {
    if fields != [] {
      PresentKeysFew(fields[1..]);
    }
  }

  lemma {:induction false} ParseMemberTexts(fields: seq<Field>, keys: seq<Text>, rest: Text)
    requires forall i :: 0 <= i < |fields| ==> WellFormed(fields[i].value)
    requires keys != [] && forall k :: k in keys ==> k in PresentKeys(fields)
    ensures ParseMembers(Characters.Join(MemberTexts(fields, keys), [COMMA]) + ([CLOSE_OBJECT] + rest))
        == Done(Collect(fields, keys), rest)
    decreases fields, |keys|
  {
    hide Parse, ParseItems, ParseMembers, Canonical, Meaning, Quote;
    var value := fields[IndexOf(fields, keys[0])].value;
    var head := Quote(keys[0]) + [COLON] + Canonical(value);
    if |keys| == 1 {
      ParseCanonical(value, [CLOSE_OBJECT] + rest);
      MembersEnd(keys[0], value, rest);
      assert Characters.Join(MemberTexts(fields, keys), [COMMA]) == head;
      assert Collect(fields, keys) == map[keys[0] := Meaning(value)] + map[] == map[keys[0] := Meaning(value)];
    } else {
      var more := Characters.Join(MemberTexts(fields, keys[1..]), [COMMA]) + ([CLOSE_OBJECT] + rest);
      ParseCanonical(value, [COMMA] + more);
      ParseMemberTexts(fields, keys[1..], rest);
      MembersStep(keys[0], value, more);
      assert MemberTexts(fields, keys)[1..] == MemberTexts(fields, keys[1..]);
      assert Characters.Join(MemberTexts(fields, keys), [COMMA]) + ([CLOSE_OBJECT] + rest) == head + ([COMMA] + more);
    }
  }

  // ----- Equal meanings print alike -----

  lemma SameMembers(a: seq<Field>, b: seq<Field>)
    requires Distinct(Keys(a)) && Distinct(Keys(b)) && MembersOf(a) == MembersOf(b)
    ensures Sort(PresentKeys(a)) == Sort(PresentKeys(b))
    ensures forall k :: k in PresentKeys(a) ==> k in PresentKeys(b)
    ensures forall k :: k in PresentKeys(a) ==> Meaning(a[IndexOf(a, k)].value) == Meaning(b[IndexOf(b, k)].value)
  {
    MembersOfLookup(a);
    MembersOfLookup(b);
    PresentKeysDistinct(a);
    PresentKeysDistinct(b);
    SortIncreasing(PresentKeys(a));
    SortIncreasing(PresentKeys(b));
    assert forall k :: k in PresentKeys(a) <==> k in PresentKeys(b);
    IncreasingUnique(Sort(PresentKeys(a)), Sort(PresentKeys(b)));
  }

  lemma {:induction false} SameMeaningSameText(a: Json, b: Json)
    requires WellFormed(a) && WellFormed(b) && Meaning(a) == Meaning(b)
    ensures Canonical(a) == Canonical(b)
    decreases a, 0
  {
    match a
    case Arr(items) => SameItems(items, b.items);
    case Obj(fields) =>
      SameMembers(fields, b.fields);
      PresentKeysFew(fields);
      SameMemberTexts(fields, b.fields, Sort(PresentKeys(fields)));
    case _ =>
  }

  lemma {:induction false} SameItems(a: seq<Json>, b: seq<Json>)
    requires forall i :: 0 <= i < |a| ==> WellFormed(a[i])
    requires forall i :: 0 <= i < |b| ==> WellFormed(b[i])
    requires Meanings(a) == Meanings(b)
    ensures ItemTexts(a) == ItemTexts(b)
    decreases a, 0
  {
    if a != [] {
      assert Meanings(a)[0] == Meanings(b)[0] && Meanings(a)[1..] == Meanings(b)[1..];
      SameMeaningSameText(a[0], b[0]);
      SameItems(a[1..], b[1..]);
    }
  }

  lemma {:induction false} SameMemberTexts(a: seq<Field>, b: seq<Field>, keys: seq<Text>)
    requires forall i :: 0 <= i < |a| ==> WellFormed(a[i].value)
    requires forall i :: 0 <= i < |b| ==> WellFormed(b[i].value)
    requires forall k :: k in keys ==> k in PresentKeys(a) && k in PresentKeys(b)
    requires forall k :: k in keys ==> Meaning(a[IndexOf(a, k)].value) == Meaning(b[IndexOf(b, k)].value)
    ensures MemberTexts(a, keys) == MemberTexts(b, keys)
    decreases a, |keys|
  {
    if keys != [] {
      SameMeaningSameText(a[IndexOf(a, keys[0])].value, b[IndexOf(b, keys[0])].value);
      SameMemberTexts(a, b, keys[1..]);
    }
  }

  /** The law the hash chain rests on: same text exactly when same meaning. */
  lemma CanonicalIsInjective(a: Json, b: Json)
    requires WellFormed(a) && WellFormed(b)
    ensures Canonical(a) == Canonical(b) <==> Meaning(a) == Meaning(b)
  {
    if Canonical(a) == Canonical(b) {
      ParseCanonical(a, []);
      ParseCanonical(b, []);
    } else if Meaning(a) == Meaning(b) {
      SameMeaningSameText(a, b);
    }
  }

  // ----- The order of an object's members -----

  ghost predicate KeysAscend(fields: seq<Field>) {
    forall i, j | 0 <= i < j < |fields| :: Ascends(fields[i].key, fields[j].key)
  }

  /** The members an object prints, in ascending order of key. */
  ghost predicate InKeyOrder(fields: seq<Field>, sorted: seq<Field>) {
    && KeysAscend(sorted)
    && forall f: Field :: f in sorted <==> f in fields && f.value != Undefined
  }

  /** Each member as its quoted key, a colon and the text of its value. */
  ghost function EntryTexts(sorted: seq<Field>): seq<Text> {
    seq(|sorted|, i requires 0 <= i < |sorted| => Quote(sorted[i].key) + [COLON] + Canonical(sorted[i].value))
  }

  lemma KeysAscendExactly(sorted: seq<Field>)
    ensures KeysAscend(sorted) <==> Increasing(Keys(sorted))
  {
    hide Before, Ascends;
    forall i, j | 0 <= i < j < |sorted|
      ensures Before(sorted[i].key, sorted[j].key) <==> Ascends(sorted[i].key, sorted[j].key)
    {
      BeforeExactly(sorted[i].key, sorted[j].key);
    }
  }

  lemma {:induction false} PresentKeysExactly(fields: seq<Field>)
    ensures forall k ::
              k in PresentKeys(fields) <==> exists f: Field :: f in fields && f.key == k && f.value != Undefined
  {
    if fields != [] {
      PresentKeysExactly(fields[1..]);
      assert forall f: Field :: f in fields <==> f == fields[0] || f in fields[1..];
    }
  }

  /** The one member under a key is the one its index finds. */
  lemma IndexFinds(fields: seq<Field>, f: Field)
    requires Distinct(Keys(fields)) && f in fields && f.value != Undefined
    ensures f.key in PresentKeys(fields) && fields[IndexOf(fields, f.key)] == f
  {
    hide PresentKeys, IndexOf, Keys, Distinct;
    PresentKeysExactly(fields);
    var i :| 0 <= i < |fields| && fields[i] == f;
    OneMember(fields, i, IndexOf(fields, f.key));
  }

  lemma OneMember(fields: seq<Field>, i: nat, j: nat)
    requires Distinct(Keys(fields)) && i < |fields| && j < |fields| && fields[i].key == fields[j].key
    ensures i == j
  {
    assert Keys(fields)[i] == Keys(fields)[j];
  }

  lemma {:induction false} MemberTextsOf(fields: seq<Field>, sorted: seq<Field>)
    requires Distinct(Keys(fields)) && forall f: Field :: f in sorted ==> f in fields && f.value != Undefined
    ensures forall k :: k in Keys(sorted) ==> k in PresentKeys(fields)
    ensures MemberTexts(fields, Keys(sorted)) == EntryTexts(sorted)
    decreases |sorted|
  {
    hide Quote, Canonical, Distinct;
    if sorted != [] {
      IndexFinds(fields, sorted[0]);
      MemberTextsOf(fields, sorted[1..]);
      assert Keys(sorted)[1..] == Keys(sorted[1..]);
    }
  }

  /**
   The text of an object is that of its members other than the undefined ones, in ascending order of key by code
   unit, and there is such an order.
   */
  lemma ObjectInKeyOrder(fields: seq<Field>)
    requires WellFormed(Obj(fields))
    ensures exists sorted: seq<Field> :: InKeyOrder(fields, sorted)
    ensures forall sorted: seq<Field> :: InKeyOrder(fields, sorted) ==>
              Canonical(Obj(fields))
              == [OPEN_OBJECT] + Characters.Join(EntryTexts(sorted), [COMMA]) + [CLOSE_OBJECT]
  {
    hide Quote, Before, KeysAscend, IndexOf;
    var keys := Sort(PresentKeys(fields));
    PresentKeysExactly(fields);
    PresentKeysDistinct(fields);
    SortIncreasing(PresentKeys(fields));
    SomeKeyOrder(fields);
    forall sorted: seq<Field> | InKeyOrder(fields, sorted)
      ensures Keys(sorted) == keys
    {
      KeysAscendExactly(sorted);
      assert forall k :: k in Keys(sorted) <==> exists f: Field :: f in sorted && f.key == k;
      IncreasingUnique(Keys(sorted), keys);
    }
    forall sorted: seq<Field> | InKeyOrder(fields, sorted)
      ensures MemberTexts(fields, keys)
           == EntryTexts(sorted)
    {
      MemberTextsOf(fields, sorted);
    }
  }

  lemma SomeKeyOrder(fields: seq<Field>)
    requires Distinct(Keys(fields))
    ensures exists sorted: seq<Field> :: InKeyOrder(fields, sorted)
  {
    hide Before, Ascends, KeysAscend, Distinct, PresentKeys;
    var keys := Sort(PresentKeys(fields));
    PresentKeysExactly(fields);
    PresentKeysDistinct(fields);
    SortIncreasing(PresentKeys(fields));
    var sorted := seq(|keys|, i requires 0 <= i < |keys| => fields[IndexOf(fields, keys[i])]);
    assert Keys(sorted) == keys;
    KeysAscendExactly(sorted);
    forall f
      ensures f in sorted <==> f in fields && f.value != Undefined
    {
      if f in fields && f.value != Undefined {
        IndexFinds(fields, f);
        var i :| 0 <= i < |keys| && keys[i] == f.key;
        assert sorted[i] == f;
      }
    }
    assert InKeyOrder(fields, sorted);
  }

  lemma SameEntriesSameMembers(a: seq<Field>, b: seq<Field>)
    requires Distinct(Keys(a)) && Distinct(Keys(b))
    requires forall f :: f in a <==> f in b
    ensures MembersOf(a) == MembersOf(b)
  {
    hide MembersOf, Meaning, Keys;
    MembersFromEntries(a);
    MembersFromEntries(b);
  }

  /** Reordering the members of an object changes nothing. */
  lemma InsertionOrderIrrelevant(a: seq<Field>, b: seq<Field>)
    requires WellFormed(Obj(a)) && WellFormed(Obj(b))
    requires multiset(a) == multiset(b)
    ensures Canonical(Obj(a)) == Canonical(Obj(b))
  {
    hide Canonical, MembersOf;
    assert forall f :: f in a <==> f in multiset(a);
    assert forall f :: f in b <==> f in multiset(b);
    SameEntriesSameMembers(a, b);
    SameMeaningSameText(Obj(a), Obj(b));
  }

  lemma MembersFromEntries(fields: seq<Field>)
    requires Distinct(Keys(fields))
    ensures forall k, v :: Field(k, v) in fields && v != Undefined ==>
        k in MembersOf(fields) && MembersOf(fields)[k] == Meaning(v)
    ensures forall k :: k in MembersOf(fields) ==> exists v :: Field(k, v) in fields && v != Undefined
  {
    MembersOfLookup(fields);
    forall k | k in MembersOf(fields)
      ensures exists v :: Field(k, v) in fields && v != Undefined
    {
      var f := fields[IndexOf(fields, k)];
      assert Field(k, f.value) in fields;
    }
    forall k, v | Field(k, v) in fields && v != Undefined
      ensures k in MembersOf(fields) && MembersOf(fields)[k] == Meaning(v)
    {
      var i :| 0 <= i < |fields| && fields[i] == Field(k, v);
      PresentAt(fields, i);
    }
  }

  lemma {:induction false} PresentAt(fields: seq<Field>, i: nat)
    requires Distinct(Keys(fields)) && i < |fields| && fields[i].value != Undefined
    ensures fields[i].key in PresentKeys(fields) && IndexOf(fields, fields[i].key) == i
  {
    if i > 0 {
      assert Keys(fields)[0] != Keys(fields)[i];
      assert Keys(fields)[1..] == Keys(fields[1..]);
      PresentAt(fields[1..], i - 1);
    }
  }
}
