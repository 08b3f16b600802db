/**
 What confirming a draft promises: every field can be reached by its path, and a correction changes that field
 alone.
 */
module JobCardDraftTheorems {
  import opened Wrappers
  import opened Characters
  import opened Rounding
  import opened JobCardDraft
  import opened Money

  // ----- Paths -----

  predicate NoDot(s: string) {
    '.' !in s
  }

  lemma {:induction false} SplitOne(s: string)
    requires NoDot(s)
    ensures Split(s) == [s]
  {
    if s != "" {
      assert s[0] in s && s == [s[0]] + s[1..];
      SplitOne(s[1..]);
    }
  }

  lemma {:induction false} SplitFirst(head: string, rest: string)
    requires NoDot(head)
    ensures Split(head + "." + rest) == [head] + Split(rest)
  {
    var s := head + "." + rest;
    if head == "" {
      assert s[0] == '.' && s[1..] == rest;
    } else {
      assert s[1..] == head[1..] + "." + rest;
      assert s[0] == head[0] && head[0] in head;
      SplitFirst(head[1..], rest);
      assert head == [head[0]] + head[1..];
    }
  }

  lemma SplitTwo(a: string, b: string)
    requires NoDot(a) && NoDot(b)
    ensures Split(a + "." + b) == [a, b]
  {
    SplitFirst(a, b);
    SplitOne(b);
  }

  lemma SplitThree(a: string, b: string, c: string)
    requires NoDot(a) && NoDot(b) && NoDot(c)
    ensures Split(a + "." + b + "." + c) == [a, b, c]
  {
    SplitFirst(a, b + "." + c);
    SplitTwo(b, c);
    assert a + "." + b + "." + c == a + "." + (b + "." + c);
  }

  function Segments(p: Place): seq<string> {
    match p
    case Name => ["customer", "name"]
    case Phone => ["customer", "phone"]
    case Registration => ["vehicle", "registration"]
    case Make => ["vehicle", "make"]
    case Model => ["vehicle", "model"]
    case Odometer => ["vehicle", "odometerKm"]
    case Complaint(i) => ["complaints", Decimal(i)]
    case Description(i) => ["estimateLines", Decimal(i), "description"]
    case Quantity(i) => ["estimateLines", Decimal(i), "quantityMilli"]
    case Price(i) => ["estimateLines", Decimal(i), "unitPricePaise"]
    case Advisor => ["advisorName"]
    case Promised => ["promisedAt"]
  }

  lemma DecimalHasNoDot(i: nat)
    ensures NoDot(Decimal(i))
  {
    DecimalReads(i);
    assert forall c | c in Decimal(i) :: IsDigit(c);
  }

  lemma PathSegments(p: Place)
    ensures Split(Path(p)) == Segments(p)
  {
    hide Split, Decimal, Path;
    match p
    case Complaint(i) =>
      DecimalHasNoDot(i);
      SplitTwo("complaints", Decimal(i));
      assert Path(p) == "complaints" + "." + Decimal(i) by { PathOf(p); }
    case Description(i) => LinePathSegments(i, "description"); PathOf(p);
    case Quantity(i) => LinePathSegments(i, "quantityMilli"); PathOf(p);
    case Price(i) => LinePathSegments(i, "unitPricePaise"); PathOf(p);
    case Advisor => SplitOne("advisorName"); PathOf(p);
    case Promised => SplitOne("promisedAt"); PathOf(p);
    case _ => NamedPathSegments(p);
  }

  lemma PathOf(p: Place)
    ensures p.Complaint? ==> Path(p) == "complaints" + "." + Decimal(p.index)
    ensures p.Description? ==> Path(p) == "estimateLines." + Decimal(p.index) + "." + "description"
    ensures p.Quantity? ==> Path(p) == "estimateLines." + Decimal(p.index) + "." + "quantityMilli"
    ensures p.Price? ==> Path(p) == "estimateLines." + Decimal(p.index) + "." + "unitPricePaise"
    ensures p.Advisor? ==> Path(p) == "advisorName"
    ensures p.Promised? ==> Path(p) == "promisedAt"
  {
    hide Decimal;
    match p
    case Complaint(i) => ComplaintPath(i);
    case Description(i) => DescriptionPath(i);
    case Quantity(i) => QuantityPath(i);
    case Price(i) => PricePath(i);
    case _ =>
  }

  lemma ComplaintPath(i: nat)
    ensures Path(Complaint(i)) == "complaints" + "." + Decimal(i)
  {
    hide Decimal;
  }

  lemma DescriptionPath(i: nat)
    ensures Path(Description(i)) == "estimateLines." + Decimal(i) + "." + "description"
  {
    hide Decimal;
    assert "." + "description" == ".description";
  }

  lemma QuantityPath(i: nat)
    ensures Path(Quantity(i)) == "estimateLines." + Decimal(i) + "." + "quantityMilli"
  {
    hide Decimal;
    assert "." + "quantityMilli" == ".quantityMilli";
  }

  lemma PricePath(i: nat)
    ensures Path(Price(i)) == "estimateLines." + Decimal(i) + "." + "unitPricePaise"
  {
    hide Decimal;
    assert "." + "unitPricePaise" == ".unitPricePaise";
  }

  lemma NamedPathSegments(p: Place)
    requires p.Name? || p.Phone? || p.Registration? || p.Make? || p.Model? || p.Odometer?
    ensures Split(Path(p)) == Segments(p)
  {
    hide Split, Path;
    if p.Name? || p.Phone? {
      CustomerPathSegments(p);
    } else {
      VehiclePathSegments(p);
    }
  }

  lemma CustomerPathSegments(p: Place)
    requires p.Name? || p.Phone?
    ensures Split(Path(p)) == Segments(p)
  {
    hide Split;
    if p.Name? {
      SectionPathSegments(p, "customer", "name");
    } else {
      SectionPathSegments(p, "customer", "phone");
    }
  }

  lemma VehiclePathSegments(p: Place)
    requires p.Registration? || p.Make? || p.Model? || p.Odometer?
    ensures Split(Path(p)) == Segments(p)
  {
    hide Split;
    match p
    case Registration => SectionPathSegments(p, "vehicle", "registration");
    case Make => SectionPathSegments(p, "vehicle", "make");
    case Model => SectionPathSegments(p, "vehicle", "model");
    case Odometer => SectionPathSegments(p, "vehicle", "odometerKm");
  }

  lemma SectionPathSegments(p: Place, section: string, leaf: string)
    requires Path(p) == section + "." + leaf && NoDot(section) && NoDot(leaf)
    ensures Split(Path(p)) == [section, leaf]
  {
    SplitTwo(section, leaf);
  }

  lemma LinePathSegments(i: nat, leaf: string)
    requires NoDot(leaf)
    ensures Split("estimateLines." + Decimal(i) + "." + leaf) == ["estimateLines", Decimal(i), leaf]
  {
    DecimalHasNoDot(i);
    SplitThree("estimateLines", Decimal(i), leaf);
    assert "estimateLines." + Decimal(i) + "." + leaf == "estimateLines" + "." + Decimal(i) + "." + leaf;
  }

  lemma PathInjective(p: Place, q: Place)
    requires Path(p) == Path(q)
    ensures p == q
  {
    hide Path, Split, Decimal;
    PathSegments(p);
    PathSegments(q);
    SegmentsInjective(p, q);
  }

  lemma SegmentsInjective(p: Place, q: Place)
    requires Segments(p) == Segments(q)
    ensures p == q
  {
    hide Decimal;
    assert Segments(p)[0] == Segments(q)[0];
    assert |Segments(p)| > 1 ==> Segments(p)[1] == Segments(q)[1];
    assert |Segments(p)| > 2 ==> Segments(p)[2] == Segments(q)[2];
    if (p.Complaint? && q.Complaint?)
        || ((p.Description? || p.Quantity? || p.Price?) && (q.Description? || q.Quantity? || q.Price?)) {
      DecimalInjective(p.index, q.index);
    }
  }

  /** The path of every place of the draft leads there, whatever names objects inherit. */
  lemma PathResolves(reader: Reader, inherited: set<string>, d: Draft, p: Place)
    requires ReadsDecimals(reader) && InDraft(d, p)
    ensures Resolve(reader, inherited, d, Split(Path(p))) == Some(At(p))
  {
    hide Split, Path, Decimal;
    PathSegments(p);
    if p.Complaint? || p.Description? || p.Quantity? || p.Price? {
      assert IndexOf(reader, Decimal(p.index)) == Some(p.index);
    }
  }

  // ----- The list of fields -----

  lemma PlacesDistinct(d: Draft, j: nat, k: nat)
    requires j < k < |PlacesOf(d)|
    ensures PlacesOf(d)[j] != PlacesOf(d)[k]
  {
    PlaceAt(d, j);
    PlaceAt(d, k);
  }

  /** Every listed path is listed once and leads to the field it shows. */
  lemma ListedPaths(reader: Reader, inherited: set<string>, d: Draft)
    requires ReadsDecimals(reader)
    ensures forall j, k | 0 <= j < k < |Fields(d)| :: Fields(d)[j].path != Fields(d)[k].path
    ensures forall k | 0 <= k < |Fields(d)| ::
              && Fields(d)[k].path == Path(PlacesOf(d)[k])
              && Resolve(reader, inherited, d, Split(Fields(d)[k].path)) == Some(At(PlacesOf(d)[k]))
              && Fields(d)[k] == Shown(d, PlacesOf(d)[k])
  {
    hide Split, Resolve, PlacesOf;
    forall k | 0 <= k < |Fields(d)|
      ensures Resolve(reader, inherited, d, Split(Fields(d)[k].path)) == Some(At(PlacesOf(d)[k]))
    {
      PathResolves(reader, inherited, d, PlacesOf(d)[k]);
    }
    forall j, k | 0 <= j < k < |Fields(d)|
      ensures Fields(d)[j].path != Fields(d)[k].path
    {
      PlacesDistinct(d, j, k);
      if Path(PlacesOf(d)[j]) == Path(PlacesOf(d)[k]) {
        PathInjective(PlacesOf(d)[j], PlacesOf(d)[k]);
      }
    }
  }

  // ----- One correction -----

  lemma PutKeepsShape(d: Draft, p: Place, f: Field)
    requires InDraft(d, p)
    ensures PlacesOf(Put(d, p, f)) == PlacesOf(d)
    ensures forall q :: InDraft(d, q) <==> InDraft(Put(d, p, f), q)
    ensures Put(d, p, f).language == d.language && Put(d, p, f).notes == d.notes
  {
  }

  lemma PutValid(d: Draft, p: Place, f: Field)
    requires Valid(d) && InDraft(d, p)
    ensures Valid(Put(d, p, f)) <==> FieldOk(p, f)
  {
    hide FieldOk;
    var e := Put(d, p, f);
    PutKeepsShape(d, p, f);
    PutThenGet(d, p, f, p);
    if FieldOk(p, f) {
      forall q | InDraft(e, q)
        ensures FieldOk(q, Get(e, q))
      {
        PutThenGet(d, p, f, q);
      }
    }
  }

  /** A place's correction succeeds exactly when the text reads as a value the schema takes there. */
  lemma CorrectsExactly(reader: Reader, inherited: set<string>, d: Draft, p: Place, raw: string)
    requires Valid(d) && ReadsDecimals(reader) && InDraft(d, p)
    ensures var value := Coerce(reader, Path(p), raw, Some(Get(d, p).value));
            var result := ApplyCorrection(reader, inherited, d, Path(p), raw);
            && (result.Corrected? <==> value.Some? && ValueOk(p, value.value))
            && (result.UnknownField? <==> value.None?)
            && (result.Corrected? ==>
                  && result.draft == Put(d, p, Field(value.value, 1.0, Get(d, p).region))
                  && result.previousValue == Render(Get(d, p).value))
  {
    hide Coerce, Split, Path, Get, Put, Resolve;
    PathResolves(reader, inherited, d, p);
    var existing := Get(d, p);
    var value := Coerce(reader, Path(p), raw, Some(existing.value));
    if value.Some? {
      var f := Field(value.value, 1.0, existing.region);
      PutValid(d, p, f);
      assert FieldOk(p, existing);
    }
  }

  /**
   A listed field's correction leaves every other entry of the list as it was, and its own but for the value and a
   confidence of one. What is not listed, and the draft's being valid, stays too.
   */
  lemma CorrectionChangesOneField(reader: Reader, inherited: set<string>, d: Draft, k: nat, raw: string)
    requires Valid(d) && ReadsDecimals(reader) && k < |Fields(d)|
    requires ApplyCorrection(reader, inherited, d, Fields(d)[k].path, raw).Corrected?
    ensures var field := Fields(d)[k];
            var Corrected(after, previous) := ApplyCorrection(reader, inherited, d, field.path, raw);
            var value := Coerce(reader, field.path, raw, Some(Get(d, PlacesOf(d)[k]).value));
            && value.Some? && previous == field.value && Valid(after)
            && Fields(after) == Fields(d)[k := field.(value := Render(value.value), confidence := 1.0)]
            && (forall i | 0 <= i < |d.lines| ::
                i < |after.lines| && after.lines[i].quantityMilli == d.lines[i].quantityMilli)
            && after.language == d.language && after.notes == d.notes
  {
    hide Coerce, ApplyCorrection, Split, Resolve, Path, Valid, Put, Get, PlacesOf;
    var p := PlacesOf(d)[k];
    CorrectsExactly(reader, inherited, d, p, raw);
    var value := Coerce(reader, Path(p), raw, Some(Get(d, p).value)).value;
    var f := Field(value, 1.0, Get(d, p).region);
    var after := Put(d, p, f);
    assert Fields(d)[k] == Shown(d, p);
    assert ApplyCorrection(reader, inherited, d, Fields(d)[k].path, raw) == Corrected(after, Render(Get(d, p).value));
    CorrectedIsValid(reader, inherited, d, Path(p), raw);
    PutKeepsShape(d, p, f);
    FieldsAfterPut(d, k, f);
    QuantitiesKept(d, k, f);
  }

  lemma FieldsAfterPut(d: Draft, k: nat, f: Field)
    requires k < |Fields(d)|
    ensures var p := PlacesOf(d)[k];
            Fields(Put(d, p, f)) ==
              Fields(d)[k := Fields(d)[k].(value := Render(f.value), confidence := f.confidence, region := f.region)]
  {
    hide Put, Get, PlacesOf;
    var p := PlacesOf(d)[k];
    var after := Put(d, p, f);
    PutKeepsShape(d, p, f);
    forall j | 0 <= j < |Fields(d)|
      ensures j != k ==> Fields(after)[j] == Fields(d)[j]
      ensures j == k ==>
          Fields(after)[j] == Fields(d)[j].(value := Render(f.value), confidence := f.confidence, region := f.region)
    {
      PutThenGet(d, p, f, PlacesOf(d)[j]);
      if j < k {
        PlacesDistinct(d, j, k);
      } else if j > k {
        PlacesDistinct(d, k, j);
      }
    }
  }

  lemma QuantitiesKept(d: Draft, k: nat, f: Field)
    requires k < |PlacesOf(d)|
    ensures var after := Put(d, PlacesOf(d)[k], f);
            forall i | 0 <= i < |d.lines| ::
                i < |after.lines| && after.lines[i].quantityMilli == d.lines[i].quantityMilli
  {
    PlaceAt(d, k);
  }

  lemma CorrectedIsValid(reader: Reader, inherited: set<string>, d: Draft, path: string, raw: string)
    requires ApplyCorrection(reader, inherited, d, path, raw).Corrected?
    ensures Valid(ApplyCorrection(reader, inherited, d, path, raw).draft)
  {
  }

  // ----- Confidence -----

  /** Any correction that succeeds, by any path, lists the same paths, each no less confidently than before. */
  ghost predicate NoLessSure(d: Draft, e: Draft) {
    && PlacesOf(e) == PlacesOf(d)
    && forall k | 0 <= k < |Fields(d)| ::
         Fields(e)[k].path == Fields(d)[k].path && Fields(e)[k].confidence >= Fields(d)[k].confidence
  }

  lemma CorrectionNoLessSure(reader: Reader, inherited: set<string>, d: Draft, path: string, raw: string)
    requires Valid(d) && ApplyCorrection(reader, inherited, d, path, raw).Corrected?
    ensures NoLessSure(d, ApplyCorrection(reader, inherited, d, path, raw).draft)
  {
    hide Coerce, Split, Resolve, Path, Put, Get, PlacesOf;
    var e := ApplyCorrection(reader, inherited, d, path, raw).draft;
    var target := Resolve(reader, inherited, d, Split(path)).value;
    if target.At? {
      var p := target.place;
      PutKeepsShape(d, p, Field(Coerce(reader, path, raw, Some(Get(d, p).value)).value, 1.0, Get(d, p).region));
      forall k | 0 <= k < |Fields(d)|
        ensures Fields(e)[k].path == Fields(d)[k].path && Fields(e)[k].confidence >= Fields(d)[k].confidence
      {
        var q := PlacesOf(d)[k];
        PutThenGet(d, p, Field(Coerce(reader, path, raw, Some(Get(d, p).value)).value, 1.0, Get(d, p).region), q);
        assert FieldOk(q, Get(d, q));
      }
    }
  }

  lemma {:induction false} SumNoLess(a: seq<DraftField>, b: seq<DraftField>)
    requires |a| == |b| && forall k | 0 <= k < |a| :: a[k].confidence <= b[k].confidence
    ensures Sum(a) <= Sum(b)
    decreases |a|
  {
    if a != [] {
      SumNoLess(a[..|a| - 1], b[..|b| - 1]);
    }
  }

  /** Overall confidence never falls by a correction. */
  lemma OverallNeverFalls(reader: Reader, inherited: set<string>, d: Draft, path: string, raw: string)
    requires Valid(d) && ApplyCorrection(reader, inherited, d, path, raw).Corrected?
    ensures OverallConfidence(ApplyCorrection(reader, inherited, d, path, raw).draft) >= OverallConfidence(d)
  {
    hide ApplyCorrection, Sum;
    var e := ApplyCorrection(reader, inherited, d, path, raw).draft;
    CorrectionNoLessSure(reader, inherited, d, path, raw);
    SumNoLess(Fields(d), Fields(e));
    Quotients(Sum(Fields(d)), Sum(Fields(e)), |Fields(d)| as real);
  }

  lemma {:induction false} SumBetween(fields: seq<DraftField>, low: real, high: real)
    requires forall k | 0 <= k < |fields| :: low <= fields[k].confidence <= high
    ensures |fields| as real * low <= Sum(fields) <= |fields| as real * high
    decreases |fields|
  {
    if fields != [] {
      SumBetween(fields[..|fields| - 1], low, high);
    }
  }

  /** Overall confidence lies within any bounds that every field's does, so no field is below it or none above it. */
  lemma OverallBetween(d: Draft, low: real, high: real)
    requires forall k | 0 <= k < |Fields(d)| :: low <= Fields(d)[k].confidence <= high
    ensures low <= OverallConfidence(d) <= high
  {
    hide Fields, Sum;
    var n := |Fields(d)| as real;
    SumBetween(Fields(d), low, high);
    Quotients(n * low, Sum(Fields(d)), n);
    Quotients(Sum(Fields(d)), n * high, n);
    Times(n, low);
    Times(n, high);
  }

  lemma Times(n: real, x: real)
    requires n > 0.0
    ensures n * x / n == x
  {
  }

  lemma {:induction false} SumOfChanged(a: seq<DraftField>, b: seq<DraftField>, k: nat)
    requires |a| == |b| && k < |a| && forall j | 0 <= j < |a| && j != k :: b[j].confidence == a[j].confidence
    ensures Sum(b) == Sum(a) + b[k].confidence - a[k].confidence
    decreases |a|
  {
    var m := |a| - 1;
    if k < m {
      SumOfChanged(a[..m], b[..m], k);
    } else {
      SumNoLess(a[..m], b[..m]);
      SumNoLess(b[..m], a[..m]);
    }
  }

  /** The correction of a listed field raises overall confidence by that field's share of what it lacked. */
  lemma OverallRises(reader: Reader, inherited: set<string>, d: Draft, k: nat, raw: string)
    requires Valid(d) && ReadsDecimals(reader) && k < |Fields(d)|
    requires ApplyCorrection(reader, inherited, d, Fields(d)[k].path, raw).Corrected?
    ensures var e := ApplyCorrection(reader, inherited, d, Fields(d)[k].path, raw).draft;
            OverallConfidence(e) == OverallConfidence(d) + (1.0 - Fields(d)[k].confidence) / |Fields(d)| as real
  {
    hide ApplyCorrection, Sum, Fields, Valid;
    var e := ApplyCorrection(reader, inherited, d, Fields(d)[k].path, raw).draft;
    CorrectionChangesOneField(reader, inherited, d, k, raw);
    SumOfChanged(Fields(d), Fields(e), k);
    Shares(Sum(Fields(d)), 1.0 - Fields(d)[k].confidence, |Fields(d)| as real);
  }

  lemma Shares(a: real, b: real, n: real)
    requires n > 0.0
    ensures (a + b) / n == a / n + b / n
  {
  }

  lemma Quotients(a: real, b: real, n: real)
    requires a <= b && n > 0.0
    ensures a / n <= b / n
  {
  }

  // ----- A whole session of corrections -----

  datatype Correction = Correction(path: string, raw: string)

  /** Corrections one after another, each on the draft the one before it left; none if one fails. */
  ghost function ApplyAll(reader: Reader, inherited: set<string>, d: Draft, corrections: seq<Correction>): Option<Draft>
    decreases |corrections|
  {
    if corrections == [] then Some(d)
    else
      var first := ApplyCorrection(reader, inherited, d, corrections[0].path, corrections[0].raw);
      if first.Corrected? then ApplyAll(reader, inherited, first.draft, corrections[1..]) else None
  }

  lemma {:induction false} BelowExactly(fields: seq<DraftField>, threshold: real)
    ensures forall f :: f in Below(fields, threshold) <==> f in fields && f.confidence < threshold
    decreases |fields|
  {
    if fields != [] {
      BelowExactly(fields[..|fields| - 1], threshold);
      assert fields == fields[..|fields| - 1] + [fields[|fields| - 1]];
    }
  }

  lemma CorrectedIsSure(reader: Reader, inherited: set<string>, d: Draft, k: nat, raw: string)
    requires Valid(d) && ReadsDecimals(reader) && k < |Fields(d)|
    requires ApplyCorrection(reader, inherited, d, Fields(d)[k].path, raw).Corrected?
    ensures var e := ApplyCorrection(reader, inherited, d, Fields(d)[k].path, raw).draft;
            k < |Fields(e)| && Fields(e)[k].confidence == 1.0
  {
    CorrectionChangesOneField(reader, inherited, d, k, raw);
  }

  /** After a session, a field is at least as sure as it was, and one that was corrected is certain. */
  lemma {:induction false} SessionMakesSure(reader: Reader, inherited: set<string>, d: Draft,
      corrections: seq<Correction>, k: nat)
    requires Valid(d) && ReadsDecimals(reader) && k < |Fields(d)|
    requires ApplyAll(reader, inherited, d, corrections).Some?
    ensures var e := ApplyAll(reader, inherited, d, corrections).value;
            && PlacesOf(e) == PlacesOf(d) && Valid(e)
            && Fields(e)[k].path == Fields(d)[k].path
            && Fields(e)[k].confidence >= Fields(d)[k].confidence
            && ((exists c :: c in corrections && c.path == Fields(d)[k].path) ==> Fields(e)[k].confidence == 1.0)
    decreases |corrections|
  {
    hide ApplyCorrection, Valid, PlacesOf, Shown;
    if corrections != [] {
      var c := corrections[0];
      var next := ApplyCorrection(reader, inherited, d, c.path, c.raw).draft;
      CorrectionNoLessSure(reader, inherited, d, c.path, c.raw);
      CorrectedIsValid(reader, inherited, d, c.path, c.raw);
      SessionMakesSure(reader, inherited, next, corrections[1..], k);
      var e := ApplyAll(reader, inherited, d, corrections).value;
      SureAtMostOne(e, k);
      if c.path == Fields(d)[k].path {
        CorrectedIsSure(reader, inherited, d, k, c.raw);
      } else {
        assert forall x | x in corrections :: x == c || x in corrections[1..];
      }
    }
  }

  lemma SureAtMostOne(d: Draft, k: nat)
    requires Valid(d) && k < |Fields(d)|
    ensures Fields(d)[k].confidence <= 1.0
  {
    assert FieldOk(PlacesOf(d)[k], Get(d, PlacesOf(d)[k]));
  }

  /**
   Correcting every low-confidence field, in any order and among other corrections, leaves none: for a
   threshold up to one.
   */
  lemma SessionEmptiesList(reader: Reader, inherited: set<string>, d: Draft, corrections: seq<Correction>,
      threshold: real)
    requires Valid(d) && ReadsDecimals(reader) && threshold <= 1.0
    requires ApplyAll(reader, inherited, d, corrections).Some?
    requires forall f | f in LowConfidenceFields(d, threshold) :: exists c :: c in corrections && c.path == f.path
    ensures LowConfidenceFields(ApplyAll(reader, inherited, d, corrections).value, threshold) == []
  {
    hide ApplyAll, Valid, Below, Shown, PlacesOf;
    var e := ApplyAll(reader, inherited, d, corrections).value;
    BelowExactly(Fields(d), threshold);
    SessionKeepsPlaces(reader, inherited, d, corrections);
    forall f | f in Fields(e)
      ensures f.confidence >= threshold
    {
      var k: nat :| k < |Fields(e)| && Fields(e)[k] == f;
      SessionMakesSure(reader, inherited, d, corrections, k);
      assert Fields(d)[k] in Fields(d);
    }
    NoneBelow(Fields(e), threshold);
  }

  lemma {:induction false} NoneBelow(fields: seq<DraftField>, threshold: real)
    requires forall f | f in fields :: f.confidence >= threshold
    ensures Below(fields, threshold) == []
    decreases |fields|
  {
    if fields != [] {
      NoneBelow(fields[..|fields| - 1], threshold);
      assert fields[|fields| - 1] in fields;
    }
  }

  lemma SessionKeepsPlaces(reader: Reader, inherited: set<string>, d: Draft, corrections: seq<Correction>)
    requires Valid(d) && ReadsDecimals(reader) && ApplyAll(reader, inherited, d, corrections).Some?
    ensures |Fields(ApplyAll(reader, inherited, d, corrections).value)| == |Fields(d)|
  {
    SessionMakesSure(reader, inherited, d, corrections, 0);
  }

  /** Above one, the list can never be emptied: the threshold is met exactly when it is at most one. */
  lemma AboveOneNeverEmpty(d: Draft, threshold: real)
    requires Valid(d) && threshold > 1.0
    ensures |LowConfidenceFields(d, threshold)| == |Fields(d)|
  {
    hide Shown, PlacesOf, Valid;
    forall k: nat | k < |Fields(d)|
      ensures Fields(d)[k].confidence < threshold
    {
      SureAtMostOne(d, k);
    }
    AllBelow(Fields(d), threshold);
  }

  lemma {:induction false} AllBelow(fields: seq<DraftField>, threshold: real)
    requires forall f | f in fields :: f.confidence < threshold
    ensures Below(fields, threshold) == fields
    decreases |fields|
  {
    if fields != [] {
      AllBelow(fields[..|fields| - 1], threshold);
      assert fields[|fields| - 1] in fields;
    }
  }

  // ----- Captions -----

  /** A caption's first two and last characters tell the kind of place. */
  lemma CaptionEnds(p: Place)
    ensures var c := Caption(p);
            && |c| >= 4
            && (c[0] == 'I' <==> p.Description? || p.Quantity? || p.Price?)
            && (c[0] == 'I' ==> (p.Description? <==> IsDigit(c[|c| - 1])) && (p.Price? <==> c[|c| - 1] == 'e'))
            && (c[..2] == "Co" <==> p.Complaint?) && (c[..2] == "Cu" <==> p.Name?) && (c[..2] == "Ph" <==> p.Phone?)
            && (c[..2] == "Re" <==> p.Registration?) && (c[..2] == "Ma" <==> p.Make?) && (c[..2] == "Mo" <==> p.Model?)
            && (c[..2] == "Od" <==> p.Odometer?) && (c[..2] == "Ad" <==> p.Advisor?)
  {
    hide Decimal, AllDigits;
    if p.Description? {
      DecimalReads(p.index + 1);
      LastDigit(Decimal(p.index + 1));
      assert Caption(p)[|Caption(p)| - 1] == Decimal(p.index + 1)[|Decimal(p.index + 1)| - 1];
    }
    assert Caption(p)[..2] == [Caption(p)[0], Caption(p)[1]];
  }

  lemma LastDigit(s: string)
    requires AllDigits(s) && s != ""
    ensures IsDigit(s[|s| - 1])
  {
  }

  /** Complaints and items are numbered from one. */
  lemma CaptionNumber(p: Place)
    ensures p.Complaint? ==> Caption(p)[..10] == "Complaint " && Caption(p)[10..] == Decimal(p.index + 1)
    ensures p.Description? ==> Caption(p)[..5] == "Item " && Caption(p)[5..] == Decimal(p.index + 1)
    ensures p.Quantity? ==> |Caption(p)| >= 14 && Caption(p)[5..|Caption(p)| - 9] == Decimal(p.index + 1)
    ensures p.Price? ==> |Caption(p)| >= 11 && Caption(p)[5..|Caption(p)| - 6] == Decimal(p.index + 1)
  {
    hide Decimal;
  }

  /** No two fields of a list have one caption. */
  lemma CaptionsDistinct(d: Draft, j: nat, k: nat)
    requires j < k < |Fields(d)|
    ensures Fields(d)[j].caption != Fields(d)[k].caption
  {
    hide Caption, Path, Decimal;
    var p, q := PlacesOf(d)[j], PlacesOf(d)[k];
    PlacesDistinct(d, j, k);
    if Caption(p) == Caption(q) {
      CaptionEnds(p);
      CaptionEnds(q);
      CaptionNumber(p);
      CaptionNumber(q);
      if p.Complaint? || p.Description? || p.Quantity? || p.Price? {
        DecimalInjective(p.index + 1, q.index + 1);
      }
    }
  }

  // ----- Any path -----

  /** The segments name the place; an index is whatever text reads as that number. */
  ghost predicate Names(reader: Reader, segments: seq<string>, p: Place) {
    match p
    case Name => segments == ["customer", "name"]
    case Phone => segments == ["customer", "phone"]
    case Registration => segments == ["vehicle", "registration"]
    case Make => segments == ["vehicle", "make"]
    case Model => segments == ["vehicle", "model"]
    case Odometer => segments == ["vehicle", "odometerKm"]
    case Complaint(i) => |segments| == 2 && segments[0] == "complaints" && reader(segments[1]) == Some(i as real)
    case Description(i) => NamesOfLine(reader, segments, i, "description")
    case Quantity(i) => NamesOfLine(reader, segments, i, "quantityMilli")
    case Price(i) => NamesOfLine(reader, segments, i, "unitPricePaise")
    case Advisor => segments == ["advisorName"]
    case Promised => segments == ["promisedAt"]
  }

  ghost predicate NamesOfLine(reader: Reader, segments: seq<string>, i: nat, leaf: string) {
    |segments| == 3 && segments[0] == "estimateLines" && reader(segments[1]) == Some(i as real) && segments[2] == leaf
  }

  ghost predicate NamesInherited(inherited: set<string>, segments: seq<string>) {
    && |segments| == 2 && segments[1] in inherited
    && (segments[0] == "customer" || segments[0] == "vehicle")
    && (segments[0] == "customer" ==> segments[1] !in {"name", "phone"})
    && (segments[0] == "vehicle" ==> segments[1] !in {"registration", "make", "model", "odometerKm"})
  }

  lemma IndexExactly(reader: Reader, segment: string)
    ensures forall i: int :: IndexOf(reader, segment) == Some(i) <==> reader(segment) == Some(i as real)
  {
  }

  /**
   A path leads to a place exactly when it names it and the draft has it, and else to an inherited property or
   none.
   */
  lemma TargetExactly(reader: Reader, inherited: set<string>, d: Draft, segments: seq<string>)
    requires segments != []
    ensures forall p ::
              Resolve(reader, inherited, d, segments) == Some(At(p)) <==> InDraft(d, p) && Names(reader, segments, p)
    ensures Resolve(reader, inherited, d, segments) == Some(Inherited) <==> NamesInherited(inherited, segments)
  {
    hide IndexOf, Resolve, Names;
    TargetIsNamed(reader, inherited, d, segments);
    forall p | InDraft(d, p) && Names(reader, segments, p)
      ensures Resolve(reader, inherited, d, segments) == Some(At(p))
    {
      NamedIsTarget(reader, inherited, d, segments, p);
    }
  }

  lemma TargetIsNamed(reader: Reader, inherited: set<string>, d: Draft, segments: seq<string>)
    requires segments != []
    ensures var target := Resolve(reader, inherited, d, segments);
            && (target.Some? && target.value.At? ==> Names(reader, segments, target.value.place))
            && (target == Some(Inherited) <==> NamesInherited(inherited, segments))
  {
    hide IndexOf;
    Heads();
    if |segments| >= 2 {
      IndexExactly(reader, segments[1]);
    }
    assert |segments| == 1 ==> segments == [segments[0]];
    assert |segments| == 2 ==> segments == [segments[0], segments[1]];
  }

  lemma NamedIsTarget(reader: Reader, inherited: set<string>, d: Draft, segments: seq<string>, p: Place)
    requires segments != [] && InDraft(d, p) && Names(reader, segments, p)
    ensures Resolve(reader, inherited, d, segments) == Some(At(p))
  {
    hide IndexOf;
    Heads();
    if |segments| >= 2 {
      IndexExactly(reader, segments[1]);
      assert segments[1..][0] == segments[1];
    }
    match p
    case Name =>
    case Phone =>
    case Registration =>
    case Make =>
    case Model =>
    case Odometer =>
    case Complaint(i) =>
      assert IndexOf(reader, segments[1]) == Some(i);
    case Description(i) =>
      assert IndexOf(reader, segments[1]) == Some(i) && segments[1..][1] == segments[2];
    case Quantity(i) =>
      assert IndexOf(reader, segments[1]) == Some(i) && segments[1..][1] == segments[2];
    case Price(i) =>
      assert IndexOf(reader, segments[1]) == Some(i) && segments[1..][1] == segments[2];
    case Advisor =>
    case Promised =>
  }

  lemma Heads()
    ensures "complaints" != "estimateLines" && "customer" != "vehicle" && "advisorName" != "promisedAt"
  {
    assert |"complaints"| != |"estimateLines"| && |"customer"| != |"vehicle"| && |"advisorName"| != |"promisedAt"|;
  }

  /**
   What correcting by any path does: to the place it names as by that place's own path, to the draft nothing where it
   names an inherited property, and otherwise the field is unknown.
   */
  lemma AnyPathCorrects(reader: Reader, inherited: set<string>, d: Draft, path: string, raw: string)
    requires Valid(d)
    ensures var result := ApplyCorrection(reader, inherited, d, path, raw);
            && (forall p | InDraft(d, p) && Names(reader, Split(path), p) ::
                  var value := Coerce(reader, path, raw, Some(Get(d, p).value));
                  && (result.UnknownField? <==> value.None?)
                  && (result.Corrected? <==> value.Some? && ValueOk(p, value.value))
                  && (result.Corrected? ==>
                        && result.draft == Put(d, p, Field(value.value, 1.0, Get(d, p).region))
                        && result.previousValue == Render(Get(d, p).value)))
            && (NamesInherited(inherited, Split(path)) ==>
                  result == if Coerce(reader, path, raw, None).None? then UnknownField else Corrected(d, DASH))
            && (!NamesInherited(inherited, Split(path)) ==>
                  result == UnknownField || exists p :: InDraft(d, p) && Names(reader, Split(path), p))
  {
    hide Coerce, Split, Get, Put, Resolve, Names, NamesInherited, Valid, FieldOk, ValueOk;
    TargetExactly(reader, inherited, d, Split(path));
    forall p | InDraft(d, p) && Names(reader, Split(path), p)
      ensures var value := Coerce(reader, path, raw, Some(Get(d, p).value));
              value.Some? ==> (Valid(Put(d, p, Field(value.value, 1.0, Get(d, p).region))) <==> ValueOk(p, value.value))
    {
      var value := Coerce(reader, path, raw, Some(Get(d, p).value));
      if value.Some? {
        PutOk(d, p, value.value);
      }
    }
  }

  lemma PutOk(d: Draft, p: Place, value: Value)
    requires Valid(d) && InDraft(d, p)
    ensures Valid(Put(d, p, Field(value, 1.0, Get(d, p).region))) <==> ValueOk(p, value)
  {
    hide Valid, Put, Get, ValueOk;
    PutValid(d, p, Field(value, 1.0, Get(d, p).region));
    FieldIsOk(d, p);
  }

  lemma FieldIsOk(d: Draft, p: Place)
    requires Valid(d) && InDraft(d, p)
    ensures FieldOk(p, Get(d, p))
  {
  }

  // ----- What retyping and clearing do -----

  /** The last two characters of a path tell prices and quantities from the rest. */
  lemma PathTail(p: Place)
    ensures var path := Path(p);
            && |path| >= 2
            && ((path[|path| - 2] == 's' && path[|path| - 1] == 'e') <==> p.Price?)
            && ((path[|path| - 2] == 'l' && path[|path| - 1] == 'i') <==> p.Quantity?)
  {
    hide Decimal;
    if p.Complaint? {
      DecimalReads(p.index);
      assert Path(p)[|Path(p)| - 1] == Decimal(p.index)[|Decimal(p.index)| - 1];
    }
  }

  lemma EndsWithTail(s: string, end: string)
    requires |end| >= 2 && EndsWith(s, end)
    ensures s[|s| - 2] == end[|end| - 2] && s[|s| - 1] == end[|end| - 1]
  {
    assert s[|s| - |end|..][|end| - 2] == s[|s| - 2];
  }

  lemma AppendEndsWith(front: string, end: string)
    ensures EndsWith(front + end, end)
  {
  }

  lemma PathEnds(p: Place)
    ensures EndsWith(Path(p), "unitPricePaise") <==> p.Price?
    ensures EndsWith(Path(p), "quantityMilli") <==> p.Quantity?
    ensures Path(p) == "vehicle.odometerKm" <==> p.Odometer?
  {
    hide Decimal, Path, EndsWith;
    PathTail(p);
    PathOf(p);
    if p.Price? {
      AppendEndsWith("estimateLines." + Decimal(p.index) + ".", "unitPricePaise");
    } else if p.Quantity? {
      AppendEndsWith("estimateLines." + Decimal(p.index) + ".", "quantityMilli");
    }
    if EndsWith(Path(p), "unitPricePaise") {
      EndsWithTail(Path(p), "unitPricePaise");
    }
    if EndsWith(Path(p), "quantityMilli") {
      EndsWithTail(Path(p), "quantityMilli");
    }
    OdometerPath();
    if Path(p) == Path(Odometer) {
      PathInjective(p, Odometer);
    }
  }

  lemma OdometerPath()
    ensures Path(Odometer) == "vehicle.odometerKm"
  {
  }

  lemma {:induction false} DigitsKept(s: string, drop: char -> bool)
    requires AllDigits(s) && forall c | IsDigit(c) :: !drop(c)
    ensures Without(s, drop) == s
  {
    if s != "" {
      DigitsKept(s[1..], drop);
      assert IsDigit(s[0]);
    }
  }

  lemma DigitsTrimmed(s: string)
    requires AllDigits(s)
    ensures Trim(s) == s && WithoutUnit(s) == s
  {
    assert s != "" ==> !IsSpace(s[0]) && !IsSpace(s[|s| - 1]);
  }

  /**
   A price is shown in paise and typed in rupees: retyping what is shown makes it a hundredfold, or is rejected
   where that is over the limit, so the price stays exactly when it is zero.
   */
  lemma PriceRetyped(reader: Reader, inherited: set<string>, d: Draft, i: nat)
    requires Valid(d) && ReadsDecimals(reader) && i < |d.lines| && d.lines[i].unitPricePaise.value.Number?
    ensures var price := d.lines[i].unitPricePaise.value;
            var result := ApplyCorrection(reader, inherited, d, Path(Price(i)), Render(price));
            && (result.Corrected? <==> 100 * price.number <= 100_000_000)
            && (result.Corrected? ==>
                  && i < |result.draft.lines|
                  && result.draft.lines[i].unitPricePaise.value == Number(100 * price.number)
                  && (result.draft.lines[i].unitPricePaise.value == price <==> price.number == 0))
  {
    hide ApplyCorrection, Valid, Split, Resolve, Path, Coerce, Decimal;
    var n := ValidPrice(d, i);
    CorrectsExactly(reader, inherited, d, Price(i), Render(d.lines[i].unitPricePaise.value));
    PathEnds(Price(i));
    PriceRead(reader, Path(Price(i)), n, Some(d.lines[i].unitPricePaise.value));
    PutThenGet(d, Price(i), Field(Number(100 * n), 1.0, d.lines[i].unitPricePaise.region), Price(i));
  }

  lemma PriceRead(reader: Reader, path: string, n: nat, previous: Option<Value>)
    requires ReadsDecimals(reader) && EndsWith(path, "unitPricePaise")
    ensures Coerce(reader, path, Decimal(n), previous) == Some(Number(100 * n))
  {
    hide Trim, Without, Decimal;
    DecimalReads(n);
    DigitsTrimmed(Decimal(n));
    DigitsKept(Decimal(n), c => c == RUPEE || c == ',' || IsSpace(c));
    assert n as real * 100.0 == (100 * n) as real;
    WholeRounds(100 * n);
  }

  // ----- An odometer reading typed with its unit -----

  lemma {:induction false} TrimRightSpaces(s: string, back: string)
    requires IsBlank(back)
    ensures TrimRight(s + back) == TrimRight(s)
    decreases |back|
  {
    hide IsSpace;
    if back == "" {
      assert s + back == s;
    } else {
      var front := back[..|back| - 1];
      assert (s + back)[..|s + back| - 1] == s + front;
      TrimRightSpaces(s, front);
    }
  }

  /** Text that is not all spaces keeps what follows it when it is trimmed on the left. */
  lemma {:induction false} TrimLeftKeeps(s: string, back: string)
    requires !IsBlank(s)
    ensures TrimLeft(s + back) == TrimLeft(s) + back && TrimLeft(s) != ""
  {
    hide IsSpace;
    if IsSpace(s[0]) {
      assert (s + back)[1..] == s[1..] + back;
      assert !IsBlank(s[1..]);
      TrimLeftKeeps(s[1..], back);
    }
  }

  /** What may stand anywhere in a typed number and says nothing: commas and space. */
  predicate Grouping(c: char) {
    c == ',' || IsSpace(c)
  }

  lemma {:induction false} KeptOrDropped(s: string, i: nat)
    requires i < |s| && !Grouping(s[i])
    ensures s[i] in Without(s, Grouping)
  {
    if i > 0 {
      KeptOrDropped(s[1..], i - 1);
    }
  }

  lemma {:induction false} OnlySpacesDropped(s: string)
    requires IsBlank(s)
    ensures Without(s, Grouping) == ""
  {
    hide IsSpace;
    if s != "" {
      OnlySpacesDropped(s[1..]);
    }
  }

  /** Nothing but digits, commas and spaces ends in no unit. */
  lemma NoUnit(s: string)
    requires AllDigits(Without(s, Grouping))
    ensures WithoutUnit(Trim(s)) == Trim(s)
  {
    hide TrimLeft, TrimRight, Without, IsSpace;
    var t := Trim(s);
    if t != "" {
      TrimLeftExactly(s);
      TrimRightExactly(TrimLeft(s));
      var k := |s| - |TrimLeft(s)| + |t| - 1;
      assert s[k] == TrimLeft(s)[|t| - 1] == t[|t| - 1];
      if Lower(s[k]) == 'm' {
        assert !Grouping(s[k]) by { SpacesExactly(s[k]); }
        KeptOrDropped(s, k);
      }
    }
  }

  /** What is read of a typed reading is the number without its grouping, with or without a unit after it. */
  lemma UnitDropped(front: string, unit: string, back: string)
    requires AllDigits(Without(front, Grouping)) && Without(front, Grouping) != ""
    requires unit in {"", "km", "Km", "kM", "KM"} && IsBlank(back)
    ensures Without(WithoutUnit(Trim(front + unit + back)), c => c == ',' || IsSpace(c)) == Without(front, Grouping)
    ensures Trim(front + unit + back) != ""
  {
    hide TrimLeft, TrimRight, Without, IsSpace, AllDigits;
    if IsBlank(front) {
      OnlySpacesDropped(front);
    }
    TrimRightSpaces(TrimLeft(front) + unit, back);
    TrimLeftKeeps(front, unit + back);
    assert front + unit + back == front + (unit + back);
    assert TrimLeft(front) + (unit + back) == TrimLeft(front) + unit + back;
    assert Trim(front + unit + back) == TrimRight(TrimLeft(front) + unit);
    TrimLeftWithout(front, Grouping);
    if unit == "" {
      assert TrimLeft(front) + unit == TrimLeft(front);
      NoUnit(front);
      TrimRightWithout(TrimLeft(front), Grouping);
      SameDropped(Trim(front), Grouping, c => c == ',' || IsSpace(c));
    } else {
      UnitEnds(TrimLeft(front), unit);
      SameDropped(TrimLeft(front), Grouping, c => c == ',' || IsSpace(c));
    }
    NothingDropped();
  }

  lemma NothingDropped()
    ensures WithoutUnit("") == "" && Without("", c => c == ',' || IsSpace(c)) == ""
  {
  }

  /** Nothing but the unit is ever taken for it. */
  lemma UnitExactly(s: string)
    ensures WithoutUnit(s) != s <==> exists unit :: unit in {"km", "Km", "kM", "KM"} && s == WithoutUnit(s) + unit
  {
    if |s| >= 2 {
      LowerExactly(s[|s| - 2], 'k');
      LowerExactly(s[|s| - 1], 'm');
      if WithoutUnit(s) != s {
        assert s == s[..|s| - 2] + [s[|s| - 2], s[|s| - 1]];
        assert [s[|s| - 2], s[|s| - 1]] in {"km", "Km", "kM", "KM"};
      }
    }
  }

  lemma UnitEnds(s: string, unit: string)
    requires unit in {"km", "Km", "kM", "KM"}
    ensures TrimRight(s + unit) == s + unit && WithoutUnit(s + unit) == s
  {
    var t := s + unit;
    assert t[|t| - 1] == unit[1] && t[|t| - 2] == unit[0] && t[..|s|] == s;
    SpacesExactly(unit[1]);
  }

  /**
   An odometer reading typed with any grouping, spaces around it, and the unit after it in either case is stored as the
   number, or is rejected where that is over the limit.
   */
  lemma OdometerTyped(reader: Reader, inherited: set<string>, d: Draft, front: string, unit: string, back: string,
      n: nat)
    requires Valid(d) && ReadsDecimals(reader) && Without(front, Grouping) == Decimal(n)
    requires unit in {"", "km", "Km", "kM", "KM"} && IsBlank(back)
    ensures var result := ApplyCorrection(reader, inherited, d, Path(Odometer), front + unit + back);
            && (result.Corrected? <==> n <= 2_000_000)
            && (result.Corrected? ==> result.draft.odometerKm.value == Number(n))
  {
    hide ApplyCorrection, Valid, Split, Resolve, Path, Decimal, Without, WithoutUnit, Trim, EndsWith;
    CorrectsExactly(reader, inherited, d, Odometer, front + unit + back);
    OdometerPath();
    PathEnds(Odometer);
    DecimalReads(n);
    UnitDropped(front, unit, back);
    WholeRounds(n);
  }

  // ----- Prices typed with two decimals -----

  /** What may stand anywhere in a typed price and says nothing: rupee signs, commas and space. */
  predicate Ornamental(c: char) {
    c == RUPEE || c == ',' || IsSpace(c)
  }

  lemma {:induction false} SameDropped(s: string, drop: char -> bool, other: char -> bool)
    requires forall c :: drop(c) <==> other(c)
    ensures Without(s, drop) == Without(s, other)
  {
    if s != "" {
      SameDropped(s[1..], drop, other);
    }
  }

  lemma {:induction false} WithoutAppend(s: string, t: string, drop: char -> bool)
    ensures Without(s + t, drop) == Without(s, drop) + Without(t, drop)
  {
    if s == "" {
      assert s + t == t;
    } else {
      assert (s + t)[1..] == s[1..] + t;
      WithoutAppend(s[1..], t, drop);
    }
  }

  lemma {:induction false} TrimLeftWithout(s: string, drop: char -> bool)
    requires forall c | IsSpace(c) :: drop(c)
    ensures Without(TrimLeft(s), drop) == Without(s, drop)
  {
    if s != "" && IsSpace(s[0]) {
      TrimLeftWithout(s[1..], drop);
    }
  }

  lemma {:induction false} TrimRightWithout(s: string, drop: char -> bool)
    requires forall c | IsSpace(c) :: drop(c)
    ensures Without(TrimRight(s), drop) == Without(s, drop)
    decreases |s|
  {
    if s != "" && IsSpace(s[|s| - 1]) {
      var front, last := s[..|s| - 1], s[|s| - 1..];
      TrimRightWithout(front, drop);
      WithoutAppend(front, last, drop);
      assert s == front + last && last[1..] == "";
    }
  }

  /** What is read of a typed price is what is left of it without ornaments, wherever they stand. */
  lemma OrnamentsDropped(raw: string)
    ensures Without(Trim(raw), c => c == RUPEE || c == ',' || IsSpace(c)) == Without(raw, Ornamental)
  {
    hide IsSpace, Without, TrimLeft, TrimRight;
    TrimLeftWithout(raw, Ornamental);
    TrimRightWithout(TrimLeft(raw), Ornamental);
    SameDropped(Trim(raw), Ornamental, c => c == RUPEE || c == ',' || IsSpace(c));
  }

  /**
   A price typed in rupees with two decimals, whatever ornaments stand in it, is stored as that many paise to the
   last, or is rejected where that is over the limit.
   */
  lemma PriceTyped(reader: Reader, inherited: set<string>, d: Draft, i: nat, raw: string, rupees: string, paise: string)
    requires Valid(d) && ReadsDecimals(reader) && i < |d.lines|
    requires rupees != "" && AllDigits(rupees) && AllDigits(paise) && |paise| == 2
    requires Without(raw, Ornamental) == rupees + "." + paise
    ensures var result := ApplyCorrection(reader, inherited, d, Path(Price(i)), raw);
            var amount := 100 * Whole(rupees) + Whole(paise);
            && (result.Corrected? <==> amount <= 100_000_000)
            && (result.Corrected? ==>
                i < |result.draft.lines| && result.draft.lines[i].unitPricePaise.value == Number(amount))
  {
    hide ApplyCorrection, Valid, Split, Resolve, Path, Without, Trim, Whole, EndsWith, AllDigits;
    CorrectsExactly(reader, inherited, d, Price(i), raw);
    PathEnds(Price(i));
    OrnamentsDropped(raw);
    var amount := 100 * Whole(rupees) + Whole(paise);
    assert (Whole(rupees) as real + Whole(paise) as real / 100.0) * 100.0 == amount as real;
    WholeRounds(amount);
    PutThenGet(d, Price(i), Field(Number(amount), 1.0, d.lines[i].unitPricePaise.region), Price(i));
  }

  lemma {:induction false} CommasDropped(s: string)
    requires forall c | c in s :: IsDigit(c) || c == ','
    ensures Without(s, Ornamental) == WithoutCommas(s)
    decreases |s|
  {
    if s != "" {
      var front, last := s[..|s| - 1], s[|s| - 1..];
      CommasDropped(front);
      WithoutAppend(front, last, Ornamental);
      assert s == front + last && last[1..] == "";
      assert s[|s| - 1] in s;
    }
  }

  lemma PrintedBare(amount: nat, withSymbol: bool)
    ensures Without(FormatPaise(amount, withSymbol), Ornamental)
         == WithoutCommas(Grouped(amount / 100)) + "." + Pair(amount % 100)
  {
    hide Without, WithoutCommas, Grouped, Pair;
    var grouped, pair := Grouped(amount / 100), Pair(amount % 100);
    GroupedShape(amount / 100);
    CommasDropped(grouped);
    PairDigits(amount % 100);
    DigitsKept(pair, Ornamental);
    SymbolAndPoint();
    WithoutAppend(if withSymbol then [RUPEE] else "", grouped, Ornamental);
    WithoutAppend((if withSymbol then [RUPEE] else "") + grouped, ".", Ornamental);
    WithoutAppend((if withSymbol then [RUPEE] else "") + grouped + ".", pair, Ornamental);
  }

  lemma SymbolAndPoint()
    ensures Without([RUPEE], Ornamental) == "" && Without("", Ornamental) == "" && Without(".", Ornamental) == "."
  {
    assert [RUPEE][1..] == "" && "."[1..] == "";
  }

  /** A price typed as money is printed, with or without the symbol, is stored as that amount. */
  lemma PrintedPriceTyped(reader: Reader, inherited: set<string>, d: Draft, i: nat, amount: nat, withSymbol: bool)
    requires Valid(d) && ReadsDecimals(reader) && i < |d.lines|
    ensures var result := ApplyCorrection(reader, inherited, d, Path(Price(i)), FormatPaise(amount, withSymbol));
            && (result.Corrected? <==> amount <= 100_000_000)
            && (result.Corrected? ==>
                i < |result.draft.lines| && result.draft.lines[i].unitPricePaise.value == Number(amount))
  {
    hide ApplyCorrection, Valid, Path, Without, Whole, Grouped, Pair, FormatPaise, WithoutCommas;
    var rupees, paise := WithoutCommas(Grouped(amount / 100)), Pair(amount % 100);
    PrintedBare(amount, withSymbol);
    GroupedReads(amount / 100);
    GroupedDigits(amount / 100);
    PairReads(amount % 100);
    PriceTyped(reader, inherited, d, i, FormatPaise(amount, withSymbol), rupees, paise);
  }

  lemma PairReads(n: nat)
    requires n < 100
    ensures AllDigits(Pair(n)) && Whole(Pair(n)) == n
  {
    WholeOfPair("", n);
    assert "" + Pair(n) == Pair(n);
  }

  /** A grouped number has a digit, and so has it without commas. */
  lemma GroupedDigits(n: nat)
    ensures WithoutCommas(Grouped(n)) != ""
  {
    GroupedShape(n);
    var s := Grouped(n);
    assert s == s[..1] + s[1..];
    WithoutCommasAppend(s[..1], s[1..]);
    assert WithoutCommas(s[..1]) == WithoutCommas(s[..1][..0]) + [s[0]];
  }

  lemma ValidPrice(d: Draft, i: nat) returns (n: nat)
    requires Valid(d) && i < |d.lines| && d.lines[i].unitPricePaise.value.Number?
    ensures d.lines[i].unitPricePaise.value == Number(n)
  {
    assert FieldOk(Price(i), Get(d, Price(i)));
    n := d.lines[i].unitPricePaise.value.number;
  }

  /** An odometer reading retyped as it is shown stays what it is. */
  lemma OdometerRetyped(reader: Reader, inherited: set<string>, d: Draft)
    requires Valid(d) && ReadsDecimals(reader) && d.odometerKm.value.Number?
    ensures var result := ApplyCorrection(reader, inherited, d, Path(Odometer), Render(d.odometerKm.value));
            result.Corrected? && result.draft.odometerKm == d.odometerKm.(confidence := 1.0)
  {
    hide ApplyCorrection, Valid, Split, Resolve, Path, Coerce, Decimal;
    var n := ValidOdometer(d);
    CorrectsExactly(reader, inherited, d, Odometer, Render(d.odometerKm.value));
    OdometerPath();
    OdometerRead(reader, n, Some(d.odometerKm.value));
  }

  lemma ValidOdometer(d: Draft) returns (n: nat)
    requires Valid(d) && d.odometerKm.value.Number?
    ensures d.odometerKm.value == Number(n) && n <= 2_000_000
  {
    assert FieldOk(Odometer, Get(d, Odometer));
    n := d.odometerKm.value.number;
  }

  lemma OdometerRead(reader: Reader, n: nat, previous: Option<Value>)
    requires ReadsDecimals(reader)
    ensures Coerce(reader, "vehicle.odometerKm", Decimal(n), previous) == Some(Number(n))
  {
    hide Trim, Without, Decimal, WithoutUnit, EndsWith;
    PathEnds(Odometer);
    OdometerPath();
    DecimalReads(n);
    DigitsTrimmed(Decimal(n));
    DigitsKept(Decimal(n), c => c == ',' || IsSpace(c));
    WholeRounds(n);
  }

  /** A whole number typed for a quantity is that many units, each a thousand of the field's. */
  lemma QuantityTyped(reader: Reader, inherited: set<string>, d: Draft, i: nat, n: nat)
    requires Valid(d) && ReadsDecimals(reader) && i < |d.lines|
    ensures var result := ApplyCorrection(reader, inherited, d, Path(Quantity(i)), Decimal(n));
            && (result.Corrected? <==> 1 <= n <= 1000)
            && (result.UnknownField? <==> n == 0)
            && (result.Corrected? ==>
                i < |result.draft.lines| && result.draft.lines[i].quantityMilli.value == Number(1000 * n))
  {
    hide ApplyCorrection, Valid, Split, Resolve, Path, Coerce, Decimal;
    CorrectsExactly(reader, inherited, d, Quantity(i), Decimal(n));
    QuantityRead(reader, i, n, Some(d.lines[i].quantityMilli.value));
  }

  lemma QuantityRead(reader: Reader, i: nat, n: nat, previous: Option<Value>)
    requires ReadsDecimals(reader)
    ensures Coerce(reader, Path(Quantity(i)), Decimal(n), previous) == if n == 0 then None else Some(Number(1000 * n))
  {
    hide Trim, Without, Decimal, EndsWith, Path;
    PathEnds(Quantity(i));
    DecimalReads(n);
    DigitsTrimmed(Decimal(n));
    DigitsKept(Decimal(n), c => c == ',' || IsSpace(c));
    assert n as real * 1000.0 == (1000 * n) as real;
    WholeRounds(1000 * n);
  }

  lemma ValidText(d: Draft, p: Place)
    requires Valid(d) && InDraft(d, p)
    ensures ValueOk(p, Get(d, p).value)
  {
    assert FieldOk(p, Get(d, p));
  }

  predicate HoldsText(p: Place) {
    !p.Price? && !p.Quantity? && !p.Odometer?
  }

  /** How short and how long a text may be. */
  function TextBounds(p: Place): (nat, nat)
    requires HoldsText(p)
  {
    match p
    case Name => (0, 120)
    case Phone => (0, 32)
    case Registration => (0, 24)
    case Make => (0, 60)
    case Model => (0, 60)
    case Complaint(_) => (1, 400)
    case Description(_) => (1, 200)
    case Advisor => (0, 120)
    case Promised => (0, 64)
  }

  /**
   What is typed for a text is taken exactly when it fits without the space around it, and is then what is stored;
   blank text leaves what was null as it was.
   */
  lemma TextTyped(reader: Reader, inherited: set<string>, d: Draft, p: Place, raw: string)
    requires Valid(d) && ReadsDecimals(reader) && InDraft(d, p) && HoldsText(p)
    ensures var result := ApplyCorrection(reader, inherited, d, Path(p), raw);
            && (result.Corrected? <==> TextBounds(p).0 <= |Trim(raw)| <= TextBounds(p).1)
            && (!result.Corrected? ==> result.Rejected?)
            && (result.Corrected? ==>
                  && InDraft(result.draft, p)
                  && Get(result.draft, p).value
                     == if IsBlank(raw) && Get(d, p).value == Null then Null else Text(Trim(raw)))
  {
    hide ApplyCorrection, Valid, Split, Resolve, Path, Trim;
    CorrectsExactly(reader, inherited, d, p, raw);
    PathEnds(p);
    TrimExactly(raw);
    if Get(d, p).value == Null {
      NullFits(d, p);
    }
  }

  lemma NullFits(d: Draft, p: Place)
    requires Valid(d) && InDraft(d, p) && Get(d, p).value == Null
    ensures ValueOk(p, Null)
  {
    assert FieldOk(p, Get(d, p));
  }

  /**
   A text retyped as it is shown is refused exactly when it is a complaint or a description of nothing but space;
   otherwise it stays exactly when it has no space around it.
   */
  lemma TextRetyped(reader: Reader, inherited: set<string>, d: Draft, p: Place)
    requires Valid(d) && ReadsDecimals(reader) && InDraft(d, p) && HoldsText(p) && Get(d, p).value.Text?
    ensures var text := Get(d, p).value.text;
            var result := ApplyCorrection(reader, inherited, d, Path(p), text);
            && (result.Corrected? <==> (p.Complaint? || p.Description? ==> Trim(text) != ""))
            && (result.Corrected? ==>
                  InDraft(result.draft, p) && (Get(result.draft, p).value == Text(text) <==> Trim(text) == text))
            && (!result.Corrected? ==> result.Rejected?)
  {
    ValidText(d, p);
    TrimShortens(Get(d, p).value.text);
    hide ApplyCorrection, Valid, Split, Resolve, Path, Trim;
    CorrectsExactly(reader, inherited, d, p, Get(d, p).value.text);
    PathEnds(p);
  }

  /** A blank price is no price withdrawn: it becomes zero, and not nothing. */
  lemma PriceCleared(reader: Reader, inherited: set<string>, d: Draft, i: nat, raw: string)
    requires Valid(d) && ReadsDecimals(reader) && i < |d.lines| && IsBlank(raw)
    ensures var result := ApplyCorrection(reader, inherited, d, Path(Price(i)), raw);
            result.Corrected? && i < |result.draft.lines| && result.draft.lines[i].unitPricePaise.value == Number(0)
  {
    hide ApplyCorrection, Valid, Split, Resolve, Path;
    CorrectsExactly(reader, inherited, d, Price(i), raw);
    PathEnds(Price(i));
    TrimExactly(raw);
    WholeRounds(0);
  }

  predicate NullableText(p: Place) {
    p.Phone? || p.Make? || p.Model? || p.Advisor? || p.Promised?
  }

  /**
   Clearing a nullable text makes it null exactly when it was null already; a text that was there becomes an
   empty one.
   */
  lemma ClearedIsNullExactly(reader: Reader, inherited: set<string>, d: Draft, p: Place, raw: string)
    requires Valid(d) && ReadsDecimals(reader) && NullableText(p) && InDraft(d, p) && IsBlank(raw)
    ensures var result := ApplyCorrection(reader, inherited, d, Path(p), raw);
            && result.Corrected? && InDraft(result.draft, p)
            && Get(result.draft, p).value == if Get(d, p).value == Null then Null else Text("")
  {
    hide ApplyCorrection, Valid, Split, Resolve, Path;
    CorrectsExactly(reader, inherited, d, p, raw);
    PathEnds(p);
    TrimExactly(raw);
  }

  /** An index left out of a path reads as the first one. */
  lemma BlankIndexIsFirst(reader: Reader, inherited: set<string>, d: Draft, raw: string)
    requires Valid(d) && ReadsDecimals(reader) && d.complaints != []
    ensures ApplyCorrection(reader, inherited, d, "complaints.", raw)
            == ApplyCorrection(reader, inherited, d, Path(Complaint(0)), raw)
  {
    hide Split, Coerce, Path, Decimal;
    SplitTwo("complaints", "");
    assert "complaints" + "." + "" == "complaints.";
    assert IndexOf(reader, "") == Some(0);
    PathResolves(reader, inherited, d, Complaint(0));
    PathEnds(Complaint(0));
    NoNumberPath();
    CoercesAlike(reader, "complaints.", Path(Complaint(0)), raw, Some(d.complaints[0].value));
  }

  lemma NoNumberPath()
    ensures !EndsWith("complaints.", "unitPricePaise") && !EndsWith("complaints.", "quantityMilli")
    ensures "complaints." != "vehicle.odometerKm"
  {
    assert "complaints."[10] == '.';
  }

  lemma CoercesAlike(reader: Reader, path: string, other: string, raw: string, previous: Option<Value>)
    requires !EndsWith(path, "unitPricePaise") && !EndsWith(path, "quantityMilli") && path != "vehicle.odometerKm"
    requires !EndsWith(other, "unitPricePaise") && !EndsWith(other, "quantityMilli") && other != "vehicle.odometerKm"
    ensures Coerce(reader, path, raw, previous) == Coerce(reader, other, raw, previous)
  {
    hide EndsWith, Trim;
  }
}
