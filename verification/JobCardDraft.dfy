/**
 A job card's draft: the fields a person is asked to confirm, each with a path and a confidence, and the
 correction of a field by its path. How text reads as a number is left to `reader`.
 */
module JobCardDraft {
  import opened Wrappers
  import opened Characters
  import opened Rounding

  datatype Region = Region(x: real, y: real, width: real, height: real, page: int)
  datatype Value = Null | Text(text: string) | Number(number: int)
  datatype Field = Field(value: Value, confidence: real, region: Option<Region>)

  datatype Line = Line(description: Field, quantityMilli: Field, unitPricePaise: Field)
  datatype Draft = Draft(
    name: Field, phone: Field,
    registration: Field, make: Field, model: Field, odometerKm: Field,
    complaints: seq<Field>,
    lines: seq<Line>,
    advisorName: Field, promisedAt: Field,
    language: string, notes: string)

  // ----- Places in a draft -----

  datatype Place =
    | Name | Phone
    | Registration | Make | Model | Odometer
    | Complaint(index: nat)
    | Description(index: nat) | Quantity(index: nat) | Price(index: nat)
    | Advisor | Promised

  predicate InDraft(d: Draft, p: Place) {
    match p
    case Complaint(i) => i < |d.complaints|
    case Description(i) => i < |d.lines|
    case Quantity(i) => i < |d.lines|
    case Price(i) => i < |d.lines|
    case _ => true
  }

  function Get(d: Draft, p: Place): Field
    requires InDraft(d, p)
  {
    match p
    case Name => d.name
    case Phone => d.phone
    case Registration => d.registration
    case Make => d.make
    case Model => d.model
    case Odometer => d.odometerKm
    case Complaint(i) => d.complaints[i]
    case Description(i) => d.lines[i].description
    case Quantity(i) => d.lines[i].quantityMilli
    case Price(i) => d.lines[i].unitPricePaise
    case Advisor => d.advisorName
    case Promised => d.promisedAt
  }

  function Put(d: Draft, p: Place, f: Field): Draft
    requires InDraft(d, p)
  {
    match p
    case Name => d.(name := f)
    case Phone => d.(phone := f)
    case Registration => d.(registration := f)
    case Make => d.(make := f)
    case Model => d.(model := f)
    case Odometer => d.(odometerKm := f)
    case Complaint(i) => d.(complaints := d.complaints[i := f])
    case Description(i) => d.(lines := d.lines[i := d.lines[i].(description := f)])
    case Quantity(i) => d.(lines := d.lines[i := d.lines[i].(quantityMilli := f)])
    case Price(i) => d.(lines := d.lines[i := d.lines[i].(unitPricePaise := f)])
    case Advisor => d.(advisorName := f)
    case Promised => d.(promisedAt := f)
  }

  lemma PutThenGet(d: Draft, p: Place, f: Field, q: Place)
    requires InDraft(d, p) && InDraft(d, q)
    ensures InDraft(Put(d, p, f), q) && Get(Put(d, p, f), q) == if q == p then f else Get(d, q)
  {
  }

  // ----- What the schema asks -----

  predicate TextUpTo(v: Value, least: nat, most: nat) {
    v.Text? && least <= |v.text| <= most
  }

  predicate NumberWithin(v: Value, least: int, most: int) {
    v.Number? && least <= v.number <= most
  }

  predicate ValueOk(p: Place, v: Value) {
    match p
    case Name => TextUpTo(v, 0, 120)
    case Phone => v.Null? || TextUpTo(v, 0, 32)
    case Registration => TextUpTo(v, 0, 24)
    case Make => v.Null? || TextUpTo(v, 0, 60)
    case Model => v.Null? || TextUpTo(v, 0, 60)
    case Odometer => v.Null? || NumberWithin(v, 0, 2_000_000)
    case Complaint(_) => TextUpTo(v, 1, 400)
    case Description(_) => TextUpTo(v, 1, 200)
    case Quantity(_) => NumberWithin(v, 1, 1_000_000)
    case Price(_) => v.Null? || NumberWithin(v, 0, 100_000_000)
    case Advisor => v.Null? || TextUpTo(v, 0, 120)
    case Promised => v.Null? || TextUpTo(v, 0, 64)
  }

  predicate RegionOk(r: Region) {
    && 0.0 <= r.x <= 1.0 && 0.0 <= r.y <= 1.0 && 0.0 <= r.width <= 1.0 && 0.0 <= r.height <= 1.0 && r.page >= 1
  }

  predicate FieldOk(p: Place, f: Field) {
    ValueOk(p, f.value) && 0.0 <= f.confidence <= 1.0 && (f.region.Some? ==> RegionOk(f.region.value))
  }

  ghost predicate Valid(d: Draft) {
    && |d.complaints| <= 20 && |d.lines| <= 40 && |d.notes| <= 2000
    && forall p | InDraft(d, p) :: FieldOk(p, Get(d, p))
  }

  // ----- The fields a person confirms -----

  datatype DraftField = DraftField(path: string, caption: string, value: string, confidence: real,
      region: Option<Region>)

  const DASH := "\U{2014}"

  function Render(v: Value): string {
    match v
    case Null => DASH
    case Text(t) => t
    case Number(n) => if n < 0 then "-" + Decimal(-n) else Decimal(n)
  }

  function Path(p: Place): string {
    match p
    case Name => "customer.name"
    case Phone => "customer.phone"
    case Registration => "vehicle.registration"
    case Make => "vehicle.make"
    case Model => "vehicle.model"
    case Odometer => "vehicle.odometerKm"
    case Complaint(i) => "complaints." + Decimal(i)
    case Description(i) => "estimateLines." + Decimal(i) + ".description"
    case Quantity(i) => "estimateLines." + Decimal(i) + ".quantityMilli"
    case Price(i) => "estimateLines." + Decimal(i) + ".unitPricePaise"
    case Advisor => "advisorName"
    case Promised => "promisedAt"
  }

  function Caption(p: Place): string {
    match p
    case Name => "Customer"
    case Phone => "Phone"
    case Registration => "Registration"
    case Make => "Make"
    case Model => "Model"
    case Odometer => "Odometer"
    case Complaint(i) => "Complaint " + Decimal(i + 1)
    case Description(i) => "Item " + Decimal(i + 1)
    case Quantity(i) => "Item " + Decimal(i + 1) + " quantity"
    case Price(i) => "Item " + Decimal(i + 1) + " price"
    case Advisor => "Advisor"
    case Promised => "Promised"
  }

  function Shown(d: Draft, p: Place): DraftField
    requires InDraft(d, p)
  {
    var f := Get(d, p);
    DraftField(Path(p), Caption(p), Render(f.value), f.confidence, f.region)
  }

  /** The confirmable places in reading order: who, what vehicle, what is wrong, what it costs. */
  function Places(complaints: nat, lines: nat): seq<Place> {
    [Name, Phone, Registration, Make, Model, Odometer]
    + seq(complaints, i requires 0 <= i < complaints => Complaint(i))
    + seq(2 * lines, i requires 0 <= i < 2 * lines => if i % 2 == 0 then Description(i / 2) else Price(i / 2))
    + [Advisor, Promised]
  }

  function PlacesOf(d: Draft): (places: seq<Place>)
    ensures |places| == 8 + |d.complaints| + 2 * |d.lines|
    ensures forall k | 0 <= k < |places| :: InDraft(d, places[k])
  {
    Places(|d.complaints|, |d.lines|)
  }

  function Fields(d: Draft): (fields: seq<DraftField>)
    ensures |fields| == |PlacesOf(d)|
  {
    var places := PlacesOf(d);
    seq(|places|, k requires 0 <= k < |places| => Shown(d, places[k]))
  }

  lemma PlaceAt(d: Draft, k: nat)
    requires k < |PlacesOf(d)|
    ensures var n := |d.complaints|;
            PlacesOf(d)[k] ==
              if k < 6 then [Name, Phone, Registration, Make, Model, Odometer][k]
              else if k < 6 + n then Complaint(k - 6)
              else if k < 6 + n + 2 * |d.lines|
                  then (if (k - 6 - n) % 2 == 0 then Description((k - 6 - n) / 2) else Price((k - 6 - n) / 2))
              else [Advisor, Promised][k - 6 - n - 2 * |d.lines|]
  {
  }

  /** The fields so far are those of the first places. */
  ghost predicate Listed(d: Draft, fields: seq<DraftField>) {
    |fields| <= |PlacesOf(d)| && forall k | 0 <= k < |fields| :: fields[k] == Shown(d, PlacesOf(d)[k])
  }

  lemma ListedOneMore(d: Draft, fields: seq<DraftField>, p: Place)
    requires Listed(d, fields) && |fields| < |PlacesOf(d)| && PlacesOf(d)[|fields|] == p
    ensures Listed(d, fields + [Shown(d, p)])
  {
    hide Shown, PlacesOf;
  }

  method DraftFields(d: Draft) returns (fields: seq<DraftField>)
    ensures fields == Fields(d)
  {
    hide PlacesOf, Shown, Listed;
    fields := [Shown(d, Name), Shown(d, Phone), Shown(d, Registration), Shown(d, Make), Shown(d, Model),
        Shown(d, Odometer)];
    FirstListed(d);
    for index := 0 to |d.complaints|
      invariant |fields| == 6 + index && Listed(d, fields)
    {
      PlaceAt(d, |fields|);
      ListedOneMore(d, fields, Complaint(index));
      fields := fields + [Shown(d, Complaint(index))];
    }
    for index := 0 to |d.lines|
      invariant |fields| == 6 + |d.complaints| + 2 * index && Listed(d, fields)
    {
      PlaceAt(d, |fields|);
      ListedOneMore(d, fields, Description(index));
      fields := fields + [Shown(d, Description(index))];
      PlaceAt(d, |fields|);
      ListedOneMore(d, fields, Price(index));
      fields := fields + [Shown(d, Price(index))];
    }
    PlaceAt(d, |fields|);
    ListedOneMore(d, fields, Advisor);
    fields := fields + [Shown(d, Advisor)];
    PlaceAt(d, |fields|);
    ListedOneMore(d, fields, Promised);
    fields := fields + [Shown(d, Promised)];
    AllListed(d, fields);
  }

  lemma FirstListed(d: Draft)
    ensures Listed(d, [Shown(d, Name), Shown(d, Phone), Shown(d, Registration), Shown(d, Make), Shown(d, Model),
        Shown(d, Odometer)])
  {
    hide Shown;
  }

  lemma AllListed(d: Draft, fields: seq<DraftField>)
    requires Listed(d, fields) && |fields| == |PlacesOf(d)|
    ensures fields == Fields(d)
  {
    hide Shown;
  }

  function Sum(fields: seq<DraftField>): real {
    if fields == [] then 0.0 else Sum(fields[..|fields| - 1]) + fields[|fields| - 1].confidence
  }

  function OverallConfidence(d: Draft): real {
    Sum(Fields(d)) / (|Fields(d)| as real)
  }

  function Below(fields: seq<DraftField>, threshold: real): seq<DraftField> {
    if fields == [] then []
    else
      var last := fields[|fields| - 1];
      Below(fields[..|fields| - 1], threshold) + if last.confidence < threshold then [last] else []
  }

  function LowConfidenceFields(d: Draft, threshold: real): seq<DraftField> {
    Below(Fields(d), threshold)
  }

  // ----- Resolving a path -----

  /**
   How text reads as a number: as what it says when it is a whole decimal or has two decimals, as zero when it is
   blank, and else in any way or not at all.
   */
  type Reader = string -> Option<real>

  ghost predicate ReadsDecimals(reader: Reader) {
    && reader("") == Some(0.0)
    && (forall n: nat :: reader(Decimal(n)) == Some(n as real))
    && forall s, two | s != "" && AllDigits(s) && AllDigits(two) && |two| == 2 ::
         reader(s + "." + two) == Some(Whole(s) as real + Whole(two) as real / 100.0)
  }

  function Split(path: string): (segments: seq<string>)
    ensures segments != []
  {
    if path == "" then [""]
    else
      var rest := Split(path[1..]);
      if path[0] == '.' then [""] + rest else [[path[0]] + rest[0]] + rest[1..]
  }

  function IndexOf(reader: Reader, segment: string): Option<int> {
    var read := reader(segment);
    if read.Some? && read.value.Floor as real == read.value then Some(read.value.Floor) else None
  }

  /** Where a path leads: a place of the draft, or a property that every object has and no draft keeps. */
  datatype Target = At(place: Place) | Inherited

  function ResolveLeaf(head: string, leaf: string, inherited: set<string>): Option<Target> {
    if head == "customer" && leaf == "name" then Some(At(Name))
    else if head == "customer" && leaf == "phone" then Some(At(Phone))
    else if head == "vehicle" && leaf == "registration" then Some(At(Registration))
    else if head == "vehicle" && leaf == "make" then Some(At(Make))
    else if head == "vehicle" && leaf == "model" then Some(At(Model))
    else if head == "vehicle" && leaf == "odometerKm" then Some(At(Odometer))
    else if leaf in inherited then Some(Inherited)
    else None
  }

  function Resolve(reader: Reader, inherited: set<string>, d: Draft, segments: seq<string>): (target: Option<Target>)
    requires segments != []
    ensures target.Some? && target.value.At? ==> InDraft(d, target.value.place)
  {
    var head, rest := segments[0], segments[1..];
    if head == "complaints" then
      if |rest| != 1 then None
      else
        var index := IndexOf(reader, rest[0]);
        if index.None? || index.value < 0 || index.value >= |d.complaints| then None
            else Some(At(Complaint(index.value)))
    else if head == "estimateLines" then
      if |rest| != 2 then None
      else
        var index := IndexOf(reader, rest[0]);
        if index.None? || index.value < 0 || index.value >= |d.lines| then None
        else if rest[1] == "description" then Some(At(Description(index.value)))
        else if rest[1] == "quantityMilli" then Some(At(Quantity(index.value)))
        else if rest[1] == "unitPricePaise" then Some(At(Price(index.value)))
        else None
    else if head == "customer" || head == "vehicle" then
      if |rest| != 1 then None else ResolveLeaf(head, rest[0], inherited)
    else if head == "advisorName" && rest == [] then Some(At(Advisor))
    else if head == "promisedAt" && rest == [] then Some(At(Promised))
    else None
  }

  // ----- Reading a corrected value -----

  function Without(s: string, drop: char -> bool): string {
    if s == "" then "" else (if drop(s[0]) then "" else [s[0]]) + Without(s[1..], drop)
  }

  predicate EndsWith(s: string, end: string) {
    |end| <= |s| && s[|s| - |end|..] == end
  }

  function WithoutUnit(s: string): string {
    if |s| >= 2 && Lower(s[|s| - 2]) == 'k' && Lower(s[|s| - 1]) == 'm' then s[..|s| - 2] else s
  }

  /** The value a correction gives, or none where the text is no number. The path decides how it is read. */
  function Coerce(reader: Reader, path: string, raw: string, previous: Option<Value>): Option<Value> {
    var trimmed := Trim(raw);
    if EndsWith(path, "unitPricePaise") then
      var rupees := reader(Without(trimmed, c => c == RUPEE || c == ',' || IsSpace(c)));
      if rupees.None? then None else Some(Number(Round(rupees.value * 100.0)))
    else if EndsWith(path, "quantityMilli") then
      var quantity := reader(Without(trimmed, c => c == ',' || IsSpace(c)));
      if quantity.None? || quantity.value <= 0.0 then None else Some(Number(Round(quantity.value * 1000.0)))
    else if path == "vehicle.odometerKm" then
      if trimmed == "" then Some(Null)
      else
        var km := reader(Without(WithoutUnit(trimmed), c => c == ',' || IsSpace(c)));
        if km.None? then None else Some(Number(Round(km.value)))
    else if trimmed == "" && previous == Some(Null) then Some(Null)
    else Some(Text(trimmed))
  }

  // ----- Correcting -----

  datatype Result =
    | Corrected(draft: Draft, previousValue: string)
    | UnknownField
    | Rejected

  ghost function ApplyCorrection(reader: Reader, inherited: set<string>, d: Draft, path: string, raw: string): Result {
    var target := Resolve(reader, inherited, d, Split(path));
    if target.None? then UnknownField
    else if target.value.Inherited? then
      if Coerce(reader, path, raw, None).None? then UnknownField
      else if Valid(d) then Corrected(d, DASH) else Rejected
    else
      var existing := Get(d, target.value.place);
      var value := Coerce(reader, path, raw, Some(existing.value));
      if value.None? then UnknownField
      else
        var clone := Put(d, target.value.place, Field(value.value, 1.0, existing.region));
        if Valid(clone) then Corrected(clone, Render(existing.value)) else Rejected
  }
}
