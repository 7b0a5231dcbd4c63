/** The computed columns of the list tables: the accessor functions of
    `collegeColumns`, `courseColumns`, `blogColumns`, `enquiryColumns` and
    `eventColumns`. Reading a member of `null` throws, so every accessor
    that reads the row fails on a `null` row. */
module Columns {
  import opened Js
  import opened Text

  /** `item.k`. */
  function Read(item: Json, k: string): (r: Result<Option<Json>>)
    ensures r.Err? <==> item == JNull
    ensures r.Ok? ==> r.value == Prop(item, k)
  {
    GetPath(item, [k])
  }

  // ---------------------------------------------------------------------
  // City and state, from the location text

  /** `(item.location || '').split(',')`: a truthy location that is not a
      string has no `split` and throws. */
  function LocationParts(item: Json): (r: Result<seq<string>>)
    ensures r.Ok? <==> LocationReadable(item)
    ensures r.Ok? ==> r.value == Split(LocationText(item), ',')
  {
    match Read(item, "location")
    case Err(e) => Err(e)
    case Ok(loc) =>
      var text := Or(loc, EmptyString);
      if text.JStr? then Ok(Split(text.s, ',')) else Err(TypeError)
  }

  /** The location a row has as text: the empty text when it is falsy. */
  function LocationText(item: Json): string {
    var loc := Prop(item, "location");
    if TruthyOpt(loc) && loc.value.JStr? then loc.value.s else ""
  }

  predicate LocationReadable(item: Json) {
    var loc := Prop(item, "location");
    item != JNull && (!TruthyOpt(loc) || loc.value.JStr?)
  }

  /** City: `split(',')[0] || ''`, the text before the first comma. */
  function City(item: Json): (r: Result<Json>)
    ensures r.Ok? <==> LocationReadable(item)
    ensures r.Ok? ==> r == Ok(JStr(LocationText(item)[..IndexOfChar(LocationText(item), ',')]))
  {
    match LocationParts(item)
    case Err(e) => Err(e)
    case Ok(parts) =>
      SplitFirst(LocationText(item), ',');
      Ok(Or(Some(JStr(parts[0])), EmptyString))
  }

  /** State: `split(',')[1] || ''`, the text between the first and the
      second comma, not trimmed; the empty text when there is no comma. */
  function State(item: Json): (r: Result<Json>)
    ensures r.Ok? <==> LocationReadable(item)
    ensures r.Ok? && ',' !in LocationText(item) ==> r == Ok(EmptyString)
    ensures r.Ok? && ',' in LocationText(item) ==> r == Ok(JStr(AfterFirstComma(LocationText(item))))
  {
    match LocationParts(item)
    case Err(e) => Err(e)
    case Ok(parts) =>
      SecondPiece(LocationText(item));
      Ok(Or(if |parts| >= 2 then Some(JStr(parts[1])) else None, EmptyString))
  }

  /** The text between the first and the second comma of `s`. */
  function AfterFirstComma(s: string): string
    requires IndexOfChar(s, ',') < |s|
  {
    var rest := s[IndexOfChar(s, ',') + 1..];
    rest[..IndexOfChar(rest, ',')]
  }

  lemma SecondPiece(s: string)
    ensures ',' in s ==> IndexOfChar(s, ',') < |s|
    ensures ',' in s ==> |Split(s, ',')| >= 2 && Split(s, ',')[1] == AfterFirstComma(s)
  {
    if ',' in s {
      var i :| 0 <= i < |s| && s[i] == ',';
      SplitSecond(s, ',');
    }
  }

  /** A location "city,state" with one comma splits into its two parts;
      the state keeps any space after the comma, so "Delhi, India" has the
      state " India". */
  lemma CityAndState(item: Json, city: string, state: string)
    requires LocationReadable(item)
    requires ',' !in city && ',' !in state
    requires LocationText(item) == city + "," + state
    ensures City(item) == Ok(JStr(city))
    ensures State(item) == Ok(JStr(state))
  {
    var s := LocationText(item);
    var i := |city|;
    assert s[i] == ',';
    assert forall j :: 0 <= j < i ==> s[j] == city[j];
    assert IndexOfChar(s, ',') == i;
    assert s[..i] == city;
    var rest := s[i + 1..];
    assert rest == state;
    assert IndexOfChar(rest, ',') == |rest|;
  }

  /** The concatenation the other way round: with exactly one comma, city,
      comma and state give back the location. */
  lemma CityCommaState(item: Json, i: nat)
    requires LocationReadable(item)
    requires i < |LocationText(item)| && LocationText(item)[i] == ','
    requires forall j :: 0 <= j < |LocationText(item)| && j != i ==> LocationText(item)[j] != ','
    ensures City(item).value.s + "," + State(item).value.s == LocationText(item)
  {
    var s := LocationText(item);
    assert ',' !in s[..i] && ',' !in s[i + 1..];
    assert s == s[..i] + "," + s[i + 1..];
    CityAndState(item, s[..i], s[i + 1..]);
  }

  // ---------------------------------------------------------------------
  // Status columns

  /** The college status column ignores the row: always "Draft". */
  function CollegeStatus(item: Json): (r: Json)
    ensures r == JStr("Draft")
  {
    JStr("Draft")
  }

  /** The blog status column: "Published" for a truthy `isPublished`, "Draft" otherwise. */
  function BlogStatus(item: Json): (r: Result<Json>)
    ensures r.Err? <==> item == JNull
    ensures r.Ok? ==> r.value == JStr("Published") || r.value == JStr("Draft")
    ensures r.Ok? ==> (r.value == JStr("Published") <==> TruthyOpt(Prop(item, "isPublished")))
  {
    match Read(item, "isPublished")
    case Err(e) => Err(e)
    case Ok(p) => Ok(if TruthyOpt(p) then JStr("Published") else JStr("Draft"))
  }

  // ---------------------------------------------------------------------
  // Fallbacks

  const NotAvailable: Json := JStr("N/A")

  /** `item.k || fallback`: every falsy value falls back. */
  function OrFallback(item: Json, k: string, fallback: Json): (r: Result<Json>)
    ensures r.Err? <==> item == JNull
    ensures r.Ok? && TruthyOpt(Prop(item, k)) ==> r.value == Prop(item, k).value
    ensures r.Ok? && !TruthyOpt(Prop(item, k)) ==> r.value == fallback
  {
    match Read(item, k)
    case Err(e) => Err(e)
    case Ok(v) => Ok(Or(v, fallback))
  }

  /** Colleges offering a course: `item.totalColleges || 0`. */
  function CollegesOffering(item: Json): (r: Result<Json>)
    ensures r.Err? <==> item == JNull
    ensures r.Ok? ==> r.value == if TruthyOpt(Prop(item, "totalColleges")) then Prop(item, "totalColleges").value else JNum(0)
  {
    OrFallback(item, "totalColleges", JNum(0))
  }

  /** The stream of a course: `item.stream || "N/A"`. */
  function Stream(item: Json): (r: Result<Json>)
    ensures r.Err? <==> item == JNull
    ensures r.Ok? ==> r.value == if TruthyOpt(Prop(item, "stream")) then Prop(item, "stream").value else NotAvailable
  {
    OrFallback(item, "stream", NotAvailable)
  }

  /** The type of an enquiry: `item.type || "Contact"`. */
  function EnquiryType(item: Json): (r: Result<Json>)
    ensures r.Err? <==> item == JNull
    ensures r.Ok? ==> r.value == if TruthyOpt(Prop(item, "type")) then Prop(item, "type").value else JStr("Contact")
  {
    OrFallback(item, "type", JStr("Contact"))
  }

  /** The college of an event: `item.collegeId ?? "N/A"`; only a missing
      value or `null` falls back. */
  function CollegeId(item: Json): (r: Result<Json>)
    ensures r.Err? <==> item == JNull
    ensures r.Ok? && Prop(item, "collegeId").Some? && Prop(item, "collegeId").value != JNull ==>
      r.value == Prop(item, "collegeId").value
    ensures r.Ok? && (Prop(item, "collegeId") == None || Prop(item, "collegeId") == Some(JNull)) ==>
      r.value == NotAvailable
  {
    match Read(item, "collegeId")
    case Err(e) => Err(e)
    case Ok(v) => Ok(Coalesce(v, NotAvailable))
  }

  /** The two fallbacks differ on falsy values: a college id of 0 or ""
      is shown, while a course stream of "" or a total of 0 falls back. */
  lemma FalsyIdIsShown(item: Json, v: Json)
    requires item.JObj? && v in {JNum(0), EmptyString, JBool(false)}
    requires Prop(item, "collegeId") == Some(v) && Prop(item, "stream") == Some(v)
    ensures CollegeId(item) == Ok(v)
    ensures Stream(item) == Ok(NotAvailable)
  {
  }

  // ---------------------------------------------------------------------
  // Event date

  /** The event date: `item.date ? item.date.slice(0, 10) : ""`. A string
      keeps its first ten characters (the `YYYY-MM-DD` of an ISO date), an
      array its first ten elements; other truthy values have no `slice`. */
  function EventDate(item: Json): (r: Result<Json>)
    ensures r.Err? <==> (item == JNull ||
      (TruthyOpt(Prop(item, "date")) && !Prop(item, "date").value.JStr? && !Prop(item, "date").value.JArr?))
    ensures r.Ok? && !TruthyOpt(Prop(item, "date")) ==> r.value == EmptyString
    ensures r.Ok? && TruthyOpt(Prop(item, "date")) && Prop(item, "date").value.JStr? ==>
      var s := Prop(item, "date").value.s;
      r.value.JStr? && |r.value.s| == Min(10, |s|) && StartsWith(s, r.value.s)
  {
    match Read(item, "date")
    case Err(e) => Err(e)
    case Ok(d) =>
      if !TruthyOpt(d) then Ok(EmptyString)
      else
        match d.value
        case JStr(s) => Ok(JStr(s[..Min(10, |s|)]))
        case JArr(items) => Ok(JArr(items[..Min(10, |items|)]))
        case _ => Err(TypeError)
  }

  /** An ISO timestamp shows as its date part. */
  lemma EventDateOfTimestamp(item: Json, date: string, time: string)
    requires item.JObj? && |date| == 10
    requires Prop(item, "date") == Some(JStr(date + time))
    ensures EventDate(item) == Ok(JStr(date))
  {
    assert (date + time)[..10] == date;
  }
}
