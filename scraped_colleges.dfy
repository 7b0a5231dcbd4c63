/** The review screen for a scraped college (`CollegeScraperDashboard`):
    the simpler tree editor `ScrapedSmartRenderer`, its image-URL test and
    key filter, the top-level sections of the scraped record, and the
    display rules of the read-only course cards. */
module ScrapedColleges {
  import opened Js
  import opened Text
  import opened AutoTable

  /** Keys the scraped-record editor never shows. */
  const ExcludedKeys: seq<string> := ["_id", "id", "createdAt", "updatedAt", "tempId"]

  // ---------------------------------------------------------------------
  // The image test

  const ImageExtensions: seq<string> := [".jpeg", ".jpg", ".gif", ".png", ".webp", ".svg"]

  /** `/\.(jpeg|jpg|gif|png|webp|svg)$/i`: the name ends with one of the
      extensions, letters compared without regard to case. */
  predicate HasImageExtension(s: string) {
    exists i :: 0 <= i < |ImageExtensions| && EndsWith(Lower(s), ImageExtensions[i])
  }

  /** `isImage`: a string that has an image extension or starts with "http". */
  predicate IsImage(v: Json)
    ensures IsImage(v) ==> v.JStr? && |v.s| >= 4
  {
    v.JStr? && (HasImageExtension(v.s) || StartsWith(v.s, "http"))
  }

  lemma LowerKeepsLowerPrefix(s: string, p: string)
    requires StartsWith(s, p)
    requires forall i :: 0 <= i < |p| ==> !IsUpperAscii(p[i])
    ensures StartsWith(Lower(s), p)
  {
    assert Lower(s)[..|p|] == p;
  }

  /** Lower-casing a string that counts as an image keeps it one
      (the extension test ignores case, and "http" is already lower case). */
  lemma ImageUnderLowerCase(s: string)
    requires IsImage(JStr(s))
    ensures IsImage(JStr(Lower(s)))
  {
    LowerIdempotent(s);
    if !HasImageExtension(s) {
      LowerKeepsLowerPrefix(s, "http");
    }
  }

  /** The converse fails: the "http" prefix is compared with case, so an
      upper-case scheme without an image extension is not an image. */
  lemma UpperCaseSchemeIsNotImage()
    ensures !IsImage(JStr("HTTP://x"))
    ensures IsImage(JStr(Lower("HTTP://x")))
  {
    var s := "HTTP://x";
    assert Lower(s) == "http://x";
    assert StartsWith(Lower(s), "http");
    assert !StartsWith(s, "http") by { assert s[0] != 'h'; }
    forall i | 0 <= i < |ImageExtensions| ensures !EndsWith(Lower(s), ImageExtensions[i]) {
      assert Lower(s)[|Lower(s)| - 1] == 'x';
    }
  }

  /** Upper-case extensions count: "photo.PNG" is an image. */
  lemma UpperCaseExtensionIsImage()
    ensures IsImage(JStr("a.PNG"))
  {
    assert Lower("a.PNG") == "a.png";
    assert EndsWith(Lower("a.PNG"), ImageExtensions[3]);
  }

  // ---------------------------------------------------------------------
  // The editor

  datatype ScrapedEdit =
    | SetValue(text: string)                     // the URL input of an image, the text area of a scalar
    | ItemEdit(index: nat, child: ScrapedEdit)   // the nested editor of an element
    | RemoveItem(index: nat)                     // the delete button of an element
    | AddEntry                                   // "Add Entry"
    | FieldEdit(key: string, child: ScrapedEdit) // the nested editor of a shown member

  /** The members shown for an object: all but `EXCLUDED_KEYS`. */
  predicate IsShownKey(fs: seq<Member>, k: string) {
    HasKey(fs, k) && k !in ExcludedKeys
  }

  /** The value the editor hands to `onChange`; `None` when there is no such control. */
  function ApplyScraped(v: Json, e: ScrapedEdit): (r: Option<Json>)
    ensures e.SetValue? ==> (r.Some? <==> !v.JArr? && !v.JObj?)
    ensures e.SetValue? && r.Some? ==> r.value == JStr(e.text)
    ensures e.RemoveItem? ==> (r.Some? <==> v.JArr? && e.index < |v.items|)
    ensures e.RemoveItem? && r.Some? ==> r.value.JArr? && |r.value.items| == |v.items| - 1
    ensures e.RemoveItem? && r.Some? ==>
      forall j :: 0 <= j < |r.value.items| ==> r.value.items[j] == v.items[if j < e.index then j else j + 1]
    ensures e.AddEntry? ==> (r.Some? <==> v.JArr?)
    ensures e.AddEntry? && r.Some? ==> r.value == JArr(v.items + [EmptyString])
    ensures e.FieldEdit? && r.Some? ==> v.JObj? && IsShownKey(v.fields, e.key)
    ensures e.FieldEdit? && e.key in ExcludedKeys ==> r == None
    ensures e.ItemEdit? ==>
      r == (if v.JArr? && e.index < |v.items| && ApplyScraped(v.items[e.index], e.child).Some?
            then Some(JArr(v.items[e.index := ApplyScraped(v.items[e.index], e.child).value]))
            else None)
    ensures e.FieldEdit? ==>
      r == (if v.JObj? && IsShownKey(v.fields, e.key) && ApplyScraped(Lookup(v.fields, e.key).value, e.child).Some?
            then Some(JObj(Put(v.fields, e.key, ApplyScraped(Lookup(v.fields, e.key).value, e.child).value)))
            else None)
    decreases e
  {
    match v
    case JArr(items) =>
      (match e
       case ItemEdit(i, child) =>
         if i < |items| then
           match ApplyScraped(items[i], child)
           case None => None
           case Some(nv) => Some(JArr(items[i := nv]))
         else None
       case RemoveItem(i) => if i < |items| then Some(JArr(RemoveAt(items, i))) else None
       case AddEntry => Some(JArr(items + [EmptyString]))
       case _ => None)
    case JObj(fs) =>
      (match e
       case FieldEdit(k, child) =>
         if IsShownKey(fs, k) then
           match ApplyScraped(Lookup(fs, k).value, child)
           case None => None
           case Some(nv) => Some(JObj(Put(fs, k, nv)))
         else None
       case _ => None)
    case _ => if e.SetValue? then Some(JStr(e.text)) else None
  }

  function ScrapedTarget(e: ScrapedEdit): seq<Step> {
    match e
    case ItemEdit(i, child) => [AtIndex(i)] + ScrapedTarget(child)
    case FieldEdit(k, child) => [AtKey(k)] + ScrapedTarget(child)
    case _ => []
  }

  /** An edit replaces only the element or member it is made in: arrays
      keep their length and objects their keys on the way down. */
  lemma {:induction false} ApplyScrapedIsLocal(v: Json, e: ScrapedEdit)
    requires ApplyScraped(v, e).Some?
    ensures ChangedOnlyAt(v, ApplyScraped(v, e).value, ScrapedTarget(e))
    decreases e
  {
    match e
    case ItemEdit(i, child) =>
      ApplyScrapedIsLocal(v.items[i], child);
      ReplaceChangesOnlyAt(v.items, i, ApplyScraped(v.items[i], child).value, ScrapedTarget(child));
    case FieldEdit(k, child) =>
      var val := Lookup(v.fields, k).value;
      ApplyScrapedIsLocal(val, child);
      PutChangesOnlyAt(v.fields, k, ApplyScraped(val, child).value, ScrapedTarget(child));
    case _ =>
  }

  // ---------------------------------------------------------------------
  // Top-level sections

  /** Keys of the scraped record that get no section of their own. */
  const HiddenSections: seq<string> := ["courses", "info_course_fee"] + ExcludedKeys

  /** The sections, in member order (`Object.entries(scrapedData)` filtered). */
  function SectionKeys(data: Json): (ks: seq<string>)
    ensures forall k :: k in ks <==> k in Keys(SpreadMembers(data)) && k !in HiddenSections
  {
    Without(Keys(SpreadMembers(data)), HiddenSections)
  }

  /** An edit in section `key`: `prev => ({...prev, [key]: v})`. */
  function EditSection(data: Json, key: string, e: ScrapedEdit): (r: Option<Json>)
    ensures key in HiddenSections ==> r == None
    ensures r.Some? ==> r.value.JObj? && Keys(r.value.fields) == Keys(SpreadMembers(data))
    ensures r.Some? ==> forall k :: k != key ==> Lookup(r.value.fields, k) == Lookup(SpreadMembers(data), k)
    ensures r.Some? ==> Lookup(SpreadMembers(data), key).Some?
    ensures r.Some? && Lookup(SpreadMembers(data), key).Some? ==>
      Lookup(r.value.fields, key) == ApplyScraped(Lookup(SpreadMembers(data), key).value, e)
  {
    var ms := SpreadMembers(data);
    if Truthy(data) && HasKey(ms, key) && key !in HiddenSections then
      match ApplyScraped(Lookup(ms, key).value, e)
      case None => None
      case Some(v) => Some(JObj(Put(ms, key, v)))
    else None
  }

  /** For a record object a section edit leaves the record an object with
      the same members except the edited one. */
  lemma EditSectionOfObject(fs: seq<Member>, key: string, e: ScrapedEdit)
    requires EditSection(JObj(fs), key, e).Some?
    ensures ChangedOnlyAt(JObj(fs), EditSection(JObj(fs), key, e).value, [AtKey(key)])
  {
    PutChangesOnlyAt(fs, key, ApplyScraped(Lookup(fs, key).value, e).value, []);
  }

  // ---------------------------------------------------------------------
  // Course cards

  /** `CourseDetailRow` shows nothing for a falsy value or an empty array. */
  predicate DetailRowHidden(v: Json)
    ensures v.JArr? ==> (DetailRowHidden(v) <==> v.items == [])
    ensures v.JObj? ==> !DetailRowHidden(v)
    ensures v.JStr? ==> (DetailRowHidden(v) <==> v.s == "")
  {
    !Truthy(v) || (v.JArr? && |v.items| == 0)
  }

  /** The label of a detail row: every underscore becomes a space. */
  function DetailLabel(name: string): (r: string)
    ensures |r| == |name| && '_' !in r
    ensures forall i :: 0 <= i < |name| && name[i] == '_' ==> r[i] == ' '
    ensures forall i :: 0 <= i < |name| && name[i] != '_' ==> r[i] == name[i]
  {
    ReplaceAllChar(name, '_', ' ')
  }

  /** The rows of the details panel: `Object.entries(course.details)` in
      order, each labelled by its key with underscores as spaces, without
      the rows `CourseDetailRow` hides. */
  function DetailRows(entries: seq<Member>): (r: seq<(string, Json)>)
    ensures |r| <= |entries|
    ensures forall i :: 0 <= i < |entries| && !DetailRowHidden(entries[i].value) ==>
      (DetailLabel(entries[i].key), entries[i].value) in r
    ensures forall j :: 0 <= j < |r| ==>
      !DetailRowHidden(r[j].1)
      && exists i :: 0 <= i < |entries| && r[j] == (DetailLabel(entries[i].key), entries[i].value)
    decreases |entries|
  {
    if entries == [] then []
    else
      var pre := entries[..|entries| - 1];
      var m := entries[|entries| - 1];
      var rest := DetailRows(pre);
      assert forall i :: 0 <= i < |pre| ==> pre[i] == entries[i];
      if DetailRowHidden(m.value) then rest else rest + [(DetailLabel(m.key), m.value)]
  }

  /** The rows keep the order of the entries: the rows of two runs of
      entries are the rows of the first followed by those of the second. */
  lemma {:induction false} DetailRowsConcat(a: seq<Member>, b: seq<Member>)
    ensures DetailRows(a + b) == DetailRows(a) + DetailRows(b)
    decreases |b|
  {
    if b == [] {
      assert a + b == a;
    } else {
      var pre := b[..|b| - 1];
      assert (a + b)[..|a + b| - 1] == a + pre;
      assert (a + b)[|a + b| - 1] == b[|b| - 1];
      DetailRowsConcat(a, pre);
    }
  }

  /** One entry gives its labelled row, or none when the row is hidden. */
  lemma DetailRowsOne(m: Member)
    ensures DetailRows([m]) == if DetailRowHidden(m.value) then [] else [(DetailLabel(m.key), m.value)]
  {
    assert [m][..0] == [];
  }

  /** What a course card shows, read from the course value. */
  datatype CourseCard = CourseCard(
    fees: Json,               // the fees badge
    hasSubCourses: bool,      // the sub-course count and the specialisations list
    hasDetails: bool,         // the "VIEW FULL DATA BREAKDOWN" panel
    stats: seq<Json>)         // rating, reviews, mode and count tiles

  const NotAvailable: Json := JStr("N/A")

  /** The four stat tiles: rating, reviews, mode and count. */
  const StatKeys: seq<string> := ["rating", "reviews", "mode", "course_count"]

  /** A value React can render as a child: anything but a plain object,
      and for an array every element in turn. */
  predicate RendersAsChild(v: Json) {
    match v
    case JObj(_) => false
    case JArr(items) => forall i :: 0 <= i < |items| ==> RendersAsChild(items[i])
    case _ => true
  }

  /** An absent member renders as nothing. */
  predicate OptRendersAsChild(o: Option<Json>) {
    o.None? || RendersAsChild(o.value)
  }

  /** The header of a card, open or closed: `course.name`, the fees badge
      `course.fees || 'Fees N/A'`, and `course.duration && <span>…</span>`,
      which renders a falsy duration as itself. */
  predicate HeaderRenders(course: Json) {
    && course != JNull
    && OptRendersAsChild(Prop(course, "name"))
    && RendersAsChild(Or(Prop(course, "fees"), JStr("Fees N/A")))
    && OptRendersAsChild(Prop(course, "duration"))
  }

  /** `hasSubCourses`: a non-empty array of sub-courses. */
  predicate HasSubCourses(course: Json) {
    Prop(course, "sub_courses").Some? && Prop(course, "sub_courses").value.JArr?
    && |Prop(course, "sub_courses").value.items| > 0
  }

  function SubCourses(course: Json): seq<Json> {
    if HasSubCourses(course) then Prop(course, "sub_courses").value.items else []
  }

  /** `Object.entries(course.details)` for a truthy `details`. */
  function DetailEntries(course: Json): seq<Member> {
    if TruthyOpt(Prop(course, "details")) then SpreadMembers(Prop(course, "details").value) else []
  }

  /** `hasDetails`: a truthy `details` with at least one key. */
  predicate HasDetails(course: Json) {
    TruthyOpt(Prop(course, "details")) && |SpreadMembers(Prop(course, "details").value)| > 0
  }

  /** A shown detail row lists an array value item by item (`<li>{item}</li>`);
      other values are shown through `String`. */
  predicate DetailRowThrows(v: Json) {
    !DetailRowHidden(v) && v.JArr? && !RendersAsChild(v)
  }

  /** The children the card itself hands React: the header always; the
      stat tiles of a top-level card once it is open; the detail rows
      once the breakdown is shown. */
  predicate OwnChildrenRender(course: Json, isSub: bool, isOpen: bool, showDetails: bool) {
    && HeaderRenders(course)
    && (isOpen && !isSub ==>
          forall i :: 0 <= i < |StatKeys| ==> RendersAsChild(Or(Prop(course, StatKeys[i]), NotAvailable)))
    && (isOpen && showDetails && HasDetails(course) ==>
          forall j :: 0 <= j < |DetailEntries(course)| ==> !DetailRowThrows(DetailEntries(course)[j].value))
  }

  /** The card renders: its own children, and once it is open the header
      of each sub-course card, which starts closed. */
  predicate CardRenders(course: Json, isSub: bool, isOpen: bool, showDetails: bool) {
    && OwnChildrenRender(course, isSub, isOpen, showDetails)
    && (isOpen ==> forall j :: 0 <= j < |SubCourses(course)| ==> HeaderRenders(SubCourses(course)[j]))
  }

  /** The card of a course in a given state (`isSub`, `isOpen`,
      `showDetails`). Reading a member of `null` throws a `TypeError`; a
      plain object rendered as a child throws as well. */
  function CourseCardOf(course: Json, isSub: bool, isOpen: bool, showDetails: bool): (r: Result<CourseCard>)
    ensures r.Err? <==> !CardRenders(course, isSub, isOpen, showDetails)
    ensures course == JNull ==> r == Err(TypeError)
    ensures course != JNull && !OwnChildrenRender(course, isSub, isOpen, showDetails) ==> r == Err(InvalidChild)
    ensures r == Err(TypeError) ==> course == JNull || (isOpen && JNull in SubCourses(course))
    ensures r.Ok? ==> Truthy(r.value.fees)
    ensures r.Ok? && TruthyOpt(Prop(course, "fees")) ==> r.value.fees == Prop(course, "fees").value
    ensures r.Ok? ==> (r.value.hasSubCourses <==> HasSubCourses(course))
    ensures r.Ok? ==> (r.value.hasDetails <==>
      TruthyOpt(Prop(course, "details")) && |SpreadMembers(Prop(course, "details").value)| > 0)
    ensures r.Ok? ==> |r.value.stats| == |StatKeys|
    ensures r.Ok? ==> forall i :: 0 <= i < |StatKeys| ==>
      Truthy(r.value.stats[i]) && r.value.stats[i] == Or(Prop(course, StatKeys[i]), NotAvailable)
  {
    if course == JNull then Err(TypeError)
    else if !OwnChildrenRender(course, isSub, isOpen, showDetails) then Err(InvalidChild)
    else if !CardRenders(course, isSub, isOpen, showDetails) then
      Err(if JNull in SubCourses(course) then TypeError else InvalidChild)
    else
      assert Truthy(NotAvailable) && Truthy(JStr("Fees N/A"));
      Ok(CourseCard(
        Or(Prop(course, "fees"), JStr("Fees N/A")),
        HasSubCourses(course),
        HasDetails(course),
        seq(|StatKeys|, i requires 0 <= i < |StatKeys| => Or(Prop(course, StatKeys[i]), NotAvailable))))
  }

  /** A course named by an object does not render, whatever its state. */
  lemma ObjectNameThrows(course: Json, fs: seq<Member>, isSub: bool, isOpen: bool, showDetails: bool)
    requires Prop(course, "name") == Some(JObj(fs))
    ensures CourseCardOf(course, isSub, isOpen, showDetails) == Err(InvalidChild)
  {
  }

  /** A course whose members are all scalars renders in every state. */
  lemma ScalarCourseRenders(fs: seq<Member>, isSub: bool, isOpen: bool, showDetails: bool)
    requires forall j :: 0 <= j < |fs| ==> !fs[j].value.JArr? && !fs[j].value.JObj?
    ensures CourseCardOf(JObj(fs), isSub, isOpen, showDetails).Ok?
  {
    var course := JObj(fs);
    forall k | Lookup(fs, k).Some? ensures RendersAsChild(Lookup(fs, k).value) {
      var j := KeyIndex(fs, k);
      assert fs[j].value == Lookup(fs, k).value;
    }
    assert SubCourses(course) == [];
    if TruthyOpt(Prop(course, "details")) {
      var d := Prop(course, "details").value;
      assert !d.JArr? && !d.JObj?;
      forall j | 0 <= j < |DetailEntries(course)| ensures !DetailEntries(course)[j].value.JArr? {
      }
    }
  }
}
