/** The save path of the college edit page: `buildSavePayload`, which makes
    sure the record sent to the server has a `content.about` section, and
    the guard of `handleSave`. */
module CollegeEditPage {
  import opened Js

  /** The about section a record without one gets. */
  const DefaultAbout: Json := JObj([Member("title", JStr("About College")), Member("blocks", JArr([]))])

  /** The payload `buildSavePayload(college)` returns, or the error its
      assignment throws (a truthy `content` that is not an object). */
  function SavePayload(college: Json): (r: Result<Json>)
    ensures r.Ok? ==>
      r.value.JObj? && Lookup(r.value.fields, "content").Some?
      && TruthyOpt(Prop(Lookup(r.value.fields, "content").value, "about"))
    ensures r.Ok? ==> forall k :: k != "content" ==> Lookup(r.value.fields, k) == Lookup(SpreadMembers(college), k)
    ensures r.Err? ==>
      TruthyOpt(Lookup(SpreadMembers(college), "content")) && !Lookup(SpreadMembers(college), "content").value.JObj?
  {
    var fs := SpreadMembers(college);
    var content := Or(Lookup(fs, "content"), EmptyObject);
    match Assign(content, "about", Or(Prop(content, "about"), DefaultAbout))
    case Err(e) => Err(e)
    case Ok(c) => Ok(JObj(Put(fs, "content", c)))
  }

  /** `buildSavePayload`: a shallow copy, then `payload.content` and
      `payload.content.about` assigned in turn. The second assignment
      writes into the content object, which the copy shares; here that
      object is a value, written back into the copy. */
  method BuildSavePayload(college: Json) returns (r: Result<Json>)
    ensures r == SavePayload(college)
  {
    var payload := SpreadMembers(college);
    ghost var copied := payload;
    payload := Put(payload, "content", Or(Lookup(payload, "content"), EmptyObject));
    var content := Lookup(payload, "content").value;
    var withAbout := Assign(content, "about", Or(Prop(content, "about"), DefaultAbout));
    if withAbout.Err? {
      return Err(withAbout.error);
    }
    PutTwice(copied, "content", content, withAbout.value);
    payload := Put(payload, "content", withAbout.value);
    return Ok(JObj(payload));
  }

  lemma AboutIsNoIndex()
    ensures !IsIndexKey("about")
  {
    assert !IsDigit("about"[0]);
  }

  /** The payload is built exactly when `content` is missing, falsy or an
      object; a truthy primitive throws on the write, and an array cannot
      hold a named member in the JSON model. */
  lemma SaveFailsOnlyForNonObjectContent(college: Json)
    ensures SavePayload(college).Ok? <==>
      !TruthyOpt(Lookup(SpreadMembers(college), "content")) || Lookup(SpreadMembers(college), "content").value.JObj?
  {
    AboutIsNoIndex();
  }

  /** A record without a truthy `content` gets `content = {about: DefaultAbout}`. */
  lemma SaveAddsDefaultContent(college: Json)
    requires !TruthyOpt(Lookup(SpreadMembers(college), "content"))
    ensures SavePayload(college).Ok?
    ensures Lookup(SavePayload(college).value.fields, "content") == Some(JObj([Member("about", DefaultAbout)]))
  {
    assert Put([], "about", DefaultAbout) == [Member("about", DefaultAbout)];
  }

  /** A content object keeps all its members but `about`; a truthy `about`
      is kept as it is, a falsy or missing one becomes `DefaultAbout`. */
  lemma SaveKeepsContent(college: Json, cfs: seq<Member>)
    requires Lookup(SpreadMembers(college), "content") == Some(JObj(cfs))
    ensures SavePayload(college).Ok?
    ensures Lookup(SavePayload(college).value.fields, "content").Some?
    ensures Lookup(SavePayload(college).value.fields, "content").value.JObj?
    ensures forall k :: k != "about" ==>
      Lookup(Lookup(SavePayload(college).value.fields, "content").value.fields, k) == Lookup(cfs, k)
    ensures TruthyOpt(Lookup(cfs, "about")) ==>
      Lookup(SavePayload(college).value.fields, "content") == Some(JObj(cfs))
    ensures !TruthyOpt(Lookup(cfs, "about")) ==>
      Lookup(Lookup(SavePayload(college).value.fields, "content").value.fields, "about") == Some(DefaultAbout)
  {
    var fs := SpreadMembers(college);
    var content := JObj(cfs);
    assert Or(Lookup(fs, "content"), EmptyObject) == content;
    AboutIsNoIndex();
    assert Prop(content, "about") == Lookup(cfs, "about");
    var about := Or(Lookup(cfs, "about"), DefaultAbout);
    var c := JObj(Put(cfs, "about", about));
    assert Assign(content, "about", about) == Ok(c);
    assert SavePayload(college) == Ok(JObj(Put(fs, "content", c)));
    assert Lookup(Put(fs, "content", c), "content") == Some(c);
    if TruthyOpt(Lookup(cfs, "about")) {
      PutSame(cfs, "about", about);
    }
  }

  /** Every top-level member other than `content` is copied unchanged, in
      the same order; `content` is added last when the record had none. */
  lemma SaveKeepsOtherMembers(college: Json)
    requires SavePayload(college).Ok?
    ensures SavePayload(college).value.JObj?
    ensures forall k :: k != "content" ==>
      Lookup(SavePayload(college).value.fields, k) == Lookup(SpreadMembers(college), k)
    ensures Keys(SavePayload(college).value.fields) ==
      if HasKey(SpreadMembers(college), "content") then Keys(SpreadMembers(college))
      else Keys(SpreadMembers(college)) + ["content"]
  {
  }

  /** Building the payload of a payload gives the same payload. */
  lemma SaveIdempotent(college: Json)
    requires SavePayload(college).Ok?
    ensures SavePayload(SavePayload(college).value) == SavePayload(college)
  {
    AboutIsNoIndex();
    var fs := SpreadMembers(college);
    var content := Or(Lookup(fs, "content"), EmptyObject);
    assert content.JObj?;
    var about := Or(Prop(content, "about"), DefaultAbout);
    var c := JObj(Put(content.fields, "about", about));
    var p := Put(fs, "content", c);
    assert SavePayload(college) == Ok(JObj(p));
    assert Truthy(about);
    PutTwice(content.fields, "about", about, about);
    PutSame(p, "content", c);
  }

  /** `handleSave`: nothing happens while no college is loaded; otherwise
      the request carries the built payload, or the build error is
      reported. */
  function SaveRequest(college: Json): (r: Option<Result<Json>>)
    ensures r == None <==> !Truthy(college)
    ensures r.Some? && r.value.Ok? ==> r.value.value.JObj?
    ensures r.Some? && r.value.Ok? ==> Lookup(r.value.value.fields, "content").Some?
  {
    if !Truthy(college) then None else Some(SavePayload(college))
  }
}
