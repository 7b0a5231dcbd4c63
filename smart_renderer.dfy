/** The schema-less tree editor (`SmartRenderer`): how a JSON value is
    rendered (a text area, the auto data table, a stack of element editors
    or a list of keyed sections) and the value each control hands to
    `onChange`. An edit is a path of UI choices ending in one control;
    applying it is a total function from the old value to the new one,
    `None` when the control is not rendered or its handler throws. */
module SmartRenderer {
  import opened Js
  import opened Text
  import opened Editors
  import opened Fields
  import opened AutoTable

  // ---------------------------------------------------------------------
  // Rendering strategy

  /** `isFlatObjectArray`: a non-empty array whose FIRST element is a
      non-null, non-array object with a falsy `type`. */
  predicate IsFlatObjectArray(v: Json)
    ensures v.JArr? && |v.items| > 0 && v.items[0].JObj? && Prop(v.items[0], "type") == Some(EmptyString)
      ==> IsFlatObjectArray(v)
    ensures v.JArr? && |v.items| > 0 && TruthyOpt(Prop(v.items[0], "type")) ==> !IsFlatObjectArray(v)
    ensures v.JArr? && |v.items| > 0 && (v.items[0] == JNull || v.items[0].JArr?) ==> !IsFlatObjectArray(v)
  {
    v.JArr? && |v.items| > 0 && v.items[0].JObj? && !TruthyOpt(Prop(v.items[0], "type"))
  }

  /** Only the first element is inspected. */
  lemma FlatObjectArrayLooksAtFirstOnly(first: Json, a: seq<Json>, b: seq<Json>)
    ensures IsFlatObjectArray(JArr([first] + a)) == IsFlatObjectArray(JArr([first] + b))
  {
  }

  datatype Strategy = ScalarEditor | AutoTableEditor | ElementStack | Sections

  /** Scalars and `null` get a text area; arrays go to the auto table when
      they look like a list of records and are edited element by element
      otherwise; objects become one section per key. */
  function StrategyOf(v: Json): (s: Strategy)
    ensures s == ScalarEditor <==> !v.JArr? && !v.JObj?
    ensures s == AutoTableEditor <==> IsFlatObjectArray(v)
    ensures s == ElementStack <==> v.JArr? && !IsFlatObjectArray(v)
    ensures s == Sections <==> v.JObj?
  {
    match v
    case JArr(_) => if IsFlatObjectArray(v) then AutoTableEditor else ElementStack
    case JObj(_) => Sections
    case _ => ScalarEditor
  }

  datatype ElementEditor = MatrixEditor | ListEditor | NestedRenderer

  /** The editor of one element of an element stack: the matrix editor when
      the element is an array whose first element is an array, the list
      editor for any other array, a nested tree editor otherwise. */
  function ElementEditorOf(v: Json): ElementEditor {
    if v.JArr? && |v.items| > 0 && v.items[0].JArr? then MatrixEditor
    else if v.JArr? then ListEditor
    else NestedRenderer
  }

  predicate IsStringArray(v: Json) {
    v.JArr? && forall i :: 0 <= i < |v.items| ==> v.items[i].JStr?
  }

  /** A 2-D array of strings is not shown as one table: it becomes a stack
      of list editors, one per row. */
  lemma StringMatrixIsListStack(rows: seq<Json>)
    requires forall i :: 0 <= i < |rows| ==> IsStringArray(rows[i])
    ensures StrategyOf(JArr(rows)) == ElementStack
    ensures forall i :: 0 <= i < |rows| ==> ElementEditorOf(rows[i]) == ListEditor
  {
  }

  /** The keys that get a section, in member order. */
  function SectionKeys(fs: seq<Member>): (ks: seq<string>)
    ensures forall k :: k in ks <==> k in Keys(fs) && k !in NoBlockFields
  {
    Without(Keys(fs), NoBlockFields)
  }

  predicate IsSection(fs: seq<Member>, k: string) {
    HasKey(fs, k) && k !in NoBlockFields
  }

  lemma SectionKeysAreSections(fs: seq<Member>, k: string)
    ensures k in SectionKeys(fs) <==> IsSection(fs, k)
  {
    HasKeyInKeys(fs, k);
  }

  // ---------------------------------------------------------------------
  // Edits

  datatype Edit =
    | SetText(text: string)                          // the text area of a scalar
    | Table(op: TableOp)                             // a control of the auto data table
    | DeleteItem(index: nat)                         // the delete button of an element
    | AddItem                                        // "+ ADD NEW ITEM"
    | ItemMatrix(index: nat, matrixOp: MatrixOp)     // the matrix editor of an element
    | ItemList(index: nat, listOp: ListOp)           // the list editor of an element
    | ItemChild(index: nat, child: Edit)             // the nested editor of an element
    | DeleteField(key: string)                       // "DELETE FIELD"
    | AddBlock(key: string, kind: BlockKind)         // "+ TEXT / + TABLE / + LIST" of a section
    | Gallery(key: string, galleryOp: GalleryOp)     // the image gallery of a section
    | FieldChild(key: string, child: Edit)           // the nested editor of a section

  predicate IsSectionEdit(e: Edit) {
    e.DeleteField? || e.AddBlock? || e.Gallery? || e.FieldChild?
  }

  /** `handleAddBlock`: `blocks = value[key]?.blocks || []`, then
      `{...value, [key]: {...value[key], blocks: [...blocks, newBlock]}}`.
      Spreading a truthy `blocks` that is not iterable throws. */
  function HandleAddBlock(fs: seq<Member>, key: string, kind: BlockKind): (r: Result<seq<Member>>)
    requires HasKey(fs, key)
    ensures r.Ok? <==> SpreadItems(Or(Prop(Lookup(fs, key).value, "blocks"), JArr([]))).Ok?
    ensures r.Ok? ==> Keys(r.value) == Keys(fs)
    ensures r.Ok? ==> forall k :: k != key ==> Lookup(r.value, k) == Lookup(fs, k)
    ensures r.Ok? ==>
      Lookup(r.value, key) == Some(AppendBlock(Lookup(fs, key).value, SpreadItems(Or(Prop(Lookup(fs, key).value, "blocks"), JArr([]))).value, kind))
  {
    var val := Lookup(fs, key).value;
    match SpreadItems(Or(Prop(val, "blocks"), JArr([])))
    case Err(e) => Err(e)
    case Ok(blocks) => Ok(Put(fs, key, AppendBlock(val, blocks, kind)))
  }

  /** Applying an edit: the value the control hands to `onChange`. */
  function Apply(v: Json, e: Edit): (r: Option<Json>)
    ensures e.SetText? ==> (r.Some? <==> StrategyOf(v) == ScalarEditor)
    ensures e.SetText? && r.Some? ==> r.value == JStr(e.text)
    ensures e.Table? ==> (r.Some? ==> StrategyOf(v) == AutoTableEditor)
    ensures e.AddItem? ==> (r.Some? <==> StrategyOf(v) == ElementStack)
    ensures e.AddItem? && r.Some? ==> r.value == JArr(v.items + [EmptyString])
    ensures e.DeleteItem? ==> (r.Some? <==> StrategyOf(v) == ElementStack && e.index < |v.items|)
    ensures e.DeleteItem? && r.Some? ==> r.value.JArr? && |r.value.items| == |v.items| - 1
    ensures e.DeleteItem? && r.Some? ==>
      forall j :: 0 <= j < |r.value.items| ==> r.value.items[j] == v.items[if j < e.index then j else j + 1]
    ensures IsSectionEdit(e) && r.Some? ==> v.JObj? && IsSection(v.fields, e.key)
    ensures IsSectionEdit(e) && e.key in NoBlockFields ==> r == None
    ensures e.DeleteField? ==> (r.Some? <==> v.JObj? && IsSection(v.fields, e.key))
    ensures e.DeleteField? && r.Some? ==>
      r.value.JObj? && r.value.fields == v.fields[..KeyIndex(v.fields, e.key)] + v.fields[KeyIndex(v.fields, e.key) + 1..]
    ensures e.AddBlock? && r.Some? ==> ShowsControls(e.key, Lookup(v.fields, e.key).value)
    ensures e.Gallery? && r.Some? ==> IsImageField(e.key, Lookup(v.fields, e.key).value)
    ensures e.FieldChild? && r.Some? ==> !IsImageField(e.key, Lookup(v.fields, e.key).value)
    ensures e.Table? ==> r == (if StrategyOf(v) == AutoTableEditor then TableEdit(v.items, e.op) else None)
    ensures e.ItemMatrix? || e.ItemList? || e.ItemChild? ==>
      r == (if StrategyOf(v) == ElementStack then ApplyToElement(v.items, e) else None)
    ensures IsSectionEdit(e) ==> r == (if v.JObj? then ApplyToSection(v.fields, e) else None)
    decreases e
  {
    var s := StrategyOf(v);
    assert s == ElementStack <==> v.JArr? && !IsFlatObjectArray(v);
    match s
    case ScalarEditor => if e.SetText? then Some(JStr(e.text)) else None
    case AutoTableEditor => if e.Table? then TableEdit(v.items, e.op) else None
    case ElementStack => ApplyToElement(v.items, e)
    case Sections => ApplyToSection(v.fields, e)
  }

  function ApplyToElement(items: seq<Json>, e: Edit): (r: Option<Json>)
    ensures r.Some? ==> r.value.JArr?
    ensures r.Some? ==> e.DeleteItem? || e.AddItem? || e.ItemMatrix? || e.ItemList? || e.ItemChild?
    ensures e.AddItem? ==> r == Some(JArr(items + [EmptyString]))
    ensures e.DeleteItem? ==> (r.Some? <==> e.index < |items|)
    ensures e.DeleteItem? && r.Some? ==> r.value == JArr(RemoveAt(items, e.index))
    ensures e.ItemMatrix? ==>
      r == (if e.index < |items| && ElementEditorOf(items[e.index]) == MatrixEditor
               && MatrixEdit(Some(items[e.index]), e.matrixOp).Some?
            then Some(JArr(items[e.index := MatrixEdit(Some(items[e.index]), e.matrixOp).value]))
            else None)
    ensures e.ItemList? ==>
      r == (if e.index < |items| && ElementEditorOf(items[e.index]) == ListEditor
               && ListEdit(items[e.index], e.listOp).Some?
            then Some(JArr(items[e.index := JArr(ListEdit(items[e.index], e.listOp).value)]))
            else None)
    ensures e.ItemChild? ==>
      r == (if e.index < |items| && ElementEditorOf(items[e.index]) == NestedRenderer
               && Apply(items[e.index], e.child).Some?
            then Some(JArr(items[e.index := Apply(items[e.index], e.child).value]))
            else None)
    decreases e, 0
  {
    match e
    case DeleteItem(i) => if i < |items| then Some(JArr(RemoveAt(items, i))) else None
    case AddItem => Some(JArr(items + [EmptyString]))
    case ItemMatrix(i, op) =>
      if i < |items| && ElementEditorOf(items[i]) == MatrixEditor then
        match MatrixEdit(Some(items[i]), op)
        case None => None
        case Some(nv) => Some(JArr(items[i := nv]))
      else None
    case ItemList(i, op) =>
      if i < |items| && ElementEditorOf(items[i]) == ListEditor then
        match ListEdit(items[i], op)
        case None => None
        case Some(lines) => Some(JArr(items[i := JArr(lines)]))
      else None
    case ItemChild(i, child) =>
      if i < |items| && ElementEditorOf(items[i]) == NestedRenderer then
        match Apply(items[i], child)
        case None => None
        case Some(nv) => Some(JArr(items[i := nv]))
      else None
    case _ => None
  }

  function ApplyToSection(fs: seq<Member>, e: Edit): (r: Option<Json>)
    ensures r.Some? ==> r.value.JObj? && IsSectionEdit(e) && IsSection(fs, e.key)
    ensures e.DeleteField? ==> (r.Some? <==> IsSection(fs, e.key))
    ensures e.DeleteField? && r.Some? ==> r.value == JObj(Delete(fs, e.key))
    ensures e.AddBlock? && r.Some? ==> ShowsControls(e.key, Lookup(fs, e.key).value)
    ensures e.Gallery? && r.Some? ==> IsImageField(e.key, Lookup(fs, e.key).value)
    ensures e.FieldChild? && r.Some? ==> !IsImageField(e.key, Lookup(fs, e.key).value)
    ensures e.AddBlock? ==>
      r == (if IsSection(fs, e.key) && ShowsControls(e.key, Lookup(fs, e.key).value)
               && HandleAddBlock(fs, e.key, e.kind).Ok?
            then Some(JObj(HandleAddBlock(fs, e.key, e.kind).value))
            else None)
    ensures e.Gallery? ==>
      r == (if IsSection(fs, e.key) && IsImageField(e.key, Lookup(fs, e.key).value)
               && GalleryEdit(Lookup(fs, e.key).value.items, e.galleryOp).Some?
            then Some(JObj(Put(fs, e.key, JArr(GalleryEdit(Lookup(fs, e.key).value.items, e.galleryOp).value))))
            else None)
    ensures e.FieldChild? ==>
      r == (if IsSection(fs, e.key) && !IsImageField(e.key, Lookup(fs, e.key).value)
               && Apply(Lookup(fs, e.key).value, e.child).Some?
            then Some(JObj(Put(fs, e.key, Apply(Lookup(fs, e.key).value, e.child).value)))
            else None)
    decreases e, 0
  {
    if !IsSectionEdit(e) || !IsSection(fs, e.key) then None
    else
      var val := Lookup(fs, e.key).value;
      match e
      case DeleteField(k) => Some(JObj(Delete(fs, k)))
      case AddBlock(k, kind) =>
        if ShowsControls(k, val) then
          match HandleAddBlock(fs, k, kind)
          case Err(_) => None
          case Ok(fs') => Some(JObj(fs'))
        else None
      case Gallery(k, op) =>
        if IsImageField(k, val) then
          match GalleryEdit(val.items, op)
          case None => None
          case Some(images) => Some(JObj(Put(fs, k, JArr(images))))
        else None
      case FieldChild(k, child) =>
        if !IsImageField(k, val) then
          match Apply(val, child)
          case None => None
          case Some(nv) => Some(JObj(Put(fs, k, nv)))
        else None
  }

  // ---------------------------------------------------------------------
  // Locality

  /** Where an edit acts: the element or section each nesting level picks,
      down to the control's own value. */
  function Target(e: Edit): seq<Step> {
    match e
    case ItemMatrix(i, _) => [AtIndex(i)]
    case ItemList(i, _) => [AtIndex(i)]
    case ItemChild(i, child) => [AtIndex(i)] + Target(child)
    case AddBlock(k, _) => [AtKey(k)]
    case Gallery(k, _) => [AtKey(k)]
    case FieldChild(k, child) => [AtKey(k)] + Target(child)
    case _ => []
  }

  /** An edit changes nothing outside the element or section it targets. */
  lemma {:induction false} ApplyIsLocal(v: Json, e: Edit)
    requires Apply(v, e).Some?
    ensures ChangedOnlyAt(v, Apply(v, e).value, Target(e))
    decreases e, 2
  {
    match StrategyOf(v)
    case ScalarEditor =>
    case AutoTableEditor =>
    case ElementStack => ElementEditIsLocal(v.items, e);
    case Sections => SectionEditIsLocal(v.fields, e);
  }

  lemma {:induction false} ElementEditIsLocal(items: seq<Json>, e: Edit)
    requires ApplyToElement(items, e).Some?
    ensures ChangedOnlyAt(JArr(items), ApplyToElement(items, e).value, Target(e))
    decreases e, 0
  {
    match e
    case ItemMatrix(i, op) =>
      var nv := MatrixEdit(Some(items[i]), op).value;
      ReplaceChangesOnlyAt(items, i, nv, []);
      assert [AtIndex(i)] + [] == [AtIndex(i)];
    case ItemList(i, op) =>
      var nv := JArr(ListEdit(items[i], op).value);
      ReplaceChangesOnlyAt(items, i, nv, []);
      assert [AtIndex(i)] + [] == [AtIndex(i)];
    case ItemChild(i, child) =>
      ApplyIsLocal(items[i], child);
      ReplaceChangesOnlyAt(items, i, Apply(items[i], child).value, Target(child));
    case _ =>
  }

  lemma {:induction false} SectionEditIsLocal(fs: seq<Member>, e: Edit)
    requires ApplyToSection(fs, e).Some?
    ensures ChangedOnlyAt(JObj(fs), ApplyToSection(fs, e).value, Target(e))
    decreases e, 1
  {
    if e.AddBlock? {
      AddBlockSectionIsLocal(fs, e.key, e.kind);
    } else if e.Gallery? {
      GallerySectionIsLocal(fs, e.key, e.galleryOp);
    } else if e.FieldChild? {
      ChildSectionIsLocal(fs, e.key, e.child);
    } else {
      assert Target(e) == [];
    }
  }

  lemma AddBlockSectionIsLocal(fs: seq<Member>, k: string, kind: BlockKind)
    requires ApplyToSection(fs, AddBlock(k, kind)).Some?
    ensures ChangedOnlyAt(JObj(fs), ApplyToSection(fs, AddBlock(k, kind)).value, [AtKey(k)])
  {
    assert ApplyToSection(fs, AddBlock(k, kind)).value == JObj(HandleAddBlock(fs, k, kind).value);
    AddBlockIsLocal(fs, k, kind);
  }

  lemma GallerySectionIsLocal(fs: seq<Member>, k: string, op: GalleryOp)
    requires ApplyToSection(fs, Gallery(k, op)).Some?
    ensures ChangedOnlyAt(JObj(fs), ApplyToSection(fs, Gallery(k, op)).value, [AtKey(k)])
  {
    var images := GalleryEdit(Lookup(fs, k).value.items, op).value;
    assert ApplyToSection(fs, Gallery(k, op)).value == JObj(Put(fs, k, JArr(images)));
    PutIsLocal(fs, k, JArr(images));
  }

  lemma {:induction false} ChildSectionIsLocal(fs: seq<Member>, k: string, child: Edit)
    requires ApplyToSection(fs, FieldChild(k, child)).Some?
    ensures ChangedOnlyAt(JObj(fs), ApplyToSection(fs, FieldChild(k, child)).value, [AtKey(k)] + Target(child))
    decreases FieldChild(k, child), 0
  {
    var val := Lookup(fs, k).value;
    assert ApplyToSection(fs, FieldChild(k, child)).value == JObj(Put(fs, k, Apply(val, child).value));
    ApplyIsLocal(val, child);
    PutChangesOnlyAt(fs, k, Apply(val, child).value, Target(child));
  }

  lemma AddBlockIsLocal(fs: seq<Member>, k: string, kind: BlockKind)
    requires HasKey(fs, k) && HandleAddBlock(fs, k, kind).Ok?
    ensures ChangedOnlyAt(JObj(fs), JObj(HandleAddBlock(fs, k, kind).value), [AtKey(k)])
  {
    var fs' := HandleAddBlock(fs, k, kind).value;
    assert fs' == Put(fs, k, Lookup(fs', k).value);
    PutIsLocal(fs, k, Lookup(fs', k).value);
  }

  lemma PutIsLocal(fs: seq<Member>, k: string, x: Json)
    requires HasKey(fs, k)
    ensures ChangedOnlyAt(JObj(fs), JObj(Put(fs, k, x)), [AtKey(k)])
  {
    PutChangesOnlyAt(fs, k, x, []);
    assert [AtKey(k)] + [] == [AtKey(k)];
  }

  /** Adding a block to a plain-text field spreads the string into one
      member per character, next to the new `blocks`. */
  lemma AddBlockToTextField(fs: seq<Member>, key: string, text: string, kind: BlockKind)
    requires IsSection(fs, key) && Lookup(fs, key) == Some(JStr(text))
    requires key !in ExcludedFields
    ensures Apply(JObj(fs), AddBlock(key, kind)) == Some(JObj(Put(fs, key, AppendBlock(JStr(text), [], kind))))
  {
    TextFieldTakesBlock(fs, key, text, kind);
    assert StrategyOf(JObj(fs)) == Sections;
  }

  /** The "+ TEXT / + TABLE / + LIST" buttons of a text field, and what they write. */
  lemma TextFieldTakesBlock(fs: seq<Member>, key: string, text: string, kind: BlockKind)
    requires IsSection(fs, key) && Lookup(fs, key) == Some(JStr(text))
    requires key !in ExcludedFields
    ensures ShowsControls(key, JStr(text))
    ensures HandleAddBlock(fs, key, kind) == Ok(Put(fs, key, AppendBlock(JStr(text), [], kind)))
  {
    assert !IsIndexKey("blocks") by { assert !IsDigit("blocks"[0]); }
    assert Prop(JStr(text), "blocks") == None;
    assert SpreadItems(Or(None, JArr([]))) == Ok([]);
  }

  /** The field that results holds the new block and one member per character. */
  lemma TextFieldSpreadsIntoCharacters(text: string, kind: BlockKind)
    ensures var cell := AppendBlock(JStr(text), [], kind);
      Lookup(cell.fields, "blocks") == Some(JArr([NewBlock(kind)]))
      && forall i :: 0 <= i < |text| ==> Lookup(cell.fields, NatToString(i)) == Some(JStr([text[i]]))
  {
    var ms := SpreadMembers(JStr(text));
    var cell := AppendBlock(JStr(text), [], kind);
    assert [] + [NewBlock(kind)] == [NewBlock(kind)];
    SpreadStringLookup(text);
    forall i | 0 <= i < |text| ensures Lookup(cell.fields, NatToString(i)) == Some(JStr([text[i]])) {
      var k := NatToString(i);
      assert k != "blocks" by { assert IsDigit(k[0]); assert !IsDigit("blocks"[0]); }
      assert Lookup(cell.fields, k) == Lookup(ms, k);
    }
  }
}
