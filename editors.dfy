/** The leaf editors of the schema-less tree editor: the matrix editor for
    2-D tables (`InnerTableEditor`), the editor for a list of lines
    (`NestedListEditor`), the image gallery (`HeroImageEditor`) and the
    three kinds of content block with their default contents. Each control
    is a total function from the old value to the value handed to
    `onChange`. */
module Editors {
  import opened Js

  // ---------------------------------------------------------------------
  // Matrix editor

  /** A table as the matrix editor sees it: a list of rows of cells. */
  type Matrix = seq<seq<Json>>

  /** The table shown for missing or empty data: one row of two empty cells. */
  const DefaultMatrix: Matrix := [[EmptyString, EmptyString]]

  function MatrixJson(m: Matrix): (r: Json)
    ensures r.JArr? && |r.items| == |m|
    ensures forall i :: 0 <= i < |m| ==> r.items[i] == JArr(m[i])
  {
    JArr(seq(|m|, i requires 0 <= i < |m| => JArr(m[i])))
  }

  predicate IsNonEmptyArray(data: Option<Json>) {
    data.Some? && data.value.JArr? && |data.value.items| > 0
  }

  predicate AllRowsAreArrays(items: seq<Json>) {
    forall i :: 0 <= i < |items| ==> items[i].JArr?
  }

  /** The table the editor works on (`safeData`). Rendering calls `row.map`
      on every row, so a row that is not an array makes the editor throw
      while rendering: then there is no table to edit. */
  function SafeData(data: Option<Json>): (r: Option<Matrix>)
    ensures r.Some? ==> |r.value| >= 1
    ensures !IsNonEmptyArray(data) ==> r == Some(DefaultMatrix)
    ensures IsNonEmptyArray(data) ==> (r.Some? <==> AllRowsAreArrays(data.value.items))
    ensures IsNonEmptyArray(data) && r.Some? ==> MatrixJson(r.value) == data.value
  {
    if !IsNonEmptyArray(data) then Some(DefaultMatrix)
    else
      var items := data.value.items;
      if AllRowsAreArrays(items) then
        var m := seq(|items|, i requires 0 <= i < |items| && items[i].JArr? => items[i].items);
        assert MatrixJson(m).items == items;
        Some(m)
      else None
  }

  /** Every row has `w` cells. */
  predicate Rectangular(m: Matrix, w: nat) {
    forall i :: 0 <= i < |m| ==> |m[i]| == w
  }

  /** "ADD ROW": one row of empty cells, as many as the first row has. */
  function AddRow(m: Matrix): (r: Matrix)
    requires |m| >= 1
    ensures |r| == |m| + 1 && r[..|m|] == m
    ensures |r[|m|]| == |m[0]| && forall j :: 0 <= j < |m[0]| ==> r[|m|][j] == EmptyString
  {
    m + [seq(|m[0]|, _ => EmptyString)]
  }

  /** "ADD COLUMN": one empty cell at the end of every row. */
  function AddColumn(m: Matrix): (r: Matrix)
    ensures |r| == |m|
    ensures forall i :: 0 <= i < |m| ==> |r[i]| == |m[i]| + 1 && r[i][..|m[i]|] == m[i] && r[i][|m[i]|] == EmptyString
  {
    seq(|m|, i requires 0 <= i < |m| => m[i] + [EmptyString])
  }

  /** The delete button of column `col`: nothing happens while the first row
      has at most one cell; otherwise cell `col` leaves every row. */
  function RemoveColumn(m: Matrix, col: nat): (r: Matrix)
    requires |m| >= 1
    ensures |m[0]| <= 1 ==> r == m
    ensures |m[0]| > 1 ==> |r| == |m| && forall i :: 0 <= i < |m| ==> r[i] == RemoveAt(m[i], col)
  {
    if |m[0]| <= 1 then m else seq(|m|, i requires 0 <= i < |m| => RemoveAt(m[i], col))
  }

  /** The delete button at the end of row `row`; there is no floor, the last row can go. */
  function RemoveRow(m: Matrix, row: nat): (r: Matrix)
    requires row < |m|
    ensures |r| == |m| - 1
    ensures forall i :: 0 <= i < |r| ==> r[i] == m[if i < row then i else i + 1]
  {
    RemoveAt(m, row)
  }

  /** Typing into cell (`row`, `col`): that cell becomes the typed text. */
  function EditCell(m: Matrix, row: nat, col: nat, text: string): (r: Matrix)
    requires row < |m| && col < |m[row]|
    ensures |r| == |m| && forall i :: 0 <= i < |m| ==> |r[i]| == |m[i]|
    ensures r[row][col] == JStr(text)
    ensures forall i, j :: 0 <= i < |m| && 0 <= j < |m[i]| && (i, j) != (row, col) ==> r[i][j] == m[i][j]
  {
    m[row := m[row][col := JStr(text)]]
  }

  datatype MatrixOp =
    | AddRowOp
    | AddColumnOp
    | RemoveColumnOp(col: nat)
    | RemoveRowOp(row: nat)
    | EditCellOp(row: nat, col: nat, text: string)

  /** The controls the editor draws: a delete-column button on each cell of
      the first row, a delete button per row, a text area per cell. */
  predicate MatrixOffers(m: Matrix, op: MatrixOp) {
    match op
    case RemoveColumnOp(col) => |m| >= 1 && col < |m[0]|
    case RemoveRowOp(row) => row < |m|
    case EditCellOp(row, col, _) => row < |m| && col < |m[row]|
    case _ => true
  }

  function MatrixStep(m: Matrix, op: MatrixOp): Matrix
    requires |m| >= 1 && MatrixOffers(m, op)
  {
    match op
    case AddRowOp => AddRow(m)
    case AddColumnOp => AddColumn(m)
    case RemoveColumnOp(col) => RemoveColumn(m, col)
    case RemoveRowOp(row) => RemoveRow(m, row)
    case EditCellOp(row, col, text) => EditCell(m, row, col, text)
  }

  /** The width a rectangular table has after the operation. */
  function WidthAfter(w: nat, op: MatrixOp): nat {
    match op
    case AddColumnOp => w + 1
    case RemoveColumnOp(_) => if w <= 1 then w else w - 1
    case _ => w
  }

  /** Every operation keeps a rectangular table rectangular. */
  lemma MatrixStepKeepsRectangular(m: Matrix, w: nat, op: MatrixOp)
    requires |m| >= 1 && MatrixOffers(m, op) && Rectangular(m, w)
    ensures Rectangular(MatrixStep(m, op), WidthAfter(w, op))
  {
    if op.RemoveColumnOp? && w > 1 {
      var r := MatrixStep(m, op);
      forall i | 0 <= i < |r| ensures |r[i]| == w - 1 {
        assert r[i] == RemoveAt(m[i], op.col);
      }
    }
  }

  /** The matrix editor as a whole: the table it shows for `data` and the
      new table that one of its controls hands on; `None` when the editor
      cannot render or does not offer the control. */
  function MatrixEdit(data: Option<Json>, op: MatrixOp): (r: Option<Json>)
    ensures r.Some? ==> r.value.JArr? && AllRowsAreArrays(r.value.items)
    ensures r.Some? <==> SafeData(data).Some? && MatrixOffers(SafeData(data).value, op)
    ensures r.Some? ==> r.value == MatrixJson(MatrixStep(SafeData(data).value, op))
  {
    match SafeData(data)
    case None => None
    case Some(m) =>
      if MatrixOffers(m, op) then Some(MatrixJson(MatrixStep(m, op))) else None
  }

  /** A missing or empty table is the default table before any edit, so
      adding a column to `[]` gives one row of three empty cells. */
  lemma AddColumnToMissingTable()
    ensures MatrixEdit(None, AddColumnOp) == Some(JArr([JArr([EmptyString, EmptyString, EmptyString])]))
    ensures MatrixEdit(Some(JArr([])), AddColumnOp) == Some(JArr([JArr([EmptyString, EmptyString, EmptyString])]))
  {
    var m := AddColumn(DefaultMatrix);
    assert m[0] == [EmptyString, EmptyString, EmptyString];
    assert MatrixJson(m).items == [JArr([EmptyString, EmptyString, EmptyString])];
  }

  /** Deleting the only row leaves an empty table. */
  lemma RemoveLastRow(data: Json)
    requires data.JArr? && |data.items| == 1 && data.items[0].JArr?
    ensures MatrixEdit(Some(data), RemoveRowOp(0)) == Some(JArr([]))
  {
  }

  // ---------------------------------------------------------------------
  // List-of-lines editor

  datatype ListOp =
    | EditLine(index: nat, text: string)
    | DeleteLine(index: nat)
    | AddLine

  /** The list editor renders only for an array; each line has a text area
      and a delete button, and "ADD LINE" appends an empty line. */
  function ListEdit(items: Json, op: ListOp): (r: Option<seq<Json>>)
    ensures !items.JArr? ==> r == None
    ensures items.JArr? && op.EditLine? ==> (r.Some? <==> op.index < |items.items|)
    ensures items.JArr? && op.EditLine? && r.Some? ==> r.value == items.items[op.index := JStr(op.text)]
    ensures items.JArr? && op.DeleteLine? ==> (r.Some? <==> op.index < |items.items|)
    ensures items.JArr? && op.DeleteLine? && r.Some? ==>
      |r.value| == |items.items| - 1 && forall j :: 0 <= j < |r.value| ==> r.value[j] == items.items[if j < op.index then j else j + 1]
    ensures items.JArr? && op.AddLine? ==> r == Some(items.items + [EmptyString])
  {
    match items
    case JArr(lines) =>
      (match op
       case EditLine(i, text) => if i < |lines| then Some(lines[i := JStr(text)]) else None
       case DeleteLine(i) => if i < |lines| then Some(RemoveAt(lines, i)) else None
       case AddLine => Some(lines + [EmptyString]))
    case _ => None
  }

  // ---------------------------------------------------------------------
  // Image gallery

  datatype GalleryOp =
    | DeleteImage(index: nat)
    | UploadImage(url: string)

  /** The gallery: the delete button on image `index`, and "UPLOAD", which
      appends the typed URL and does nothing for an empty one. */
  function GalleryEdit(images: seq<Json>, op: GalleryOp): (r: Option<seq<Json>>)
    ensures op.DeleteImage? ==> (r.Some? <==> op.index < |images|)
    ensures op.DeleteImage? && r.Some? ==>
      |r.value| == |images| - 1 && forall j :: 0 <= j < |r.value| ==> r.value[j] == images[if j < op.index then j else j + 1]
    ensures op.UploadImage? ==> (r.Some? <==> op.url != "")
    ensures op.UploadImage? && r.Some? ==> r.value == images + [JStr(op.url)]
  {
    match op
    case DeleteImage(i) => if i < |images| then Some(RemoveAt(images, i)) else None
    case UploadImage(url) => if url != "" then Some(images + [JStr(url)]) else None
  }

  // ---------------------------------------------------------------------
  // Content blocks

  datatype BlockKind = TextBlock | ListBlock | TableBlock

  function KindName(kind: BlockKind): string {
    match kind
    case TextBlock => "text"
    case ListBlock => "list"
    case TableBlock => "table"
  }

  /** The `data` a new block starts with: what its own editor reads
      without throwing — an empty text, one empty line, the default table. */
  function DefaultData(kind: BlockKind): (r: Json)
    ensures r.JObj?
    ensures kind == TextBlock ==> Prop(r, "text") == Some(EmptyString)
    ensures kind == ListBlock ==>
      Prop(r, "items").Some? && ListEdit(Prop(r, "items").value, AddLine) == Some([EmptyString, EmptyString])
    ensures kind == TableBlock ==> SafeData(Prop(r, "rows")) == Some(DefaultMatrix)
  {
    match kind
    case TextBlock => JObj([Member("text", EmptyString)])
    case ListBlock =>
      assert [EmptyString] + [EmptyString] == [EmptyString, EmptyString];
      JObj([Member("items", JArr([EmptyString]))])
    case TableBlock =>
      DefaultRowsAreDefaultMatrix();
      JObj([Member("columns", JArr([JStr("Header 1"), JStr("Header 2")])),
            Member("rows", JArr([JArr([EmptyString, EmptyString])]))])
  }

  /** The rows of a new table block read back as the default matrix. */
  lemma DefaultRowsAreDefaultMatrix()
    ensures SafeData(Some(JArr([JArr([EmptyString, EmptyString])]))) == Some(DefaultMatrix)
  {
    var rows := Some(JArr([JArr([EmptyString, EmptyString])]));
    assert MatrixJson(DefaultMatrix) == rows.value;
    assert SafeData(rows).value == DefaultMatrix by {
      assert MatrixJson(SafeData(rows).value) == MatrixJson(DefaultMatrix);
      MatrixJsonInjective(SafeData(rows).value, DefaultMatrix);
    }
  }

  /** `{type: kind, data: DefaultData(kind)}`: the editor of its own kind
      renders it. */
  function NewBlock(kind: BlockKind): (r: Json)
    ensures r.JObj? && Keys(r.fields) == ["type", "data"]
    ensures Prop(r, "type") == Some(JStr(KindName(kind)))
    ensures Prop(r, "data") == Some(DefaultData(kind))
  {
    var fs := [Member("type", JStr(KindName(kind))), Member("data", DefaultData(kind))];
    KeyIndexIsFirst(fs, "data", 1);
    JObj(fs)
  }

  lemma MatrixJsonInjective(a: Matrix, b: Matrix)
    requires MatrixJson(a) == MatrixJson(b)
    ensures a == b
  {
    assert |a| == |b|;
    forall i | 0 <= i < |a| ensures a[i] == b[i] {
      assert MatrixJson(a).items[i] == MatrixJson(b).items[i];
    }
  }

  /** The field value after a block is appended: the members `{...field}`
      copies, with `blocks` set to the existing blocks plus the new one. */
  function AppendBlock(field: Json, existing: seq<Json>, kind: BlockKind): (r: Json)
    ensures r.JObj?
    ensures Lookup(r.fields, "blocks") == Some(JArr(existing + [NewBlock(kind)]))
    ensures forall k :: k != "blocks" ==> Lookup(r.fields, k) == Lookup(SpreadMembers(field), k)
    ensures field.JObj? ==> Keys(r.fields) == if HasKey(field.fields, "blocks") then Keys(field.fields) else Keys(field.fields) + ["blocks"]
  {
    JObj(Put(SpreadMembers(field), "blocks", JArr(existing + [NewBlock(kind)])))
  }
}
