/** The auto data table (`AutoDataTable`): an array of record objects
    shown as a table whose columns are the keys met in the rows, where
    every cell holds a list of content blocks. */
module AutoTable {
  import opened Js
  import opened Editors
  import opened Fields

  // ---------------------------------------------------------------------
  // Column headers

  /** `Object.keys(row)` for the rows the header scan looks at: every
      object and every array passes `row && typeof row === "object"`; an
      array's keys are its index names. */
  function RowKeys(row: Json): seq<string> {
    if row.JObj? || row.JArr? then Keys(SpreadMembers(row)) else []
  }

  /** `xs.flatMap(f)`. */
  function FlatMap<T>(xs: seq<T>, f: T -> seq<string>): seq<string> {
    if xs == [] then [] else FlatMap(xs[..|xs| - 1], f) + f(xs[|xs| - 1])
  }

  /** A text is in `xs.flatMap(f)` exactly when `f` gives it for some element. */
  lemma {:induction false} FlatMapMembership<T>(xs: seq<T>, f: T -> seq<string>, k: string)
    ensures k in FlatMap(xs, f) <==> exists i :: 0 <= i < |xs| && k in f(xs[i])
  {
    if xs != [] {
      var pre := xs[..|xs| - 1];
      FlatMapMembership(pre, f, k);
      assert forall i :: 0 <= i < |pre| ==> pre[i] == xs[i];
    }
  }

  /** `data.flatMap(row => …keys…)`. */
  function AllKeys(rows: seq<Json>): seq<string> {
    FlatMap(rows, RowKeys)
  }

  lemma AllKeysMembership(rows: seq<Json>, k: string)
    ensures k in AllKeys(rows) <==> exists i :: 0 <= i < |rows| && k in RowKeys(rows[i])
  {
    FlatMapMembership(rows, RowKeys, k);
  }

  predicate NoDuplicates(xs: seq<string>) {
    forall i, j :: 0 <= i < j < |xs| ==> xs[i] != xs[j]
  }

  /** `Array.from(new Set(xs))`: each element once, where it first occurs. */
  function Distinct(xs: seq<string>): (r: seq<string>)
    ensures forall x :: x in r <==> x in xs
    ensures NoDuplicates(r)
  {
    if xs == [] then []
    else
      var pre := xs[..|xs| - 1];
      var d := Distinct(pre);
      var x := xs[|xs| - 1];
      assert xs == pre + [x];
      if x in d then d else d + [x]
  }

  /** `xs.filter(k => !drop.includes(k))`. */
  function Without(xs: seq<string>, drop: seq<string>): (r: seq<string>)
    ensures forall x :: x in r <==> x in xs && x !in drop
  {
    if xs == [] then []
    else
      var pre := xs[..|xs| - 1];
      var x := xs[|xs| - 1];
      assert xs == pre + [x];
      if x in drop then Without(pre, drop) else Without(pre, drop) + [x]
  }

  /** The column headers. */
  function Headers(data: seq<Json>): (h: seq<string>)
    ensures NoDuplicates(h)
    ensures forall k :: k in h <==> k !in NoBlockFields && exists i :: 0 <= i < |data| && k in RowKeys(data[i])
  {
    var h := Without(Distinct(AllKeys(data)), NoBlockFields);
    forall k ensures k in h <==> k !in NoBlockFields && exists i :: 0 <= i < |data| && k in RowKeys(data[i]) {
      AllKeysMembership(data, k);
    }
    WithoutKeepsNoDuplicates(Distinct(AllKeys(data)), NoBlockFields);
    h
  }

  lemma {:induction false} WithoutKeepsNoDuplicates(xs: seq<string>, drop: seq<string>)
    requires NoDuplicates(xs)
    ensures NoDuplicates(Without(xs, drop))
  {
    if xs != [] {
      var pre := xs[..|xs| - 1];
      WithoutKeepsNoDuplicates(pre, drop);
      assert xs[|xs| - 1] !in pre;
    }
  }

  /** Dropping names first and deduplicating afterwards gives the same list. */
  lemma {:induction false} WithoutDistinct(xs: seq<string>, drop: seq<string>)
    ensures Without(Distinct(xs), drop) == Distinct(Without(xs, drop))
  {
    if xs != [] {
      var pre := xs[..|xs| - 1];
      var x := xs[|xs| - 1];
      WithoutDistinct(pre, drop);
      if x !in drop {
        assert Without(xs, drop) == Without(pre, drop) + [x];
        var w := Without(pre, drop);
        assert (w + [x])[..|w + [x]| - 1] == w;
      }
    }
  }

  /** Position of the first occurrence of `x`. */
  function FirstIndex(xs: seq<string>, x: string): (i: nat)
    requires x in xs
    ensures i < |xs| && xs[i] == x && x !in xs[..i]
  {
    if xs[0] == x then 0 else 1 + FirstIndex(xs[1..], x)
  }

  lemma {:induction false} FirstIndexInPrefix(xs: seq<string>, ys: seq<string>, x: string)
    requires x in xs
    ensures FirstIndex(xs + ys, x) == FirstIndex(xs, x)
  {
    if xs[0] != x {
      assert (xs + ys)[1..] == xs[1..] + ys;
      FirstIndexInPrefix(xs[1..], ys, x);
    }
  }

  lemma {:induction false} FirstIndexOfNew(xs: seq<string>, x: string)
    requires x !in xs
    ensures FirstIndex(xs + [x], x) == |xs|
  {
    if xs != [] {
      assert (xs + [x])[1..] == xs[1..] + [x];
      FirstIndexOfNew(xs[1..], x);
    }
  }

  /** The elements of `Distinct(xs)` come in the order of their first occurrence in `xs`. */
  lemma {:induction false} DistinctInFirstSeenOrder(xs: seq<string>)
    ensures forall i, j :: 0 <= i < j < |Distinct(xs)| ==> FirstIndex(xs, Distinct(xs)[i]) < FirstIndex(xs, Distinct(xs)[j])
  {
    if xs != [] {
      var pre := xs[..|xs| - 1];
      var x := xs[|xs| - 1];
      var d := Distinct(pre);
      assert xs == pre + [x];
      DistinctInFirstSeenOrder(pre);
      forall y | y in d ensures FirstIndex(xs, y) == FirstIndex(pre, y) {
        FirstIndexInPrefix(pre, [x], y);
      }
      if x !in d {
        FirstIndexOfNew(pre, x);
        var r := d + [x];
        forall i, j | 0 <= i < j < |r| ensures FirstIndex(xs, r[i]) < FirstIndex(xs, r[j]) {
          assert r[i] in d;
          if j == |d| {
            assert FirstIndex(pre, r[i]) < |pre|;
          }
        }
      }
    }
  }

  /** The headers are the scanned keys outside `NO_BLOCK_FIELDS`, each
      once, in the order in which they are first met. */
  lemma HeadersInFirstSeenOrder(data: seq<Json>)
    ensures var keys := Without(AllKeys(data), NoBlockFields);
      var h := Headers(data);
      forall i, j :: 0 <= i < j < |h| ==> FirstIndex(keys, h[i]) < FirstIndex(keys, h[j])
  {
    WithoutDistinct(AllKeys(data), NoBlockFields);
    DistinctInFirstSeenOrder(Without(AllKeys(data), NoBlockFields));
  }

  // ---------------------------------------------------------------------
  // Add row

  /** The empty cell of a new row. */
  const EmptyCell: Json := JObj([Member("blocks", JArr([]))])

  /** `headers.reduce((acc, h) => ({...acc, [h]: {blocks: []}}), {})`. */
  function EmptyRowMembers(headers: seq<string>): seq<Member> {
    if headers == [] then []
    else Put(EmptyRowMembers(headers[..|headers| - 1]), headers[|headers| - 1], EmptyCell)
  }

  /** For distinct headers the reduction builds one empty cell per header, in header order. */
  lemma {:induction false} EmptyRowShape(headers: seq<string>)
    requires NoDuplicates(headers)
    ensures Keys(EmptyRowMembers(headers)) == headers
    ensures forall j :: 0 <= j < |headers| ==> EmptyRowMembers(headers)[j] == Member(headers[j], EmptyCell)
  {
    if headers != [] {
      var pre := headers[..|headers| - 1];
      var h := headers[|headers| - 1];
      assert NoDuplicates(pre) by {
        forall i | 0 <= i < |pre| ensures pre[i] == headers[i] { }
      }
      EmptyRowShape(pre);
      var fs := EmptyRowMembers(pre);
      assert h !in Keys(fs) by {
        forall i | 0 <= i < |pre| ensures pre[i] != h {
          assert pre[i] == headers[i];
        }
      }
      HasKeyInKeys(fs, h);
      PutNew(fs, h, EmptyCell);
      var r := fs + [Member(h, EmptyCell)];
      assert EmptyRowMembers(headers) == r;
      DropLast(headers);
      assert Keys(r) == Keys(fs) + [h];
      forall j | 0 <= j < |headers| ensures r[j] == Member(headers[j], EmptyCell) {
        if j < |pre| {
          assert r[j] == fs[j] && headers[j] == pre[j];
        }
      }
    }
  }

  /** "+ ADD ROW": a row with an empty cell under every header. */
  function AddTableRow(data: seq<Json>): (r: seq<Json>)
    ensures |r| == |data| + 1 && r[..|data|] == data
    ensures r[|data|].JObj? && Keys(r[|data|].fields) == Headers(data)
    ensures forall j :: 0 <= j < |Headers(data)| ==> Lookup(r[|data|].fields, Headers(data)[j]) == Some(EmptyCell)
  {
    var h := Headers(data);
    var fs := EmptyRowMembers(h);
    EmptyRowShape(h);
    forall j | 0 <= j < |h| ensures Lookup(fs, h[j]) == Some(EmptyCell) {
      assert Keys(fs)[j] == h[j];
      KeyIndexIsFirst(fs, h[j], j);
    }
    data + [JObj(fs)]
  }

  lemma {:induction false} WithoutConcat(xs: seq<string>, ys: seq<string>, drop: seq<string>)
    ensures Without(xs + ys, drop) == Without(xs, drop) + Without(ys, drop)
  {
    if ys != [] {
      var pre := ys[..|ys| - 1];
      assert (xs + ys)[..|xs + ys| - 1] == xs + pre;
      assert (xs + ys)[|xs + ys| - 1] == ys[|ys| - 1];
      WithoutConcat(xs, pre, drop);
    } else {
      assert xs + ys == xs;
    }
  }

  lemma {:induction false} WithoutNothingToDrop(xs: seq<string>, drop: seq<string>)
    requires forall x :: x in xs ==> x !in drop
    ensures Without(xs, drop) == xs
  {
    if xs != [] {
      var pre := xs[..|xs| - 1];
      WithoutNothingToDrop(pre, drop);
      assert xs == pre + [xs[|xs| - 1]];
    }
  }

  lemma {:induction false} DistinctOfKnown(xs: seq<string>, ys: seq<string>)
    requires forall y :: y in ys ==> y in xs
    ensures Distinct(xs + ys) == Distinct(xs)
  {
    if ys != [] {
      var pre := ys[..|ys| - 1];
      assert (xs + ys)[..|xs + ys| - 1] == xs + pre;
      assert (xs + ys)[|xs + ys| - 1] == ys[|ys| - 1];
      DistinctOfKnown(xs, pre);
    } else {
      assert xs + ys == xs;
    }
  }

  /** Adding a row never changes the columns. */
  lemma AddTableRowKeepsHeaders(data: seq<Json>)
    ensures Headers(AddTableRow(data)) == Headers(data)
  {
    var h := Headers(data);
    var r := AddTableRow(data);
    assert r[..|r| - 1] == data;
    assert RowKeys(r[|data|]) == h;
    assert AllKeys(r) == AllKeys(data) + h;
    WithoutDistinct(AllKeys(r), NoBlockFields);
    WithoutDistinct(AllKeys(data), NoBlockFields);
    WithoutConcat(AllKeys(data), h, NoBlockFields);
    WithoutNothingToDrop(h, NoBlockFields);
    var w := Without(AllKeys(data), NoBlockFields);
    forall y | y in h ensures y in w {
      AllKeysMembership(data, y);
    }
    DistinctOfKnown(w, h);
  }

  // ---------------------------------------------------------------------
  // Cells and their blocks

  /** A block of a cell renders without throwing: `block.type` cannot be
      read from `null`; a text, list or table block reads a member of
      `block.data`, which must therefore be present and not `null`; and a
      table block's rows must pass the matrix editor, which maps every row. */
  predicate BlockRenders(b: Json) {
    && b != JNull
    && (IsEditorBlock(b) ==> Prop(b, "data").Some? && Prop(b, "data").value != JNull)
    && (Prop(b, "type") == Some(JStr("table")) && Prop(b, "data").Some? ==>
          SafeData(Prop(Prop(b, "data").value, "rows")).Some?)
  }

  /** A block of the three kinds the cell shows an editor for. */
  predicate IsEditorBlock(b: Json) {
    Prop(b, "type") == Some(JStr("text")) || Prop(b, "type") == Some(JStr("list"))
    || Prop(b, "type") == Some(JStr("table"))
  }

  /** A cell renders when every block of an array `blocks` renders; other
      cells show no blocks. */
  predicate CellRenders(cell: Option<Json>) {
    forall i :: 0 <= i < |CellBlocks(cell)| ==> BlockRenders(CellBlocks(cell)[i])
  }

  /** The table renders for a non-empty array when no cell throws: reading
      `row[h]` throws for a `null` row as soon as there is a column, and
      every cell under a header must render. */
  predicate Renders(data: seq<Json>) {
    && |data| > 0
    && (Headers(data) == [] || forall i :: 0 <= i < |data| ==> data[i] != JNull)
    && (forall i, h {:trigger CellRenders(Prop(data[i], h))} :: 0 <= i < |data| && h in Headers(data) ==> CellRenders(Prop(data[i], h)))
  }

  /** A `null` block in a cell makes the whole table throw while
      rendering, so none of its controls is offered. */
  lemma NullBlockStopsTable(row: seq<Member>, h: string)
    requires h !in NoBlockFields && Lookup(row, h) == Some(JObj([Member("blocks", JArr([JNull]))]))
    ensures !Renders([JObj(row)])
    ensures TableEdit([JObj(row)], TableOp.AddRowOp) == None
  {
    var data := [JObj(row)];
    var cell := JObj([Member("blocks", JArr([JNull]))]);
    HasKeyInKeys(row, h);
    assert h in RowKeys(data[0]);
    assert h in Headers(data);
    assert Prop(data[0], h) == Some(cell);
    assert Lookup(cell.fields, "blocks") == Some(JArr([JNull]));
    assert CellBlocks(Some(cell)) == [JNull];
    assert !BlockRenders(CellBlocks(Prop(data[0], h))[0]);
    assert !CellRenders(Prop(data[0], h));
  }

  /** The cell at row `row`, column `h`. */
  predicate HasCell(data: seq<Json>, row: nat, h: string) {
    Renders(data) && row < |data| && h in Headers(data)
  }

  /** The blocks `Array.isArray(currentVal?.blocks)` accepts, else none. */
  function CellBlocks(cell: Option<Json>): seq<Json> {
    match PropOpt(cell, "blocks")
    case Some(JArr(bs)) => bs
    case _ => []
  }

  /** The "+ TEXT / + TABLE / + LIST" buttons of a cell (`addBlockToField`):
      the row is rebuilt from its members with the cell set to
      `{...(currentVal || {}), blocks: [...blocks, newBlock]}`. */
  function AddBlockToField(data: seq<Json>, row: nat, h: string, kind: BlockKind): (r: Option<seq<Json>>)
    ensures r.Some? <==> HasCell(data, row, h) && h !in ExcludedFields
    ensures r.Some? ==> |r.value| == |data| && forall j :: 0 <= j < |data| && j != row ==> r.value[j] == data[j]
    ensures r.Some? ==> r.value[row].JObj?
    ensures r.Some? ==> Lookup(r.value[row].fields, h) == Some(AppendBlock(Or(Prop(data[row], h), EmptyObject), CellBlocks(Prop(data[row], h)), kind))
    ensures r.Some? ==> forall k :: k != h ==> Lookup(r.value[row].fields, k) == Lookup(SpreadMembers(data[row]), k)
  {
    if HasCell(data, row, h) && h !in ExcludedFields then Some(WithBlockAdded(data, row, h, kind)) else None
  }

  /** The rows after the cell at (`row`, `h`) gains a block. */
  function WithBlockAdded(data: seq<Json>, row: nat, h: string, kind: BlockKind): (r: seq<Json>)
    requires row < |data|
    ensures |r| == |data| && forall j :: 0 <= j < |data| && j != row ==> r[j] == data[j]
    ensures r[row].JObj?
    ensures Lookup(r[row].fields, h) == Some(AppendBlock(Or(Prop(data[row], h), EmptyObject), CellBlocks(Prop(data[row], h)), kind))
    ensures forall k :: k != h ==> Lookup(r[row].fields, k) == Lookup(SpreadMembers(data[row]), k)
  {
    var current := Prop(data[row], h);
    var cell := AppendBlock(Or(current, EmptyObject), CellBlocks(current), kind);
    data[row := JObj(Put(SpreadMembers(data[row]), h, cell))]
  }

  /** The new cell holds the old blocks (when they were an array) followed
      by exactly one new block of the chosen kind; its other members stay. */
  lemma AddBlockToFieldAppendsOne(data: seq<Json>, row: nat, h: string, kind: BlockKind)
    requires AddBlockToField(data, row, h, kind).Some?
    requires Prop(data[row], h).Some? && Prop(data[row], h).value.JObj?
    ensures var cell := Lookup(AddBlockToField(data, row, h, kind).value[row].fields, h).value;
      var old_ := Prop(data[row], h).value;
      cell.JObj?
      && Lookup(cell.fields, "blocks") == Some(JArr(CellBlocks(Some(old_)) + [NewBlock(kind)]))
      && (forall k :: k != "blocks" ==> Lookup(cell.fields, k) == Lookup(old_.fields, k))
  {
    var current := Prop(data[row], h);
    var old_ := current.value;
    assert Truthy(old_);
    assert Or(current, EmptyObject) == old_;
    assert SpreadMembers(old_) == old_.fields;
    var cell := AppendBlock(old_, CellBlocks(current), kind);
    assert Lookup(AddBlockToField(data, row, h, kind).value[row].fields, h) == Some(cell);
  }

  datatype CellEdit =
    | EditText(text: string)    // the text area of a text block
    | EditItems(lineOp: ListOp)   // the list editor of a list block
    | EditRows(cellOp: MatrixOp)  // the matrix editor of a table block

  function EditKindName(e: CellEdit): string {
    match e
    case EditText(_) => "text"
    case EditItems(_) => "list"
    case EditRows(_) => "table"
  }

  /** The member names from the table down to a block's `data`. */
  function BlockDataPath(row: nat, h: string, i: nat): seq<string> {
    [NatToString(row), h, "blocks", NatToString(i), "data"]
  }

  /** The block the control belongs to: block `i` of the cell, rendered by
      the editor its `type` names; `block.data` must be readable. */
  function BlockData(data: seq<Json>, row: nat, h: string, i: nat, e: CellEdit): Option<Json> {
    if !HasCell(data, row, h) then None
    else
      var bs := CellBlocks(Prop(data[row], h));
      if PropOpt(Prop(data[row], h), "blocks").Some? && PropOpt(Prop(data[row], h), "blocks").value.JArr?
         && i < |bs| && Prop(bs[i], "type") == Some(JStr(EditKindName(e)))
      then
        match Prop(bs[i], "data")
        case Some(d) => if d != JNull then Some(d) else None
        case None => None
      else None
  }

  /** The member of the block's `data` a control writes, and the value
      written: the typed text, the list editor's new lines, the matrix
      editor's new rows. */
  function BlockWrite(d: Json, e: CellEdit): Option<(string, Json)> {
    match e
    case EditText(text) => Some(("text", JStr(text)))
    case EditItems(op) =>
      (match Prop(d, "items")
       case None => None
       case Some(items) =>
         match ListEdit(items, op)
         case None => None
         case Some(lines) => Some(("items", JArr(lines))))
    case EditRows(op) =>
      (match MatrixEdit(Prop(d, "rows"), op)
       case None => None
       case Some(rows) => Some(("rows", rows)))
  }

  /** A block edit assigns into the block's `data` in place
      (`copy[row][h].blocks[i].data.text = …`, `.items = …`, `.rows = …`);
      the new table is the value those writes leave. Only the edited row
      changes, and reading the written member back gives the new value. */
  function EditBlock(data: seq<Json>, row: nat, h: string, i: nat, e: CellEdit): (r: Option<Json>)
    ensures r.Some? <==>
      (BlockData(data, row, h, i, e).Some? && BlockWrite(BlockData(data, row, h, i, e).value, e).Some?
       && BlockData(data, row, h, i, e).value.JObj?)
    ensures r.Some? ==> BlockData(data, row, h, i, e).Some? && BlockWrite(BlockData(data, row, h, i, e).value, e).Some?
    ensures r.Some? ==> r.value.JArr? && |r.value.items| == |data|
    ensures r.Some? ==> forall j :: 0 <= j < |data| && j != row ==> r.value.items[j] == data[j]
    ensures r.Some? ==> var (tail, x) := BlockWrite(BlockData(data, row, h, i, e).value, e).value;
      GetPath(r.value, BlockDataPath(row, h, i) + [tail]) == Ok(Some(x))
    ensures r.Some? ==> ChangedOnlyAt(JArr(data), r.value, StepsOf(JArr(data), BlockDataPath(row, h, i)))
    ensures r.Some? ==> var d := BlockData(data, row, h, i, e).value;
      var (tail, x) := BlockWrite(d, e).value;
      d.JObj? && GetPath(r.value, BlockDataPath(row, h, i)) == Ok(Some(JObj(Put(d.fields, tail, x))))
      && forall k :: k != tail ==> Lookup(Put(d.fields, tail, x), k) == Lookup(d.fields, k)
  {
    match BlockData(data, row, h, i, e)
    case None => None
    case Some(d) =>
      match BlockWrite(d, e)
      case None => None
      case Some((tail, x)) =>
        var path := BlockDataPath(row, h, i) + [tail];
        var w := AssignPath(JArr(data), path, x);
        EditBlockWhen(data, row, h, i, e);
        if w.Ok? then
          AssignPathThenGet(JArr(data), path, x);
          EditBlockStaysInRow(data, row, h, i, tail, x);
          AssignPathChangesOnlyAt(JArr(data), BlockDataPath(row, h, i), tail, x);
          BlockDataAt(data, row, h, i, e);
          Some(w.value)
        else None
  }

  /** The facts `BlockData` checks, one value at a time. */
  predicate BlockPathFacts(data: seq<Json>, row: nat, h: string, i: nat, cell: Json, bs: seq<Json>, d: Json) {
    row < |data| && Prop(data[row], h) == Some(cell) && Prop(cell, "blocks") == Some(JArr(bs))
    && i < |bs| && Prop(bs[i], "data") == Some(d)
  }

  lemma BlockDataFacts(data: seq<Json>, row: nat, h: string, i: nat, e: CellEdit)
    requires BlockData(data, row, h, i, e).Some?
    ensures row < |data| && Prop(data[row], h).Some?
    ensures BlockPathFacts(data, row, h, i, Prop(data[row], h).value,
      CellBlocks(Prop(data[row], h)), BlockData(data, row, h, i, e).value)
  {
  }

  lemma BlockPathGet(data: seq<Json>, row: nat, h: string, i: nat, cell: Json, bs: seq<Json>, d: Json)
    requires BlockPathFacts(data, row, h, i, cell, bs, d)
    ensures GetPath(JArr(data), BlockDataPath(row, h, i)) == Ok(Some(d))
  {
    PropIndex(data, row);
    PropIndex(bs, i);
    var p := BlockDataPath(row, h, i);
    assert GetPath(bs[i], ["data"]) == Ok(Some(d));
    assert GetPath(JArr(bs), p[3..]) == GetPath(bs[i], ["data"]);
    assert GetPath(cell, p[2..]) == GetPath(JArr(bs), p[3..]);
    assert GetPath(data[row], p[1..]) == GetPath(cell, p[2..]);
  }

  lemma BlockPathSteps(data: seq<Json>, row: nat, h: string, i: nat, cell: Json, bs: seq<Json>, d: Json)
    requires BlockPathFacts(data, row, h, i, cell, bs, d) && data[row].JObj? && cell.JObj? && bs[i].JObj?
    ensures StepsOf(JArr(data), BlockDataPath(row, h, i))
      == [AtIndex(row), AtKey(h), AtKey("blocks"), AtIndex(i), AtKey("data")]
  {
    IndexKeyOfNat(row);
    IndexKeyOfNat(i);
    PropIndex(data, row);
    PropIndex(bs, i);
    var p := BlockDataPath(row, h, i);
    assert StepsOf(bs[i], p[4..]) == [AtKey("data")];
    assert StepsOf(JArr(bs), p[3..]) == [AtIndex(i), AtKey("data")];
    assert StepsOf(cell, p[2..]) == [AtKey("blocks"), AtIndex(i), AtKey("data")];
    assert StepsOf(data[row], p[1..]) == [AtKey(h), AtKey("blocks"), AtIndex(i), AtKey("data")];
  }

  /** The `data` a block control edits is the value the member names of
      `BlockDataPath` lead to. */
  lemma BlockDataAt(data: seq<Json>, row: nat, h: string, i: nat, e: CellEdit)
    requires BlockData(data, row, h, i, e).Some?
    ensures GetPath(JArr(data), BlockDataPath(row, h, i)) == Ok(Some(BlockData(data, row, h, i, e).value))
  {
    BlockDataFacts(data, row, h, i, e);
    BlockPathGet(data, row, h, i, Prop(data[row], h).value, CellBlocks(Prop(data[row], h)), BlockData(data, row, h, i, e).value);
  }

  /** The containers from the table down to the block are objects or
      arrays holding the next member, so every read on the way succeeds. */
  lemma BlockPathWritable(data: seq<Json>, row: nat, h: string, i: nat, cell: Json, bs: seq<Json>, d: Json)
    requires BlockPathFacts(data, row, h, i, cell, bs, d)
    ensures WritableAlong(JArr(data), BlockDataPath(row, h, i))
  {
    PropIndex(data, row);
    PropIndex(bs, i);
    assert !IsIndexKey("blocks") by { assert !IsDigit("blocks"[0]); }
    assert !IsIndexKey("data") by { assert !IsDigit("data"[0]); }
    assert cell.JObj?;
    assert data[row].JObj? || data[row].JArr?;
    assert bs[i].JObj?;
    var p := BlockDataPath(row, h, i);
    assert WritableAlong(d, p[5..]);
    assert WritableAlong(bs[i], p[4..]);
    assert WritableAlong(JArr(bs), p[3..]);
    assert WritableAlong(cell, p[2..]);
    assert WritableAlong(data[row], p[1..]);
  }

  /** A block edit takes place exactly when the block's `data` is an
      object: every container above it holds the next member, and the
      member written (`text`, `items` or `rows`) is not an array index. */
  lemma EditBlockWhen(data: seq<Json>, row: nat, h: string, i: nat, e: CellEdit)
    requires BlockData(data, row, h, i, e).Some? && BlockWrite(BlockData(data, row, h, i, e).value, e).Some?
    ensures var d := BlockData(data, row, h, i, e).value;
      var (tail, x) := BlockWrite(d, e).value;
      AssignPath(JArr(data), BlockDataPath(row, h, i) + [tail], x).Ok? <==> d.JObj?
  {
    var d := BlockData(data, row, h, i, e).value;
    var (tail, x) := BlockWrite(d, e).value;
    BlockDataFacts(data, row, h, i, e);
    BlockPathWritable(data, row, h, i, Prop(data[row], h).value, CellBlocks(Prop(data[row], h)), d);
    BlockDataAt(data, row, h, i, e);
    AssignPathSucceeds(JArr(data), BlockDataPath(row, h, i), tail, x);
    assert tail == "text" || tail == "items" || tail == "rows";
    assert !IsIndexKey(tail) by { assert !IsDigit(tail[0]); }
  }

  /** When the row is an object, the edit is confined to
      `[row][h].blocks[i].data`, step by step. */
  lemma EditBlockStepsOfObjectRow(data: seq<Json>, row: nat, h: string, i: nat, e: CellEdit)
    requires BlockData(data, row, h, i, e).Some? && data[row].JObj?
    ensures StepsOf(JArr(data), BlockDataPath(row, h, i))
      == [AtIndex(row), AtKey(h), AtKey("blocks"), AtIndex(i), AtKey("data")]
  {
    BlockDataFacts(data, row, h, i, e);
    var cell := Prop(data[row], h).value;
    var bs := CellBlocks(Prop(data[row], h));
    assert cell.JObj?;
    assert Prop(bs[i], "type").Some?;
    assert bs[i].JObj?;
    BlockPathSteps(data, row, h, i, cell, bs, BlockData(data, row, h, i, e).value);
  }

  /** A write below row `row` leaves the other rows as they were. */
  lemma EditBlockStaysInRow(data: seq<Json>, row: nat, h: string, i: nat, tail: string, x: Json)
    requires row < |data|
    requires AssignPath(JArr(data), BlockDataPath(row, h, i) + [tail], x).Ok?
    ensures var w := AssignPath(JArr(data), BlockDataPath(row, h, i) + [tail], x).value;
      w.JArr? && |w.items| == |data| && forall j :: 0 <= j < |data| && j != row ==> w.items[j] == data[j]
  {
    var path := BlockDataPath(row, h, i) + [tail];
    PropIndex(data, row);
    var c := AssignPath(data[row], path[1..], x).value;
    AssignIndex(data, row, c);
  }

  datatype TableOp =
    | AddBlockOp(row: nat, field: string, kind: BlockKind)
    | EditBlockOp(row: nat, field: string, block: nat, edit: CellEdit)
    | DeleteRowOp(row: nat)
    | AddRowOp

  /** The table as a whole: the array handed to `onChange`, or `None` when
      the table does not render or offers no such control. */
  function TableEdit(data: seq<Json>, op: TableOp): (r: Option<Json>)
    ensures !Renders(data) ==> r == None
    ensures r.Some? ==> r.value.JArr?
    ensures op.DeleteRowOp? && Renders(data) ==> (r.Some? <==> op.row < |data|)
    ensures op.DeleteRowOp? && r.Some? ==> |r.value.items| == |data| - 1
    ensures op.DeleteRowOp? && r.Some? ==>
      forall j :: 0 <= j < |r.value.items| ==> r.value.items[j] == data[if j < op.row then j else j + 1]
    ensures op.AddRowOp? && Renders(data) ==> r.Some? && Headers(r.value.items) == Headers(data)
    ensures op.AddRowOp? && Renders(data) ==> r == Some(JArr(AddTableRow(data)))
    ensures op.AddBlockOp? ==> (r.Some? <==> AddBlockToField(data, op.row, op.field, op.kind).Some?)
    ensures op.AddBlockOp? && r.Some? ==> r.value == JArr(AddBlockToField(data, op.row, op.field, op.kind).value)
    ensures op.EditBlockOp? ==> r == EditBlock(data, op.row, op.field, op.block, op.edit)
  {
    if !Renders(data) then None
    else
      match op
      case AddBlockOp(row, h, kind) =>
        (match AddBlockToField(data, row, h, kind)
         case None => None
         case Some(d) => Some(JArr(d)))
      case EditBlockOp(row, h, i, e) => EditBlock(data, row, h, i, e)
      case DeleteRowOp(row) => if row < |data| then Some(JArr(RemoveAt(data, row))) else None
      case AddRowOp =>
        AddTableRowKeepsHeaders(data);
        Some(JArr(AddTableRow(data)))
  }
}
