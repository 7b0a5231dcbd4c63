/** The generic list page of the dashboard (`DataManagement`): what the
    form submit does to the submitted values, the CSV export, the search
    filter, pagination, and the enquiry status store. */
module DataManagement {
  import opened Js
  import opened Text
  import opened Types

  // ---------------------------------------------------------------------
  // Submitting the form

  function TrimAll(parts: seq<string>): (r: seq<string>)
    ensures |r| == |parts|
    ensures forall i :: 0 <= i < |r| ==> r[i] == Trim(parts[i])
  {
    seq(|parts|, i requires 0 <= i < |parts| => Trim(parts[i]))
  }

  /** `.filter(Boolean)` on strings: the empty ones go, the rest keep their order. */
  function NonEmpty(parts: seq<string>): (r: seq<string>)
    ensures forall i :: 0 <= i < |r| ==> r[i] != ""
    ensures forall p :: p in r <==> p in parts && p != ""
  {
    if parts == [] then []
    else (if parts[0] == "" then [] else [parts[0]]) + NonEmpty(parts[1..])
  }

  lemma TrimKeepsOut(s: string, c: char)
    requires c !in s
    ensures c !in Trim(s)
  {
    var r := Trim(s);
    var i := |s| - |TrimStart(s)|;
    forall j | 0 <= j < |r| ensures r[j] != c {
      assert r[j] == s[i + j];
    }
  }

  /** An item of a comma list: not empty, no comma, no white space at its ends. */
  predicate CleanItem(p: string) {
    p != [] && ',' !in p && !IsJsSpace(p[0]) && !IsJsSpace(p[|p| - 1])
  }

  lemma CleanItems(pieces: seq<string>)
    requires forall i :: 0 <= i < |pieces| ==> ',' !in pieces[i]
    ensures forall p :: p in NonEmpty(TrimAll(pieces)) ==> CleanItem(p)
  {
    var t := TrimAll(pieces);
    forall i | 0 <= i < |t| ensures ',' !in t[i] {
      TrimKeepsOut(pieces[i], ',');
    }
  }

  /** `value.split(",").map(s => s.trim()).filter(Boolean)`. */
  function CommaList(s: string): (r: seq<string>)
    ensures forall i :: 0 <= i < |r| ==> CleanItem(r[i])
  {
    var r := NonEmpty(TrimAll(Split(s, ',')));
    CleanItems(Split(s, ','));
    assert forall i :: 0 <= i < |r| ==> r[i] in r;
    r
  }

  lemma TrimOfTrimmed(p: string)
    requires p != [] ==> !IsJsSpace(p[0]) && !IsJsSpace(p[|p| - 1])
    ensures Trim(p) == p
  {
    assert TrimStart(p) == p;
    assert TrimEnd(p) == p;
  }

  lemma {:induction false} NonEmptyKeepsAll(parts: seq<string>)
    requires forall i :: 0 <= i < |parts| ==> parts[i] != ""
    ensures NonEmpty(parts) == parts
  {
    if parts != [] {
      NonEmptyKeepsAll(parts[1..]);
    }
  }

  /** A list typed as "a,b,c" of trimmed, non-empty items without commas
      is read back item by item. */
  lemma CommaListOfJoin(parts: seq<string>)
    requires forall i :: 0 <= i < |parts| ==> CleanItem(parts[i])
    ensures CommaList(Join(parts, ",")) == parts
  {
    if parts == [] {
      CommaListOfNothing();
    } else {
      var s := Join(parts, ",");
      forall i | 0 <= i < |parts| ensures ',' !in parts[i] && parts[i] != "" {
        assert CleanItem(parts[i]);
      }
      SplitJoin(parts, ',');
      TrimAllOfTrimmed(parts);
      NonEmptyKeepsAll(parts);
      CommaListOfPieces(s, parts);
    }
  }

  /** Trimming leaves clean items as they are. */
  lemma TrimAllOfTrimmed(parts: seq<string>)
    requires forall i :: 0 <= i < |parts| ==> CleanItem(parts[i])
    ensures TrimAll(parts) == parts
  {
    forall i | 0 <= i < |parts| ensures TrimAll(parts)[i] == parts[i] {
      assert CleanItem(parts[i]);
      TrimOfTrimmed(parts[i]);
    }
  }

  /** The three steps of `CommaList`, each leaving `parts` as it is. */
  lemma CommaListOfPieces(s: string, parts: seq<string>)
    requires Split(s, ',') == parts && TrimAll(parts) == parts && NonEmpty(parts) == parts
    ensures CommaList(s) == parts
  {
  }

  /** An empty input gives the empty list. */
  lemma CommaListOfNothing()
    ensures CommaList("") == []
  {
    var e: string := [];
    assert Split(e, ',') == [e];
    TrimOfTrimmed(e);
    assert TrimAll([e]) == [e];
  }

  function Strings(ss: seq<string>): (r: seq<Json>)
    ensures |r| == |ss| && forall i :: 0 <= i < |ss| ==> r[i] == JStr(ss[i])
  {
    seq(|ss|, i requires 0 <= i < |ss| => JStr(ss[i]))
  }

  /** The value the submit handler gives a field whose value was `value`,
      or `None` when the value stays as it is: the strings "true" and
      "false" become booleans (on any field, and after the list split of a
      list field, which they overwrite); on a list field a string becomes its
      comma-separated items and a missing or null value the empty list. */
  function Coerced(f: FormField, value: Option<Json>): Option<Json> {
    if value == Some(JStr("true")) then Some(JBool(true))
    else if value == Some(JStr("false")) then Some(JBool(false))
    else if f.isArray && value.Some? && value.value.JStr? then Some(JArr(Strings(CommaList(value.value.s))))
    else if f.isArray && (value == None || value == Some(JNull)) then Some(JArr([]))
    else None
  }

  /** The value of a field after its own step of the submit loop. */
  function Outcome(f: FormField, value: Option<Json>): Option<Json> {
    match Coerced(f, value)
    case None => value
    case Some(v) => Some(v)
  }

  function SubmitField(fs: seq<Member>, f: FormField): seq<Member> {
    match Coerced(f, Lookup(fs, f.name))
    case None => fs
    case Some(v) => Put(fs, f.name, v)
  }

  /** The submitted members after the loop has handled `fields` in order. */
  function Submitted(fs: seq<Member>, fields: seq<FormField>): (r: seq<Member>)
    ensures UniqueKeys(fs) ==> UniqueKeys(r)
    ensures forall k :: HasKey(fs, k) ==> HasKey(r, k)
    decreases |fields|
  {
    if fields == [] then fs
    else SubmitField(Submitted(fs, fields[..|fields| - 1]), fields[|fields| - 1])
  }

  /** `handleFormSubmit`'s value processing: a copy of the form data, then
      one pass over the configured fields, each reading the current value
      of its member and overwriting it. */
  method ProcessFormData(formData: Json, fields: seq<FormField>) returns (processed: seq<Member>)
    ensures processed == Submitted(SpreadMembers(formData), fields)
  {
    processed := SpreadMembers(formData);
    ghost var start := processed;
    var i := 0;
    while i < |fields|
      invariant 0 <= i <= |fields|
      invariant processed == Submitted(start, fields[..i])
    {
      var field := fields[i];
      var value := Lookup(processed, field.name);
      ghost var before := processed;
      if field.isArray {
        if value.Some? && value.value.JStr? {
          processed := Put(processed, field.name, JArr(Strings(CommaList(value.value.s))));
        } else if value == None || value == Some(JNull) {
          processed := Put(processed, field.name, JArr([]));
        }
      }
      if value == Some(JStr("true")) {
        if field.isArray {
          PutTwice(before, field.name, JArr(Strings(CommaList(value.value.s))), JBool(true));
        }
        processed := Put(processed, field.name, JBool(true));
      }
      if value == Some(JStr("false")) {
        if field.isArray {
          PutTwice(before, field.name, JArr(Strings(CommaList(value.value.s))), JBool(false));
        }
        processed := Put(processed, field.name, JBool(false));
      }
      assert processed == SubmitField(before, field);
      assert fields[..i + 1][..i] == fields[..i];
      i := i + 1;
    }
    assert fields[..|fields|] == fields;
  }

  /** A member no configured field names keeps its value. */
  lemma {:induction false} SubmittedOther(fs: seq<Member>, fields: seq<FormField>, k: string)
    requires forall i :: 0 <= i < |fields| ==> fields[i].name != k
    ensures Lookup(Submitted(fs, fields), k) == Lookup(fs, k)
    decreases |fields|
  {
    if fields != [] {
      var n := |fields| - 1;
      var pre := fields[..n];
      assert forall i :: 0 <= i < |pre| ==> pre[i] == fields[i];
      SubmittedOther(fs, pre, k);
      SubmitFieldLookup(Submitted(fs, pre), fields[n], k);
    }
  }

  /** With distinct field names, every configured field ends up with the
      coercion of its original value. */
  lemma {:induction false} SubmittedOwn(fs: seq<Member>, fields: seq<FormField>, i: nat)
    requires NamesUnique(fields) && i < |fields|
    ensures Lookup(Submitted(fs, fields), fields[i].name) == Outcome(fields[i], Lookup(fs, fields[i].name))
    decreases |fields|
  {
    var n := |fields| - 1;
    var pre := fields[..n];
    var k := fields[i].name;
    var before := Submitted(fs, pre);
    assert Submitted(fs, fields) == SubmitField(before, fields[n]);
    NamesUniqueInit(fields, pre);
    SubmitFieldLookup(before, fields[n], k);
    if i == n {
      SubmittedOther(fs, pre, k);
    } else {
      assert pre[i] == fields[i];
      SubmittedOwn(fs, pre, i);
    }
  }

  /** One step of the loop changes its own field's member and no other. */
  lemma SubmitFieldLookup(fs: seq<Member>, f: FormField, k: string)
    ensures f.name == k ==> Lookup(SubmitField(fs, f), k) == Outcome(f, Lookup(fs, k))
    ensures f.name != k ==> Lookup(SubmitField(fs, f), k) == Lookup(fs, k)
  {
  }

  // ---------------------------------------------------------------------
  // CSV export

  /** A cell is quoted when it holds a comma, a double quote or a line feed. */
  predicate NeedsQuotes(s: string) {
    ',' in s || '"' in s || '\n' in s
  }

  /** `s.replace(/"/g, '""')`. */
  function DoubleQuotes(s: string): (r: string)
    ensures |r| >= |s|
  {
    if s == [] then [] else (if s[0] == '"' then "\"\"" else [s[0]]) + DoubleQuotes(s[1..])
  }

  function QuoteCell(s: string): (r: string)
    ensures !NeedsQuotes(s) ==> r == s
    ensures NeedsQuotes(s) ==> |r| >= |s| + 2 && r[0] == '"' && r[|r| - 1] == '"'
  {
    if NeedsQuotes(s) then "\"" + DoubleQuotes(s) + "\"" else s
  }

  /** The text of a cell: the accessor's value, a missing or null member
      read as "", converted with `String`. */
  function CellText(col: Column, item: Json): string {
    match col.accessor
    case ByKey(k) => ToStr(Coalesce(Prop(item, k), EmptyString))
    case ByFunction(read) => ToStr(read(item))
  }

  function QuoteAll(cells: seq<string>): (r: seq<string>)
    ensures |r| == |cells| && forall i :: 0 <= i < |cells| ==> r[i] == QuoteCell(cells[i])
  {
    seq(|cells|, i requires 0 <= i < |cells| => QuoteCell(cells[i]))
  }

  /** One exported line: the quoted cells joined with commas. */
  function Line(cells: seq<string>): string {
    Join(QuoteAll(cells), ",")
  }

  function Lines(records: seq<seq<string>>): (r: seq<string>)
    ensures |r| == |records| && forall i :: 0 <= i < |records| ==> r[i] == Line(records[i])
  {
    seq(|records|, i requires 0 <= i < |records| => Line(records[i]))
  }

  function RowCells(columns: seq<Column>, item: Json): (r: seq<string>)
    ensures |r| == |columns| && forall i :: 0 <= i < |columns| ==> r[i] == CellText(columns[i], item)
  {
    seq(|columns|, i requires 0 <= i < |columns| => CellText(columns[i], item))
  }

  function Table(columns: seq<Column>, items: seq<Json>): (r: seq<seq<string>>)
    ensures |r| == |items| && forall i :: 0 <= i < |items| ==> r[i] == RowCells(columns, items[i])
  {
    seq(|items|, i requires 0 <= i < |items| => RowCells(columns, items[i]))
  }

  function Headers(columns: seq<Column>): (r: seq<string>)
    ensures |r| == |columns| && forall i :: 0 <= i < |columns| ==> r[i] == columns[i].header
  {
    seq(|columns|, i requires 0 <= i < |columns| => columns[i].header)
  }

  /** `handleExport`'s file content: the headers joined with commas (not
      quoted), a line feed, then one line per shown item. With nothing to
      export the handler only alerts. */
  function ExportContent(columns: seq<Column>, items: seq<Json>): (r: Option<string>)
    ensures r.None? <==> items == []
  {
    if items == [] then None
    else Some(Join(Headers(columns), ",") + "\n" + Join(Lines(Table(columns, items)), "\n"))
  }

  /** The download name: the title lower-cased, its first space (only that
      one) turned into `_`, then `_export.csv`. */
  function ExportFileName(title: string): (r: string)
    ensures EndsWith(r, "_export.csv")
    ensures |r| == |title| + 11
    ensures forall i :: 0 <= i < |title| ==>
      r[i] == if i == IndexOfChar(Lower(title), ' ') then '_' else LowerChar(title[i])
  {
    var low := Lower(title);
    var r := ReplaceFirst(low, ' ', "_") + "_export.csv";
    assert r[|r| - 11..] == "_export.csv";
    r
  }

  // Reading the export back, as section 2 of RFC 4180 describes the format
  // (with a line feed where the RFC has CRLF, as the exporter writes)

  /** The first comma or line feed of `s`, or `|s|`. */
  function FieldEnd(s: string): (i: nat)
    ensures i <= |s|
    ensures i < |s| ==> s[i] == ',' || s[i] == '\n'
    ensures forall j :: 0 <= j < i ==> s[j] != ',' && s[j] != '\n'
  {
    if s == [] || s[0] == ',' || s[0] == '\n' then 0 else 1 + FieldEnd(s[1..])
  }

  lemma {:induction false} FieldEndIs(s: string, i: nat)
    requires i <= |s|
    requires i < |s| ==> s[i] == ',' || s[i] == '\n'
    requires forall j :: 0 <= j < i ==> s[j] != ',' && s[j] != '\n'
    ensures FieldEnd(s) == i
  {
    if s != [] && s[0] != ',' && s[0] != '\n' {
      FieldEndIs(s[1..], i - 1);
    }
  }

  /** A quoted field after its opening quote: the text up to the closing
      quote, where two quotes stand for one, and what follows it. */
  function ReadQuoted(s: string): (r: Option<(string, string)>)
    ensures r.Some? ==> |r.value.1| < |s|
    decreases |s|
  {
    if s == [] then None
    else if s[0] == '"' then
      if |s| >= 2 && s[1] == '"' then
        match ReadQuoted(s[2..])
        case None => None
        case Some(p) => Some(("\"" + p.0, p.1))
      else Some(([], s[1..]))
    else
      match ReadQuoted(s[1..])
      case None => None
      case Some(p) => Some(([s[0]] + p.0, p.1))
  }

  function ReadField(s: string): (r: Option<(string, string)>)
    ensures r.Some? ==> |r.value.1| <= |s|
  {
    if s != [] && s[0] == '"' then ReadQuoted(s[1..])
    else
      var i := FieldEnd(s);
      Some((s[..i], s[i..]))
  }

  /** Records separated by line feeds, fields by commas; `None` for text
      that is not in the format. */
  function ParseCsv(s: string): (r: Option<seq<seq<string>>>)
    ensures r.Some? ==> |r.value| >= 1 && |r.value[0]| >= 1
    decreases |s|
  {
    match ReadField(s)
    case None => None
    case Some((field, rest)) =>
      if rest == [] then Some([[field]])
      else if rest[0] == ',' then
        match ParseCsv(rest[1..])
        case None => None
        case Some(recs) => Some([[field] + recs[0]] + recs[1..])
      else if rest[0] == '\n' then
        match ParseCsv(rest[1..])
        case None => None
        case Some(recs) => Some([[field]] + recs)
      else None
  }

  function ConsRecord(cells: seq<string>, r: Option<seq<seq<string>>>): Option<seq<seq<string>>> {
    if r.None? then None else Some([cells] + r.value)
  }

  lemma {:induction false} ReadQuotedOfDoubled(s: string, rest: string)
    requires rest == [] || rest[0] != '"'
    ensures ReadQuoted(DoubleQuotes(s) + "\"" + rest) == Some((s, rest))
    decreases |s|
  {
    if s == [] {
      assert DoubleQuotes(s) + "\"" + rest == "\"" + rest;
      ReadQuotedClosing(rest);
    } else {
      var t := s[1..];
      var tail := DoubleQuotes(t) + "\"" + rest;
      ReadQuotedOfDoubled(t, rest);
      var p: string := if s[0] == '"' then "\"\"" else [s[0]];
      assert DoubleQuotes(s) == p + DoubleQuotes(t);
      PrefixRegroup(p, DoubleQuotes(t), "\"", rest);
      if s[0] == '"' {
        ReadQuotedEscaped(tail, (t, rest));
      } else {
        ReadQuotedPlain(s[0], tail, (t, rest));
      }
      ConsHead(s);
    }
  }

  lemma PrefixRegroup<T>(p: seq<T>, d: seq<T>, q: seq<T>, r: seq<T>)
    ensures (p + d) + q + r == p + (d + q + r)
  {
  }

  /** A quote not followed by another one closes the field. */
  lemma ReadQuotedClosing(rest: string)
    requires rest == [] || rest[0] != '"'
    ensures ReadQuoted("\"" + rest) == Some(([], rest))
  {
    var u := "\"" + rest;
    assert u[0] == '"' && u[1..] == rest;
  }

  /** Two quotes inside a quoted field stand for one. */
  lemma ReadQuotedEscaped(tail: string, v: (string, string))
    requires ReadQuoted(tail) == Some(v)
    ensures ReadQuoted("\"\"" + tail) == Some(("\"" + v.0, v.1))
  {
    var u := "\"\"" + tail;
    assert u[0] == '"' && u[1] == '"' && u[2..] == tail;
  }

  /** Any other character is part of the field. */
  lemma ReadQuotedPlain(c: char, tail: string, v: (string, string))
    requires c != '"' && ReadQuoted(tail) == Some(v)
    ensures ReadQuoted([c] + tail) == Some(([c] + v.0, v.1))
  {
    var u := [c] + tail;
    assert u[0] == c && u[1..] == tail;
  }

  /** A cell as the exporter writes it reads back as exactly that cell. */
  lemma ReadFieldOfCell(c: string, rest: string)
    requires rest == [] || rest[0] == ',' || rest[0] == '\n'
    ensures ReadField(QuoteCell(c) + rest) == Some((c, rest))
  {
    if NeedsQuotes(c) {
      ReadFieldOfQuoted(c, rest);
    } else {
      ReadFieldOfPlain(c, rest);
    }
  }

  /** A quoted cell reads back through the quoted-field branch. */
  lemma ReadFieldOfQuoted(c: string, rest: string)
    requires NeedsQuotes(c) && (rest == [] || rest[0] == ',' || rest[0] == '\n')
    ensures ReadField(QuoteCell(c) + rest) == Some((c, rest))
  {
    var d := DoubleQuotes(c);
    assert QuoteCell(c) == ['"'] + d + ['"'];
    Enclosed('"', d, rest);
    ReadQuotedOfDoubled(c, rest);
  }

  /** The text between an opening and a closing mark. */
  lemma Enclosed<T>(q: T, d: seq<T>, rest: seq<T>)
    ensures var s := [q] + d + [q] + rest; s[0] == q && s[1..] == d + [q] + rest
  {
  }

  /** A cell without a comma, a quote or a line feed reads back up to the
      separator after it. */
  lemma ReadFieldOfPlain(c: string, rest: string)
    requires !NeedsQuotes(c) && (rest == [] || rest[0] == ',' || rest[0] == '\n')
    ensures ReadField(QuoteCell(c) + rest) == Some((c, rest))
  {
    var s := c + rest;
    assert QuoteCell(c) == c;
    if c != [] {
      assert s[0] == c[0];
    }
    forall j | 0 <= j < |c| ensures s[j] != ',' && s[j] != '\n' {
      assert s[j] == c[j];
    }
    FieldEndIs(s, |c|);
    assert s[..|c|] == c;
    assert s[|c|..] == rest;
  }

  lemma {:induction false} ParseLine(cells: seq<string>, rest: string)
    requires |cells| >= 1
    requires rest == [] || rest[0] == '\n'
    ensures rest == [] ==> ParseCsv(Line(cells) + rest) == Some([cells])
    ensures rest != [] ==> ParseCsv(Line(cells) + rest) == ConsRecord(cells, ParseCsv(rest[1..]))
    decreases |cells|
  {
    if |cells| == 1 {
      ParseSingleCell(cells[0], rest);
      assert [cells[0]] == cells;
    } else {
      var more := cells[1..];
      var tail := Line(more) + rest;
      LineCons(cells);
      Regroup(QuoteCell(cells[0]), ",", Line(more), rest);
      ParseCellThenComma(cells[0], tail);
      ParseLine(more, rest);
      assert [cells[0]] + more == cells;
      if rest == [] {
        FirstCellOfOnly(cells[0], more);
      } else {
        FirstCellOfCons(cells[0], more, ParseCsv(rest[1..]));
      }
    }
  }

  lemma Regroup<T>(a: seq<T>, m: seq<T>, b: seq<T>, rest: seq<T>)
    ensures a + m + b + rest == a + (m + (b + rest))
  {
  }

  /** A cell before the only record of the rest joins that record. */
  lemma FirstCellOfOnly(c: string, more: seq<string>)
    ensures (match Some([more]) case None => None case Some(recs) => Some([[c] + recs[0]] + recs[1..]))
      == Some([[c] + more])
  {
    assert [more][1..] == [];
    assert [[c] + more] + [] == [[c] + more];
  }

  /** A cell before a record followed by others joins the first of them. */
  lemma FirstCellOfCons(c: string, more: seq<string>, r: Option<seq<seq<string>>>)
    ensures (match ConsRecord(more, r) case None => None case Some(recs) => Some([[c] + recs[0]] + recs[1..]))
      == ConsRecord([c] + more, r)
  {
    if r.Some? {
      assert ([more] + r.value)[1..] == r.value;
    }
  }

  lemma LineCons(cells: seq<string>)
    requires |cells| >= 2
    ensures Line(cells) == QuoteCell(cells[0]) + "," + Line(cells[1..])
  {
    var q := QuoteAll(cells);
    assert q[1..] == QuoteAll(cells[1..]);
  }

  lemma ParseSingleCell(c: string, rest: string)
    requires rest == [] || rest[0] == '\n'
    ensures rest == [] ==> ParseCsv(Line([c]) + rest) == Some([[c]])
    ensures rest != [] ==> ParseCsv(Line([c]) + rest) == ConsRecord([c], ParseCsv(rest[1..]))
  {
    assert Line([c]) == QuoteCell(c);
    ReadFieldOfCell(c, rest);
  }

  lemma ParseCellThenComma(c: string, tail: string)
    ensures ParseCsv(QuoteCell(c) + ("," + tail)) ==
      match ParseCsv(tail)
      case None => None
      case Some(recs) => Some([[c] + recs[0]] + recs[1..])
  {
    ReadFieldOfCell(c, "," + tail);
    assert ("," + tail)[1..] == tail;
  }

  lemma {:induction false} ParseLines(records: seq<seq<string>>)
    requires |records| >= 1
    requires forall i :: 0 <= i < |records| ==> |records[i]| >= 1
    ensures ParseCsv(Join(Lines(records), "\n")) == Some(records)
    decreases |records|
  {
    var ls := Lines(records);
    if |records| == 1 {
      ParseLine(records[0], []);
      assert Line(records[0]) + [] == Line(records[0]);
      assert [records[0]] == records;
    } else {
      var more := records[1..];
      assert ls[1..] == Lines(more);
      var tail := "\n" + Join(Lines(more), "\n");
      assert Join(ls, "\n") == Line(records[0]) + tail;
      ParseLine(records[0], tail);
      assert tail[1..] == Join(Lines(more), "\n");
      ParseLines(more);
      assert [records[0]] + more == records;
    }
  }

  /** The export reads back as the header row followed by one record per
      shown item, cell for cell, whatever the cells hold, as long as there
      is a column and no header needs quotes (headers are written as they
      are). */
  lemma ExportRoundTrip(columns: seq<Column>, items: seq<Json>)
    requires |columns| >= 1 && items != []
    requires forall i :: 0 <= i < |columns| ==> !NeedsQuotes(columns[i].header)
    ensures ParseCsv(ExportContent(columns, items).value) == Some([Headers(columns)] + Table(columns, items))
  {
    var hs := Headers(columns);
    var records := [hs] + Table(columns, items);
    assert QuoteAll(hs) == hs;
    var ls := Lines(records);
    assert ls[1..] == Lines(Table(columns, items));
    assert Join(ls, "\n") == Line(hs) + "\n" + Join(Lines(Table(columns, items)), "\n");
    ParseLines(records);
  }

  // ---------------------------------------------------------------------
  // Search

  /** `(item.name || item.title || '').toLowerCase()`: reading a member of
      null, or lower-casing a value that is not a string, throws. */
  function SearchText(item: Json): (r: Result<string>)
    ensures r.Ok? ==> Lower(r.value) == r.value
    ensures item == JNull ==> r == Err(TypeError)
    ensures item != JNull && TruthyOpt(Prop(item, "name")) ==>
      (r.Ok? <==> Prop(item, "name").value.JStr?)
      && (r.Ok? ==> r.value == Lower(Prop(item, "name").value.s))
    ensures item != JNull && !TruthyOpt(Prop(item, "name")) && TruthyOpt(Prop(item, "title")) ==>
      (r.Ok? <==> Prop(item, "title").value.JStr?)
      && (r.Ok? ==> r.value == Lower(Prop(item, "title").value.s))
    ensures item != JNull && !TruthyOpt(Prop(item, "name")) && !TruthyOpt(Prop(item, "title")) ==> r == Ok("")
    ensures r.Err? ==> r.error == TypeError
  {
    if item == JNull then Err(TypeError)
    else
      match Or(Prop(item, "name"), Or(Prop(item, "title"), EmptyString))
      case JStr(s) => LowerIdempotent(s); Ok(Lower(s))
      case _ => Err(TypeError)
  }

  predicate Matches(item: Json, term: string) {
    SearchText(item).Ok? && Contains(SearchText(item).value, Lower(term))
  }

  function Kept(x: Json, term: string): seq<Json> {
    if Matches(x, term) then [x] else []
  }

  /** `filteredData`: the items whose search text contains the lower-cased
      term, in their order; the first item that throws ends the filter. */
  function Search(data: seq<Json>, term: string): (r: Result<seq<Json>>)
    ensures r.Ok? <==> forall i :: 0 <= i < |data| ==> SearchText(data[i]).Ok?
  {
    if data == [] then Ok([])
    else if SearchText(data[0]).Err? then Err(SearchText(data[0]).error)
    else
      match Search(data[1..], term)
      case Err(e) => Err(e)
      case Ok(rest) => Ok(Kept(data[0], term) + rest)
  }

  /** The search keeps exactly the matching items, and never more items than it was given. */
  lemma {:induction false} SearchKeepsMatches(data: seq<Json>, term: string)
    requires Search(data, term).Ok?
    ensures forall x :: x in Search(data, term).value <==> x in data && Matches(x, term)
    ensures |Search(data, term).value| <= |data|
  {
    if data != [] {
      SearchKeepsMatches(data[1..], term);
      var kept, rest := Kept(data[0], term), Search(data[1..], term).value;
      assert Search(data, term).value == kept + rest;
      forall x ensures x in kept + rest <==> x in data && Matches(x, term) {
        assert x in data <==> x == data[0] || x in data[1..];
      }
    }
  }

  /** An empty search keeps every item, in order. */
  lemma {:induction false} SearchEmptyTerm(data: seq<Json>)
    requires forall i :: 0 <= i < |data| ==> SearchText(data[i]).Ok?
    ensures Search(data, "") == Ok(data)
  {
    if data != [] {
      ContainsEmpty(SearchText(data[0]).value);
      assert Lower("") == "";
      SearchEmptyTerm(data[1..]);
      assert [data[0]] + data[1..] == data;
    }
  }

  lemma SearchCons(x: Json, rest: seq<Json>, term: string)
    requires Search([x] + rest, term).Ok?
    ensures Search(rest, term).Ok?
    ensures Search([x] + rest, term) == Ok(Kept(x, term) + Search(rest, term).value)
  {
    assert ([x] + rest)[0] == x;
    assert ([x] + rest)[1..] == rest;
  }

  /** A search that does not throw on its first item is that item's share
      followed by the search of the rest. */
  lemma SearchOfHead(data: seq<Json>, term: string)
    requires data != [] && SearchText(data[0]).Ok?
    ensures Search(data, term).Ok? <==> Search(data[1..], term).Ok?
    ensures Search(data, term).Ok? ==> Search(data, term).value == Kept(data[0], term) + Search(data[1..], term).value
  {
  }

  /** Searching a concatenation concatenates the results: kept items stay
      in their original order. */
  lemma {:induction false} SearchConcat(a: seq<Json>, b: seq<Json>, term: string)
    requires Search(a + b, term).Ok?
    ensures Search(a, term).Ok? && Search(b, term).Ok?
    ensures Search(a + b, term) == Ok(Search(a, term).value + Search(b, term).value)
  {
    if a == [] {
      SearchOfNothing(term);
      EmptyConcat(a, b);
      var none: seq<Json> := [];
      EmptyConcat(none, Search(b, term).value);
    } else {
      var t := a[1..];
      HeadOfConcat(a, b);
      SearchOfHead(a + b, term);
      SearchConcat(t, b, term);
      SearchOfHead(a, term);
      Assoc(Kept(a[0], term), Search(t, term).value, Search(b, term).value);
    }
  }

  lemma SearchOfNothing(term: string)
    ensures Search([], term) == Ok([])
  {
  }

  lemma EmptyConcat<T>(a: seq<T>, b: seq<T>)
    requires a == []
    ensures a + b == b
  {
  }

  /** The first element and the rest of a concatenation that starts with `a`. */
  lemma HeadOfConcat<T>(a: seq<T>, b: seq<T>)
    requires a != []
    ensures (a + b)[0] == a[0] && (a + b)[1..] == a[1..] + b
  {
  }

  lemma Assoc<T>(k: seq<T>, x: seq<T>, y: seq<T>)
    ensures k + (x + y) == (k + x) + y
  {
  }

  // ---------------------------------------------------------------------
  // Pagination

  const ItemsPerPage: nat := 10


  /** `Math.ceil(n / itemsPerPage)`. */
  function TotalPages(n: nat): (r: nat)
    ensures r * ItemsPerPage >= n
    ensures r > 0 ==> (r - 1) * ItemsPerPage < n
  {
    (n + ItemsPerPage - 1) / ItemsPerPage
  }

  /** Where `slice` puts an index: negative ones count from the end,
      both kinds are clamped to the length. */
  function SliceIndex(len: nat, i: int): (r: nat)
    ensures r <= len
    ensures 0 <= i <= len ==> r == i
  {
    if i < 0 then (if len + i < 0 then 0 else len + i) else if i > len then len else i
  }

  /** `s.slice(start, end)`. */
  function Slice<T>(s: seq<T>, start: int, end: int): (r: seq<T>)
    ensures |r| <= |s|
  {
    var a := SliceIndex(|s|, start);
    var b := SliceIndex(|s|, end);
    if a < b then s[a..b] else []
  }

  /** `paginatedData` for the page `page`. */
  function PageItems<T>(s: seq<T>, page: int): (r: seq<T>)
    ensures |r| <= ItemsPerPage
    ensures page >= 1 ==> r == s[Min((page - 1) * ItemsPerPage, |s|)..Min(page * ItemsPerPage, |s|)]
  {
    Slice(s, (page - 1) * ItemsPerPage, page * ItemsPerPage)
  }

  /** The two numbers of "Showing … to … of n results". */
  function ShowingFrom(page: int, n: nat): int { Min((page - 1) * ItemsPerPage + 1, n) }
  function ShowingTo(page: int, n: nat): int { Min(page * ItemsPerPage, n) }

  /** On every existing page the "Showing" numbers are the 1-based positions
      of the first and last item the table shows. */
  lemma ShowingMatchesPage<T>(s: seq<T>, page: int)
    requires 1 <= page <= TotalPages(|s|)
    ensures |PageItems(s, page)| >= 1
    ensures ShowingFrom(page, |s|) == (page - 1) * ItemsPerPage + 1
    ensures ShowingTo(page, |s|) - ShowingFrom(page, |s|) + 1 == |PageItems(s, page)|
  {
  }

  /** Pages 1 to `k` in order. */
  function PagesUpTo<T>(s: seq<T>, k: nat): seq<T> {
    if k == 0 then [] else PagesUpTo(s, k - 1) + PageItems(s, k)
  }

  lemma {:induction false} PagesUpToPrefix<T>(s: seq<T>, k: nat)
    ensures PagesUpTo(s, k) == s[..Min(k * ItemsPerPage, |s|)]
  {
    if k > 0 {
      PagesUpToPrefix(s, k - 1);
      var a := Min((k - 1) * ItemsPerPage, |s|);
      var b := Min(k * ItemsPerPage, |s|);
      assert s[..a] + s[a..b] == s[..b];
    }
  }

  /** The pages together show every filtered item exactly once, in order. */
  lemma PagesCoverAll<T>(s: seq<T>)
    ensures PagesUpTo(s, TotalPages(|s|)) == s
  {
    PagesUpToPrefix(s, TotalPages(|s|));
    assert s[..|s|] == s;
  }

  /** The previous-page button: `Math.max(p - 1, 1)`. */
  function PrevPage(page: int): (r: int)
    ensures r >= 1
    ensures page > 1 ==> r == page - 1
  {
    Max(page - 1, 1)
  }

  /** The next-page button as written: `Math.min(p + 1, totalPages)`. It is
      disabled only on `page == totalPages`. */
  function NextPage(page: int, total: nat): (r: int)
    ensures r <= total
    ensures page < total ==> r == page + 1
  {
    Min(page + 1, total)
  }

  predicate NextEnabled(page: int, total: nat) { page != total }

  /** With no results the next button stays enabled on page 1, goes to
      page 0, and the footer then reads "Showing -9 to 0 of 0". */
  lemma NextPastTheLastPage()
    ensures NextEnabled(1, TotalPages(0))
    ensures NextPage(1, TotalPages(0)) == 0
    ensures ShowingFrom(NextPage(1, TotalPages(0)), 0) == -9
    ensures ShowingTo(NextPage(1, TotalPages(0)), 0) == 0
  {
  }

  /** The next-page step clamped at the page the footer shows as the last
      one (`totalPages > 0 ? totalPages : 1`). */
  function NextPageClamped(page: int, total: nat): (r: int)
    ensures r <= Max(total, 1)
    ensures page < total ==> r == page + 1
  {
    Min(page + 1, Max(total, 1))
  }

  /** From any page the clamped step stays on an existing page (page 1 when
      there are none), and the footer numbers are never negative. */
  lemma NextPageClampedStaysOnAPage(page: int, n: nat)
    requires page >= 1
    ensures 1 <= NextPageClamped(page, TotalPages(n)) <= Max(TotalPages(n), 1)
    ensures ShowingFrom(NextPageClamped(page, TotalPages(n)), n) >= 0
    ensures ShowingTo(NextPageClamped(page, TotalPages(n)), n) >= 0
  {
  }

  // ---------------------------------------------------------------------
  // Enquiry status

  const EnquiriesTitle := "Enquiries"
  const Resolved: Json := JStr("Resolved")
  const NotResolved: Json := JStr("Not Resolved")

  /** The store key of an item: `String(item.id)`. */
  function StatusKey(item: Json): string {
    ToStrOpt(Prop(item, "id"))
  }

  /** `statusStore[id] || "Not Resolved"`. */
  function StatusOf(store: seq<Member>, id: string): (r: Json)
    ensures Truthy(r)
    ensures TruthyOpt(Lookup(store, id)) ==> r == Lookup(store, id).value
    ensures !TruthyOpt(Lookup(store, id)) ==> r == NotResolved
  {
    Or(Lookup(store, id), NotResolved)
  }

  /** The loaded list: on the enquiries page every item gets a `status`
      member read from the store; other pages keep their items. */
  function Enrich(title: string, items: seq<Json>, store: seq<Member>): (r: Result<seq<Json>>)
    ensures title != EnquiriesTitle ==> r == Ok(items)
    ensures title == EnquiriesTitle ==> (r.Ok? <==> JNull !in items)
    ensures r.Ok? ==> |r.value| == |items|
    ensures title == EnquiriesTitle && r.Ok? ==> forall i :: 0 <= i < |items| ==>
      r.value[i].JObj? && Lookup(r.value[i].fields, "status") == Some(StatusOf(store, StatusKey(items[i])))
    ensures title == EnquiriesTitle && r.Ok? ==> forall i, k :: 0 <= i < |items| && k != "status" ==>
      Lookup(r.value[i].fields, k) == Lookup(SpreadMembers(items[i]), k)
  {
    if title != EnquiriesTitle then Ok(items)
    else if JNull in items then Err(TypeError)
    else Ok(seq(|items|, i requires 0 <= i < |items| =>
      JObj(Put(SpreadMembers(items[i]), "status", StatusOf(store, StatusKey(items[i]))))))
  }

  /** `toggleResolved`: outside the enquiries page nothing happens;
      otherwise the item's stored status becomes "Not Resolved" if it was
      "Resolved" and "Resolved" in every other case. */
  function Toggle(title: string, store: seq<Member>, item: Json): (r: Result<seq<Member>>)
    ensures title != EnquiriesTitle ==> r == Ok(store)
    ensures r.Ok? ==> forall k :: k != StatusKey(item) ==> Lookup(r.value, k) == Lookup(store, k)
  {
    if title != EnquiriesTitle then Ok(store)
    else if item == JNull then Err(TypeError)
    else
      var k := StatusKey(item);
      Ok(Put(store, k, if Lookup(store, k) == Some(Resolved) then NotResolved else Resolved))
  }

  /** The status shown after a toggle is the other one of the two: an item
      shown as "Resolved" turns "Not Resolved", any other shown status
      (including the default) turns "Resolved". */
  lemma ToggleFlipsShownStatus(store: seq<Member>, item: Json)
    requires item != JNull
    ensures StatusOf(Toggle(EnquiriesTitle, store, item).value, StatusKey(item)) ==
      if StatusOf(store, StatusKey(item)) == Resolved then NotResolved else Resolved
  {
  }

  /** Toggling twice gives back the status shown before, once that status
      is one of the two. */
  lemma ToggleTwice(store: seq<Member>, item: Json)
    requires item != JNull
    requires StatusOf(store, StatusKey(item)) in {Resolved, NotResolved}
    ensures StatusOf(Toggle(EnquiriesTitle, Toggle(EnquiriesTitle, store, item).value, item).value, StatusKey(item))
      == StatusOf(store, StatusKey(item))
  {
    ToggleFlipsShownStatus(store, item);
    ToggleFlipsShownStatus(Toggle(EnquiriesTitle, store, item).value, item);
  }
}
