/** JavaScript values as the admin dashboard handles them: JSON documents
    held in React state, plus the few language operations the components
    apply to them (truthiness, property reads, object and array spread,
    property assignment in strict mode, and String conversion). */
module Js {

  datatype Option<+T> = None | Some(value: T)

  /** What a thrown exception inside an event handler or a render means
      for the model: the handler stops and no new document value is
      produced, or the component does not render. */
  datatype JsError =
    | TypeError    // write to a primitive, spread of a non-iterable, method missing on a value
    | Unsupported  // effect the JSON model cannot hold: holes in an array, a named property on an array
    | InvalidChild // React refuses to render a plain object as a child of an element

  datatype Result<+T> = Ok(value: T) | Err(error: JsError)

  /** A JSON value. An object is an ORDERED list of members: insertion order
      drives column order and section order in the editors. An absent
      member (JavaScript `undefined`) is `None` in an `Option<Json>`. */
  datatype Json =
    | JNull
    | JBool(b: bool)
    | JNum(n: int)
    | JStr(s: string)
    | JArr(items: seq<Json>)
    | JObj(fields: seq<Member>)

  datatype Member = Member(key: string, value: Json)

  const EmptyString: Json := JStr("")
  const EmptyObject: Json := JObj([])

  // ---------------------------------------------------------------------
  // Truthiness and the `||` / `??` operators

  /** JavaScript truthiness of a present value. */
  predicate Truthy(v: Json) {
    match v
    case JNull => false
    case JBool(b) => b
    case JNum(n) => n != 0
    case JStr(s) => s != ""
    case _ => true
  }

  /** Truthiness of a possibly absent value (`undefined` is falsy). */
  predicate TruthyOpt(o: Option<Json>) {
    o.Some? && Truthy(o.value)
  }

  /** `Math.min(a, b)` on integers. */
  function Min(a: int, b: int): (r: int)
    ensures r <= a && r <= b && (r == a || r == b)
  {
    if a <= b then a else b
  }

  /** `Math.max(a, b)` on integers. */
  function Max(a: int, b: int): (r: int)
    ensures r >= a && r >= b && (r == a || r == b)
  {
    if a >= b then a else b
  }

  /** `a || b`. */
  function Or(a: Option<Json>, b: Json): (r: Json)
    ensures TruthyOpt(a) ==> r == a.value
    ensures !TruthyOpt(a) ==> r == b
  {
    if TruthyOpt(a) then a.value else b
  }

  /** `a ?? b`: only `null` and `undefined` fall back. */
  function Coalesce(a: Option<Json>, b: Json): (r: Json)
    ensures a.Some? && a.value != JNull ==> r == a.value
    ensures a == None || a == Some(JNull) ==> r == b
  {
    if a.Some? && a.value != JNull then a.value else b
  }

  // ---------------------------------------------------------------------
  // Objects as ordered member lists

  function Keys(fs: seq<Member>): seq<string> {
    seq(|fs|, i requires 0 <= i < |fs| => fs[i].key)
  }

  predicate UniqueKeys(fs: seq<Member>) {
    forall i, j :: 0 <= i < j < |fs| ==> fs[i].key != fs[j].key
  }

  /** Position of the first member named `k`, or `|fs|` when there is none. */
  function KeyIndex(fs: seq<Member>, k: string): (i: nat)
    ensures i <= |fs|
    ensures i < |fs| ==> fs[i].key == k
    ensures forall j :: 0 <= j < i ==> fs[j].key != k
  {
    if fs == [] then 0
    else if fs[0].key == k then 0
    else 1 + KeyIndex(fs[1..], k)
  }

  lemma {:induction false} KeyIndexIsFirst(fs: seq<Member>, k: string, i: nat)
    requires i <= |fs|
    requires i < |fs| ==> fs[i].key == k
    requires forall j :: 0 <= j < i ==> fs[j].key != k
    ensures KeyIndex(fs, k) == i
  {
    if fs != [] && fs[0].key != k {
      KeyIndexIsFirst(fs[1..], k, i - 1);
    }
  }

  lemma KeyIndexSameKeys(a: seq<Member>, b: seq<Member>, k: string)
    requires Keys(a) == Keys(b)
    ensures KeyIndex(a, k) == KeyIndex(b, k)
  {
    assert |a| == |Keys(a)| == |Keys(b)| == |b|;
    forall j | 0 <= j < |a| ensures a[j].key == b[j].key {
      assert Keys(a)[j] == Keys(b)[j];
    }
    KeyIndexIsFirst(b, k, KeyIndex(a, k));
  }

  predicate HasKey(fs: seq<Member>, k: string) {
    KeyIndex(fs, k) < |fs|
  }

  lemma HasKeyInKeys(fs: seq<Member>, k: string)
    ensures HasKey(fs, k) <==> k in Keys(fs)
  {
    if k in Keys(fs) {
      var j :| 0 <= j < |fs| && Keys(fs)[j] == k;
      assert fs[j].key == k;
    }
    if HasKey(fs, k) {
      assert Keys(fs)[KeyIndex(fs, k)] == k;
    }
  }

  /** `obj[k]` on an object. */
  function Lookup(fs: seq<Member>, k: string): (r: Option<Json>)
    ensures r.Some? <==> HasKey(fs, k)
    ensures r.Some? ==> Member(k, r.value) in fs
  {
    var i := KeyIndex(fs, k);
    if i < |fs| then Some(fs[i].value) else None
  }

  /** `{...obj, [k]: v}`: an existing member keeps its position and gets the
      new value; a new member goes last. */
  function Put(fs: seq<Member>, k: string, v: Json): (r: seq<Member>)
    ensures Lookup(r, k) == Some(v)
    ensures forall k' :: k' != k ==> Lookup(r, k') == Lookup(fs, k')
    ensures Keys(r) == if HasKey(fs, k) then Keys(fs) else Keys(fs) + [k]
    ensures UniqueKeys(fs) ==> UniqueKeys(r)
  {
    var i := KeyIndex(fs, k);
    if i < |fs| then
      var r := fs[i := Member(k, v)];
      assert Keys(r) == Keys(fs);
      KeyIndexIsFirst(r, k, i);
      assert forall k' :: KeyIndex(r, k') == KeyIndex(fs, k') by {
        forall k' ensures KeyIndex(r, k') == KeyIndex(fs, k') { KeyIndexSameKeys(r, fs, k'); }
      }
      r
    else
      var r := fs + [Member(k, v)];
      KeyIndexIsFirst(r, k, |fs|);
      assert forall k' :: k' != k ==> Lookup(r, k') == Lookup(fs, k') by {
        forall k' | k' != k ensures Lookup(r, k') == Lookup(fs, k') {
          var j := KeyIndex(fs, k');
          if j < |fs| {
            KeyIndexIsFirst(r, k', j);
          } else {
            KeyIndexIsFirst(r, k', |r|);
          }
        }
      }
      assert Keys(r) == Keys(fs) + [k];
      r
  }

  /** Writing the same member twice keeps only the second write. */
  lemma PutTwice(fs: seq<Member>, k: string, a: Json, b: Json)
    ensures Put(Put(fs, k, a), k, b) == Put(fs, k, b)
  {
    var i := KeyIndex(fs, k);
    if i == |fs| {
      KeyIndexIsFirst(fs + [Member(k, a)], k, |fs|);
    } else {
      KeyIndexSameKeys(Put(fs, k, a), fs, k);
    }
  }

  /** Writing a member the value it already has changes nothing. */
  lemma PutSame(fs: seq<Member>, k: string, v: Json)
    requires Lookup(fs, k) == Some(v)
    ensures Put(fs, k, v) == fs
  {
  }

  /** A new member goes last. */
  lemma PutNew(fs: seq<Member>, k: string, v: Json)
    requires !HasKey(fs, k)
    ensures Put(fs, k, v) == fs + [Member(k, v)]
  {
  }

  /** `delete obj[k]` on a copy: removes the member, the others keep their order. */
  function Delete(fs: seq<Member>, k: string): (r: seq<Member>)
    ensures HasKey(fs, k) ==> r == fs[..KeyIndex(fs, k)] + fs[KeyIndex(fs, k) + 1..]
    ensures !HasKey(fs, k) ==> r == fs
    ensures UniqueKeys(fs) ==> Lookup(r, k) == None && UniqueKeys(r)
    ensures UniqueKeys(fs) ==> forall k' :: k' != k ==> Lookup(r, k') == Lookup(fs, k')
  {
    var i := KeyIndex(fs, k);
    if i < |fs| then
      DeleteAtFirst(fs, k, i);
      fs[..i] + fs[i + 1..]
    else
      fs
  }

  /** Dropping the member at `i`, the first one named `k`, leaves every
      other name as it was, and no `k` when the names were distinct. */
  lemma DeleteAtFirst(fs: seq<Member>, k: string, i: nat)
    requires i < |fs| && i == KeyIndex(fs, k)
    ensures UniqueKeys(fs) ==> Lookup(fs[..i] + fs[i + 1..], k) == None && UniqueKeys(fs[..i] + fs[i + 1..])
    ensures forall k' :: k' != k ==> Lookup(fs[..i] + fs[i + 1..], k') == Lookup(fs, k')
  {
    var r := fs[..i] + fs[i + 1..];
    assert forall j :: 0 <= j < |r| ==> r[j] == fs[if j < i then j else j + 1];
    if UniqueKeys(fs) {
      KeyIndexIsFirst(r, k, |r|);
    }
    forall k' | k' != k ensures Lookup(r, k') == Lookup(fs, k') {
      DeleteKeepsOther(fs, r, i, k');
    }
  }

  lemma DeleteKeepsOther(fs: seq<Member>, r: seq<Member>, i: nat, k': string)
    requires i < |fs| && |r| == |fs| - 1
    requires forall j :: 0 <= j < |r| ==> r[j] == fs[if j < i then j else j + 1]
    requires fs[i].key != k'
    ensures Lookup(r, k') == Lookup(fs, k')
  {
    var j := KeyIndex(fs, k');
    if j < i {
      KeyIndexIsFirst(r, k', j);
    } else if j < |fs| {
      KeyIndexIsFirst(r, k', j - 1);
    } else {
      KeyIndexIsFirst(r, k', |r|);
    }
  }

  // ---------------------------------------------------------------------
  // Sequences

  /** `s.filter((_, idx) => idx !== i)`: drops index `i`, keeps the rest in order. */
  function RemoveAt<T>(s: seq<T>, i: nat): (r: seq<T>)
    ensures i < |s| ==> |r| == |s| - 1
    ensures i < |s| ==> forall j :: 0 <= j < |r| ==> r[j] == s[if j < i then j else j + 1]
    ensures i >= |s| ==> r == s
  {
    if i < |s| then s[..i] + s[i + 1..] else s
  }

  // ---------------------------------------------------------------------
  // Decimal numerals and array-index property names

  function Digit(d: nat): char
    requires d < 10
  {
    "0123456789"[d]
  }

  predicate IsDigit(c: char) {
    '0' <= c <= '9'
  }

  function DigitValue(c: char): nat
    requires IsDigit(c)
  {
    (c as int - '0' as int) as nat
  }

  /** `String(n)` for a natural number. */
  function NatToString(n: nat): (s: string)
    ensures |s| >= 1
    ensures forall i :: 0 <= i < |s| ==> IsDigit(s[i])
  {
    if n < 10 then [Digit(n)] else NatToString(n / 10) + [Digit(n % 10)]
  }

  function IntToString(n: int): string {
    if n < 0 then "-" + NatToString(-n) else NatToString(n)
  }

  /** A property name that designates an array element: a decimal numeral without leading zeros. */
  predicate IsIndexKey(k: string) {
    |k| >= 1 && (forall i :: 0 <= i < |k| ==> IsDigit(k[i])) && (k[0] == '0' ==> |k| == 1)
  }

  function ParseDigits(s: string): nat
    requires forall i :: 0 <= i < |s| ==> IsDigit(s[i])
  {
    if s == [] then 0 else ParseDigits(s[..|s| - 1]) * 10 + DigitValue(s[|s| - 1])
  }

  function ParseIndex(k: string): nat
    requires IsIndexKey(k)
  {
    ParseDigits(k)
  }

  lemma {:induction false} NatToStringLeadingDigit(n: nat)
    requires n >= 1
    ensures NatToString(n)[0] != '0'
  {
    if n >= 10 {
      NatToStringLeadingDigit(n / 10);
    }
  }

  lemma {:induction false} ParseNatToString(n: nat)
    ensures ParseDigits(NatToString(n)) == n
  {
    if n >= 10 {
      var s := NatToString(n);
      assert s[..|s| - 1] == NatToString(n / 10);
      ParseNatToString(n / 10);
    }
  }

  /** Every array index has exactly one property name, and reading it back gives the index. */
  lemma IndexKeyOfNat(n: nat)
    ensures IsIndexKey(NatToString(n))
    ensures ParseIndex(NatToString(n)) == n
  {
    if n >= 1 { NatToStringLeadingDigit(n); }
    ParseNatToString(n);
  }

  lemma {:induction false} ParseDigitsPositive(s: string)
    requires |s| >= 1 && forall i :: 0 <= i < |s| ==> IsDigit(s[i])
    requires s[0] != '0'
    ensures ParseDigits(s) >= 1
  {
    if |s| > 1 {
      ParseDigitsPositive(s[..|s| - 1]);
    }
  }

  lemma DivModTen(a: nat, d: nat)
    requires d < 10
    ensures (a * 10 + d) / 10 == a && (a * 10 + d) % 10 == d
  {
  }

  lemma DigitOfValue(c: char)
    requires IsDigit(c)
    ensures Digit(DigitValue(c)) == c
  {
  }

  /** The other direction: an index-shaped name is the numeral of its index. */
  lemma {:induction false} NatToStringOfIndexKey(k: string)
    requires IsIndexKey(k)
    ensures NatToString(ParseIndex(k)) == k
  {
    if |k| > 1 {
      var pre := k[..|k| - 1];
      var last := k[|k| - 1];
      assert IsIndexKey(pre);
      NatToStringOfIndexKey(pre);
      DropLast(k);
      AppendDigit(pre, last);
    } else {
      DigitOfValue(k[0]);
      assert |k| == 1 && k[..|k| - 1] == [];
      assert ParseDigits(k) == ParseDigits([]) * 10 + DigitValue(k[0]);
      assert k == [k[0]];
    }
  }

  lemma DropLast<T>(s: seq<T>)
    requires |s| > 0
    ensures s[..|s| - 1] + [s[|s| - 1]] == s
  {
  }

  lemma ConsHead<T>(s: seq<T>)
    requires |s| > 0
    ensures [s[0]] + s[1..] == s
  {
  }

  lemma TailOfSnoc<T>(s: seq<T>, x: T)
    requires |s| > 0
    ensures (s + [x])[0] == s[0] && (s + [x])[1..] == s[1..] + [x]
  {
  }

  /** Behind a numeral that does not start with 0, one more digit
      appends to the numeral of the value. */
  lemma AppendDigit(pre: string, last: char)
    requires |pre| >= 1 && pre[0] != '0' && (forall i :: 0 <= i < |pre| ==> IsDigit(pre[i])) && IsDigit(last)
    ensures forall i :: 0 <= i < |pre + [last]| ==> IsDigit((pre + [last])[i])
    ensures NatToString(ParseDigits(pre + [last])) == NatToString(ParseDigits(pre)) + [last]
  {
    var k := pre + [last];
    assert k[..|k| - 1] == pre;
    var a, d := ParseDigits(pre), DigitValue(last);
    assert ParseDigits(k) == a * 10 + d;
    ParseDigitsPositive(pre);
    NatToStringStep(a, d);
    DigitOfValue(last);
  }

  /** Appending a digit to a positive number appends it to the numeral. */
  lemma NatToStringStep(a: nat, d: nat)
    requires a >= 1 && d < 10
    ensures NatToString(a * 10 + d) == NatToString(a) + [Digit(d)]
  {
    DivModTen(a, d);
  }

  lemma NatToStringInjective(m: nat, n: nat)
    requires NatToString(m) == NatToString(n)
    ensures m == n
  {
    ParseNatToString(m);
    ParseNatToString(n);
  }

  // ---------------------------------------------------------------------
  // Property reads, spread and assignment

  /** `v[k]` for a value that is not null (reads on a primitive find nothing,
      except the characters of a string). Built-in members such as `length`
      are not modelled. */
  function Prop(v: Json, k: string): Option<Json> {
    match v
    case JObj(fs) => Lookup(fs, k)
    case JArr(items) =>
      if IsIndexKey(k) && ParseIndex(k) < |items| then Some(items[ParseIndex(k)]) else None
    case JStr(s) =>
      if IsIndexKey(k) && ParseIndex(k) < |s| then Some(JStr([s[ParseIndex(k)]])) else None
    case _ => None
  }

  /** `o?.[k]` where `o` may be absent or null. */
  function PropOpt(o: Option<Json>, k: string): Option<Json> {
    if o.Some? then Prop(o.value, k) else None
  }

  /** The members `{...v}` copies: an object's own members, an array's or a
      string's elements under their index names, nothing for other values. */
  function SpreadMembers(v: Json): (r: seq<Member>)
    ensures v.JObj? ==> r == v.fields
    ensures v.JArr? ==> |r| == |v.items| && forall i :: 0 <= i < |r| ==> r[i] == Member(NatToString(i), v.items[i])
    ensures v.JStr? ==> |r| == |v.s| && forall i :: 0 <= i < |r| ==> r[i] == Member(NatToString(i), JStr([v.s[i]]))
    ensures !v.JObj? && !v.JArr? && !v.JStr? ==> r == []
  {
    match v
    case JObj(fs) => fs
    case JArr(items) => seq(|items|, i requires 0 <= i < |items| => Member(NatToString(i), items[i]))
    case JStr(s) => seq(|s|, i requires 0 <= i < |s| => Member(NatToString(i), JStr([s[i]])))
    case _ => []
  }

  /** The members a string spreads into: one per character, under its index name. */
  lemma SpreadStringLookup(text: string)
    ensures forall i :: 0 <= i < |text| ==> Lookup(SpreadMembers(JStr(text)), NatToString(i)) == Some(JStr([text[i]]))
  {
    var ms := SpreadMembers(JStr(text));
    forall i | 0 <= i < |text| ensures Lookup(ms, NatToString(i)) == Some(JStr([text[i]])) {
      forall j | 0 <= j < i ensures ms[j].key != NatToString(i) {
        if ms[j].key == NatToString(i) { NatToStringInjective(j, i); }
      }
      KeyIndexIsFirst(ms, NatToString(i), i);
    }
  }

  /** `[...v]`: arrays and strings are iterable, everything else throws. */
  function SpreadItems(v: Json): (r: Result<seq<Json>>)
    ensures v.JArr? ==> r == Ok(v.items)
    ensures v.JStr? ==> r.Ok? && |r.value| == |v.s| && forall i :: 0 <= i < |v.s| ==> r.value[i] == JStr([v.s[i]])
    ensures !v.JArr? && !v.JStr? ==> r == Err(TypeError)
  {
    match v
    case JArr(items) => Ok(items)
    case JStr(s) => Ok(seq(|s|, i requires 0 <= i < |s| => JStr([s[i]])))
    case _ => Err(TypeError)
  }

  /** `v[k] = x` in strict mode, as a new value. */
  function Assign(v: Json, k: string, x: Json): (r: Result<Json>)
    ensures v.JObj? ==> r == Ok(JObj(Put(v.fields, k, x)))
    ensures r.Ok? ==> Prop(r.value, k) == Some(x)
    ensures r.Ok? ==> v.JObj? || v.JArr?
  {
    match v
    case JObj(fs) => Ok(JObj(Put(fs, k, x)))
    case JArr(items) =>
      if IsIndexKey(k) && ParseIndex(k) < |items| then Ok(JArr(items[ParseIndex(k) := x]))
      else if IsIndexKey(k) && ParseIndex(k) == |items| then Ok(JArr(items + [x]))
      else Err(Unsupported)
    case _ => Err(TypeError)
  }

  /** An assignment leaves every other member or element as it was: index
      names are canonical, so a different name never reaches the same element. */
  lemma AssignKeepsOtherProps(v: Json, k: string, x: Json, k': string)
    requires Assign(v, k, x).Ok? && k' != k
    ensures Prop(Assign(v, k, x).value, k') == Prop(v, k')
  {
    if v.JArr? && IsIndexKey(k') && IsIndexKey(k) {
      NatToStringOfIndexKey(k);
      NatToStringOfIndexKey(k');
      assert ParseIndex(k') != ParseIndex(k);
    }
  }

  /** Reading an element by its index name. */
  lemma PropIndex(items: seq<Json>, i: nat)
    requires i < |items|
    ensures Prop(JArr(items), NatToString(i)) == Some(items[i])
  {
    IndexKeyOfNat(i);
    var k := NatToString(i);
    assert IsIndexKey(k) && ParseIndex(k) == i;
  }

  /** Writing an element by its index name replaces exactly that element. */
  lemma AssignIndex(items: seq<Json>, i: nat, x: Json)
    requires i < |items|
    ensures Assign(JArr(items), NatToString(i), x) == Ok(JArr(items[i := x]))
  {
    IndexKeyOfNat(i);
    var k := NatToString(i);
    assert IsIndexKey(k) && ParseIndex(k) == i;
  }

  /** `v[p0][p1]…[pn]`, where reading a member of `undefined` or `null` throws. */
  function GetPath(v: Json, path: seq<string>): (r: Result<Option<Json>>)
    decreases |path|
  {
    if path == [] then Ok(Some(v))
    else if v == JNull then Err(TypeError)
    else if |path| == 1 then Ok(Prop(v, path[0]))
    else
      match Prop(v, path[0])
      case None => Err(TypeError)
      case Some(child) => GetPath(child, path[1..])
  }

  /** `v[p0][p1]…[pn] = x` in strict mode: the members on the way are read,
      the last one is written. Writing into shared objects is modelled as
      the value that results. */
  function AssignPath(v: Json, path: seq<string>, x: Json): (r: Result<Json>)
    ensures path == [] ==> r == Ok(x)
    ensures |path| == 1 ==> r == Assign(v, path[0], x)
    ensures r.Ok? && path != [] ==> v.JObj? || v.JArr?
    decreases |path|
  {
    if path == [] then Ok(x)
    else if |path| == 1 then Assign(v, path[0], x)
    else
      match Prop(v, path[0])
      case None => Err(TypeError)
      case Some(child) =>
        match AssignPath(child, path[1..], x)
        case Err(e) => Err(e)
        case Ok(c) => Assign(v, path[0], c)
  }

  /** After a successful chained assignment, reading the same chain gives the value written. */
  lemma {:induction false} AssignPathThenGet(v: Json, path: seq<string>, x: Json)
    requires AssignPath(v, path, x).Ok?
    ensures GetPath(AssignPath(v, path, x).value, path) == Ok(Some(x))
    decreases |path|
  {
    if |path| > 1 {
      var child := Prop(v, path[0]).value;
      AssignPathThenGet(child, path[1..], x);
    }
  }

  /** The member names `path` lead through containers: every value on the
      way is an object or an array that holds the next member. */
  predicate WritableAlong(v: Json, path: seq<string>)
    decreases |path|
  {
    path == [] || ((v.JObj? || v.JArr?) && Prop(v, path[0]).Some? && WritableAlong(Prop(v, path[0]).value, path[1..]))
  }

  /** `v[p0]…[pn][last] = x` succeeds exactly when `p0…pn` lead through
      containers and the final assignment into the value they reach succeeds. */
  lemma {:induction false} AssignPathSucceeds(v: Json, path: seq<string>, last: string, x: Json)
    ensures AssignPath(v, path + [last], x).Ok? <==>
      WritableAlong(v, path) && GetPath(v, path).Ok? && GetPath(v, path).value.Some?
      && Assign(GetPath(v, path).value.value, last, x).Ok?
    decreases |path|
  {
    if path != [] {
      var k, rest := path[0], path[1..];
      assert (path + [last])[1..] == rest + [last];
      assert (path + [last])[0] == k;
      match Prop(v, k)
      case None =>
      case Some(child) =>
        AssignPathSucceeds(child, rest, last, x);
        if v.JObj? || v.JArr? {
          if rest == [] {
            assert GetPath(v, path) == Ok(Some(child));
          } else {
            assert GetPath(v, path) == GetPath(child, rest);
          }
        }
    }
  }

  // ---------------------------------------------------------------------
  // Locality of an edit

  /** One step down a document: an array element or an object member. */
  datatype Step = AtIndex(i: nat) | AtKey(k: string)

  /** `w` is `v` except inside the value `path` leads to: along the path
      every array keeps its length and every object its keys in order, and
      every element or member off the path is unchanged. */
  ghost predicate ChangedOnlyAt(v: Json, w: Json, path: seq<Step>)
    decreases |path|
  {
    path == [] ||
    match path[0]
    case AtIndex(i) =>
      v.JArr? && w.JArr? && |v.items| == |w.items| && i < |v.items|
      && (forall j :: 0 <= j < |v.items| && j != i ==> w.items[j] == v.items[j])
      && ChangedOnlyAt(v.items[i], w.items[i], path[1..])
    case AtKey(k) =>
      v.JObj? && w.JObj? && Keys(w.fields) == Keys(v.fields) && HasKey(v.fields, k) && HasKey(w.fields, k)
      && (forall k' :: k' != k ==> Lookup(w.fields, k') == Lookup(v.fields, k'))
      && ChangedOnlyAt(Lookup(v.fields, k).value, Lookup(w.fields, k).value, path[1..])
  }

  lemma PutChangesOnlyAt(fs: seq<Member>, k: string, x: Json, rest: seq<Step>)
    requires HasKey(fs, k)
    requires ChangedOnlyAt(Lookup(fs, k).value, x, rest)
    ensures ChangedOnlyAt(JObj(fs), JObj(Put(fs, k, x)), [AtKey(k)] + rest)
  {
    var r := Put(fs, k, x);
    KeyIndexSameKeys(r, fs, k);
    assert ([AtKey(k)] + rest)[1..] == rest;
  }

  lemma ReplaceChangesOnlyAt(items: seq<Json>, i: nat, x: Json, rest: seq<Step>)
    requires i < |items|
    requires ChangedOnlyAt(items[i], x, rest)
    ensures ChangedOnlyAt(JArr(items), JArr(items[i := x]), [AtIndex(i)] + rest)
  {
    assert ([AtIndex(i)] + rest)[1..] == rest;
  }

  /** The step member name `k` takes into `v`: an element of an array for
      an index name, a member otherwise. */
  function StepAt(v: Json, k: string): Step {
    if v.JArr? && IsIndexKey(k) then AtIndex(ParseIndex(k)) else AtKey(k)
  }

  /** The steps the member names `path` take through `v`. */
  function StepsOf(v: Json, path: seq<string>): seq<Step>
    decreases |path|
  {
    if path == [] then []
    else
      match Prop(v, path[0])
      case None => [StepAt(v, path[0])]
      case Some(child) => [StepAt(v, path[0])] + StepsOf(child, path[1..])
  }

  /** Assigning over an existing member or element changes `v` only there. */
  lemma AssignChangesOnlyAt(v: Json, k: string, c: Json, rest: seq<Step>)
    requires Prop(v, k).Some? && Assign(v, k, c).Ok?
    requires ChangedOnlyAt(Prop(v, k).value, c, rest)
    ensures ChangedOnlyAt(v, Assign(v, k, c).value, [StepAt(v, k)] + rest)
  {
    if v.JObj? {
      PutChangesOnlyAt(v.fields, k, c, rest);
    } else {
      ReplaceChangesOnlyAt(v.items, ParseIndex(k), c, rest);
    }
  }

  /** `v[p0]…[pn][last] = x` changes `v` only along `p0…pn`, and the value
      `p0…pn` leads to becomes what assigning `last` into it gives. */
  lemma {:induction false} AssignPathChangesOnlyAt(v: Json, path: seq<string>, last: string, x: Json)
    requires AssignPath(v, path + [last], x).Ok?
    ensures GetPath(v, path).Ok? && GetPath(v, path).value.Some?
    ensures Assign(GetPath(v, path).value.value, last, x).Ok?
    ensures var w := AssignPath(v, path + [last], x).value;
      ChangedOnlyAt(v, w, StepsOf(v, path))
      && GetPath(w, path) == Ok(Some(Assign(GetPath(v, path).value.value, last, x).value))
    decreases |path|
  {
    if path != [] {
      var k, rest := path[0], path[1..];
      assert (path + [last])[1..] == rest + [last];
      var child := Prop(v, k).value;
      AssignPathChangesOnlyAt(child, rest, last, x);
      var c := AssignPath(child, rest + [last], x).value;
      AssignChangesOnlyAt(v, k, c, StepsOf(child, rest));
      if rest == [] {
        assert GetPath(c, rest) == Ok(Some(c));
      }
    }
  }

  // ---------------------------------------------------------------------
  // String conversion

  /** `String(v)`, also what a template literal `${v}` produces. */
  function ToStr(v: Json): string
  {
    match v
    case JNull => "null"
    case JBool(b) => if b then "true" else "false"
    case JNum(n) => IntToString(n)
    case JStr(s) => s
    case JArr(items) => JoinElements(seq(|items|, i requires 0 <= i < |items| => if items[i] == JNull then "" else ToStr(items[i])))
    case JObj(_) => "[object Object]"
  }

  /** The `","`-separated join that `Array.prototype.toString` performs. */
  function JoinElements(parts: seq<string>): string {
    if parts == [] then "" else if |parts| == 1 then parts[0] else parts[0] + "," + JoinElements(parts[1..])
  }

  /** `String(x)` where `x` may be `undefined`. */
  function ToStrOpt(o: Option<Json>): string {
    if o.Some? then ToStr(o.value) else "undefined"
  }
}
