/** The add/edit form of the list page (`Form`): reading and writing a
    value under a dotted path of the form data, and the add/remove buttons
    of nested lists. */
module Form {
  import opened Js
  import opened Text
  import opened Types

  // ---------------------------------------------------------------------
  // getNestedValue

  /** `keys.reduce((o, k) => (o ? o[k] : undefined), o)`. */
  function GetFrom(o: Option<Json>, keys: seq<string>): Option<Json>
    decreases |keys|
  {
    if keys == [] then o
    else GetFrom(if TruthyOpt(o) then Prop(o.value, keys[0]) else None, keys[1..])
  }

  /** `getNestedValue(obj, path)`: a falsy value on the way makes the result `undefined`. */
  function GetNested(obj: Json, path: string): (r: Option<Json>)
    ensures !Truthy(obj) ==> r == None
    ensures '.' !in path ==> r == if Truthy(obj) then Prop(obj, path) else None
  {
    var keys := Split(path, '.');
    GetFromFalsy(keys[1..]);
    var next := if Truthy(obj) then Prop(obj, keys[0]) else None;
    assert GetFrom(Some(obj), keys) == GetFrom(next, keys[1..]);
    assert '.' !in path ==> keys[1..] == [] && keys[0] == path;
    GetFrom(Some(obj), keys)
  }

  lemma {:induction false} GetFromFalsy(keys: seq<string>)
    ensures GetFrom(None, keys) == None
    decreases |keys|
  {
    if keys != [] {
      GetFromFalsy(keys[1..]);
    }
  }

  /** Once the walk meets a falsy value, the whole read is `undefined`. */
  lemma GetFromStopsAtFalsy(o: Json, keys: seq<string>)
    requires !Truthy(o) && keys != []
    ensures GetFrom(Some(o), keys) == None
  {
    GetFromFalsy(keys[1..]);
  }

  // ---------------------------------------------------------------------
  // setNestedValue

  /** What `current` becomes after one step of the loop: the member when it
      is truthy, otherwise the `{}` just written there. */
  function Child(o: Json, k: string): Json {
    if TruthyOpt(Prop(o, k)) then Prop(o, k).value else EmptyObject
  }

  /** One step of the loop does not throw: `o` can be read, and a falsy
      member can be replaced by `{}`. */
  predicate StepOk(o: Json, k: string) {
    o != JNull && (TruthyOpt(Prop(o, k)) || Assign(o, k, EmptyObject).Ok?)
  }

  function StepError(o: Json, k: string): JsError
    requires !StepOk(o, k)
  {
    if o == JNull then TypeError else Assign(o, k, EmptyObject).error
  }

  /** Whether one step of the loop throws, and with what: reading a member
      of `null` is a `TypeError`; a falsy member is replaced by `{}`, which
      fails where the assignment does. */
  function StepFailure(o: Json, k: string): (r: Option<JsError>)
    ensures r.None? <==> StepOk(o, k)
    ensures r.Some? ==> r.value == StepError(o, k)
  {
    if o == JNull then Some(TypeError)
    else if !TruthyOpt(Prop(o, k)) && Assign(o, k, EmptyObject).Err? then Some(Assign(o, k, EmptyObject).error)
    else None
  }

  /** The container `o` after walking `keys` and writing `x` as member
      `last` at the end, with the writes made in place on the way down
      carried up into the value. */
  function SetIn(o: Json, keys: seq<string>, last: string, x: Json): (r: Result<Json>)
    ensures r.Ok? ==> r.value.JObj? || r.value.JArr?
    decreases |keys|
  {
    if keys == [] then Assign(o, last, x)
    else if !StepOk(o, keys[0]) then Err(StepError(o, keys[0]))
    else
      match SetIn(Child(o, keys[0]), keys[1..], last, x)
      case Err(e) => Err(e)
      case Ok(c) => Assign(o, keys[0], c)
  }

  /** `setNestedValue(obj, path, value)`, returning `{...obj}`. */
  function SetNested(obj: Json, path: string, x: Json): (r: Result<Json>)
    ensures r.Ok? ==> r.value.JObj?
    ensures '.' !in path && obj.JObj? ==> r == Ok(JObj(Put(obj.fields, path, x)))
  {
    var keys := Split(path, '.');
    match SetIn(obj, keys[..|keys| - 1], keys[|keys| - 1], x)
    case Err(e) => Err(e)
    case Ok(v) => Ok(JObj(SpreadMembers(v)))
  }

  /** `setNestedValue`: the loop walks down the path, replacing falsy
      members by `{}`; the last key is then written. The containers met on
      the way are kept in a spine so that the writes, which the source makes
      in place, can be carried up into the returned value. */
  method SetNestedValue(obj: Json, path: string, value: Json) returns (r: Result<Json>)
    ensures r == SetNested(obj, path, value)
  {
    var all := Split(path, '.');
    var lastKey := all[|all| - 1];
    var keys := all[..|all| - 1];
    var acc := WriteAlong(obj, keys, lastKey, value);
    if acc.Ok? {
      r := Ok(JObj(SpreadMembers(acc.value)));
    } else {
      r := Err(acc.error);
    }
  }

  /** The loop and the final write of `setNestedValue`, carried up into the
      value of `obj`. */
  method WriteAlong(obj: Json, keys: seq<string>, lastKey: string, value: Json) returns (acc: Result<Json>)
    ensures acc == SetIn(obj, keys, lastKey, value)
  {
    var spine, failure := WalkPath(obj, keys);
    var i := |spine| - 1;
    assert forall j :: 0 <= j < i ==> StepOk(spine[j], keys[j]) && spine[j + 1] == Child(spine[j], keys[j]);
    if failure.Some? {
      acc := Err(failure.value);
      SetInStops(spine[i], keys[i..], lastKey, value);
    } else {
      acc := Assign(spine[i], lastKey, value);
      assert keys[i..] == [];
    }
    acc := CarryUp(spine, keys, i, lastKey, value, acc);
  }

  /** The descent of `setNestedValue`: the containers met along `keys`,
      and the error of the step that throws, if one does. */
  method WalkPath(obj: Json, keys: seq<string>) returns (spine: seq<Json>, failure: Option<JsError>)
    ensures 1 <= |spine| <= |keys| + 1 && spine[0] == obj
    ensures forall j :: 0 <= j < |spine| - 1 ==> StepOk(spine[j], keys[j]) && spine[j + 1] == Child(spine[j], keys[j])
    ensures failure.None? ==> |spine| == |keys| + 1
    ensures failure.Some? ==>
      (|spine| <= |keys| && !StepOk(spine[|spine| - 1], keys[|spine| - 1])
       && failure.value == StepError(spine[|spine| - 1], keys[|spine| - 1]))
  {
    var current := obj;
    spine := [obj];
    failure := None;
    var i := 0;
    while i < |keys| && failure == None
      invariant 0 <= i <= |keys|
      invariant |spine| == i + 1 && spine[0] == obj && spine[i] == current
      invariant forall j :: 0 <= j < i ==> StepOk(spine[j], keys[j]) && spine[j + 1] == Child(spine[j], keys[j])
      invariant failure.Some? ==> i < |keys| && !StepOk(current, keys[i]) && failure.value == StepError(current, keys[i])
      decreases |keys| - i, if failure == None then 1 else 0
    {
      var key := keys[i];
      failure := StepFailure(current, key);
      if failure.None? {
        SpineGrows(spine, keys, i);
        current := Child(current, key);
        spine := spine + [current];
        i := i + 1;
      }
    }
  }

  /** One more linked step keeps the spine linked. */
  lemma SpineGrows(spine: seq<Json>, keys: seq<string>, i: nat)
    requires |spine| == i + 1 && i < |keys|
    requires forall j :: 0 <= j < i ==> StepOk(spine[j], keys[j]) && spine[j + 1] == Child(spine[j], keys[j])
    requires StepOk(spine[i], keys[i])
    ensures forall j :: 0 <= j < i + 1 ==>
      (StepOk((spine + [Child(spine[i], keys[i])])[j], keys[j])
       && (spine + [Child(spine[i], keys[i])])[j + 1] == Child((spine + [Child(spine[i], keys[i])])[j], keys[j]))
  {
    var s := spine + [Child(spine[i], keys[i])];
    assert forall j :: 0 <= j <= i ==> s[j] == spine[j];
  }

  /** The way back up: each container of the spine receives, under its
      key, the container written below it. */
  method CarryUp(spine: seq<Json>, keys: seq<string>, i: nat, last: string, x: Json, below: Result<Json>)
    returns (acc: Result<Json>)
    requires i < |spine| <= |keys| + 1 && i <= |keys|
    requires forall j :: 0 <= j < i ==> StepOk(spine[j], keys[j]) && spine[j + 1] == Child(spine[j], keys[j])
    requires below == SetIn(spine[i], keys[i..], last, x)
    ensures acc == SetIn(spine[0], keys, last, x)
  {
    acc := below;
    var j := i;
    while j > 0
      invariant 0 <= j <= i
      invariant acc == SetIn(spine[j], keys[j..], last, x)
    {
      j := j - 1;
      SetInSteps(spine[j], keys[j..], last, x, acc);
      if acc.Ok? {
        acc := Assign(spine[j], keys[j], acc.value);
      }
    }
    assert keys[0..] == keys;
  }

  /** The loop stops at a key whose step throws. */
  lemma SetInStops(o: Json, keys: seq<string>, last: string, x: Json)
    requires keys != [] && !StepOk(o, keys[0])
    ensures SetIn(o, keys, last, x) == Err(StepError(o, keys[0]))
  {
  }

  /** One container on the way up receives the value written below it. */
  lemma SetInSteps(o: Json, keys: seq<string>, last: string, x: Json, below: Result<Json>)
    requires keys != [] && StepOk(o, keys[0])
    requires below == SetIn(Child(o, keys[0]), keys[1..], last, x)
    ensures SetIn(o, keys, last, x) == if below.Ok? then Assign(o, keys[0], below.value) else below
  {
  }

  lemma {:induction false} SetInThenGet(o: Json, keys: seq<string>, last: string, x: Json)
    requires SetIn(o, keys, last, x).Ok?
    ensures GetFrom(Some(SetIn(o, keys, last, x).value), keys + [last]) == Some(x)
    decreases |keys|
  {
    var r := SetIn(o, keys, last, x).value;
    assert Truthy(r);
    if keys == [] {
      assert [] + [last] == [last];
      assert Prop(r, last) == Some(x);
      assert GetFrom(Some(r), [last]) == GetFrom(Some(x), []);
    } else {
      var k := keys[0];
      var c := SetIn(Child(o, k), keys[1..], last, x).value;
      assert Assign(o, k, c) == Ok(r);
      assert Prop(r, k) == Some(c);
      SetInThenGet(Child(o, k), keys[1..], last, x);
      TailOfSnoc(keys, last);
      assert GetFrom(Some(r), keys + [last]) == GetFrom(Some(c), keys[1..] + [last]);
    }
  }

  /** After `handleChange(path, x)` the form reads `x` back under `path`. */
  lemma SetThenGet(obj: Json, path: string, x: Json)
    requires obj.JObj?
    requires SetNested(obj, path, x).Ok?
    ensures GetNested(SetNested(obj, path, x).value, path) == Some(x)
  {
    var all := Split(path, '.');
    var keys := all[..|all| - 1];
    var v := SetIn(obj, keys, all[|all| - 1], x).value;
    DropLast(all);
    SetInThenGet(obj, keys, all[|all| - 1], x);
    SetInOfObject(obj, keys, all[|all| - 1], x);
    assert SetNested(obj, path, x) == Ok(v);
  }

  /** Writing into an object gives an object. */
  lemma SetInOfObject(o: Json, keys: seq<string>, last: string, x: Json)
    requires o.JObj? && SetIn(o, keys, last, x).Ok?
    ensures SetIn(o, keys, last, x).value.JObj?
  {
  }

  /** Only the member the path starts with changes; the other members of
      the form data keep their values. */
  lemma SetKeepsOtherMembers(fs: seq<Member>, path: string, x: Json, k: string)
    requires SetNested(JObj(fs), path, x).Ok?
    requires k != Split(path, '.')[0]
    ensures Prop(SetNested(JObj(fs), path, x).value, k) == Lookup(fs, k)
  {
    var all := Split(path, '.');
    var keys := all[..|all| - 1];
    if keys != [] {
      assert keys[0] == all[0];
    }
  }

  /** Every member off the path keeps its value, at every level: for a
      prefix `keys[..j]` and a name `k` other than the next one on the
      path, reading `keys[..j] + [k]` gives what it gave before. Where the
      walk replaced a falsy member by `{}`, the read was `undefined` before
      and still is. */
  lemma {:induction false} SetInKeepsOffPath(o: Json, keys: seq<string>, last: string, x: Json, j: nat, k: string)
    requires SetIn(o, keys, last, x).Ok?
    requires j <= |keys| && k != (keys + [last])[j]
    ensures GetFrom(Some(SetIn(o, keys, last, x).value), keys[..j] + [k]) == GetFrom(Some(o), keys[..j] + [k])
    decreases |keys|
  {
    var r := SetIn(o, keys, last, x).value;
    if keys == [] {
      ReadOneAfterAssign(o, last, x, k);
    } else {
      var k0 := keys[0];
      var ch := Child(o, k0);
      var c := SetIn(ch, keys[1..], last, x).value;
      assert Assign(o, k0, c) == Ok(r);
      if j == 0 {
        ReadOneAfterAssign(o, k0, c, k);
      } else {
        var rest := keys[1..][..j - 1] + [k];
        PrefixSplit(keys, last, j, k);
        SetInKeepsOffPath(ch, keys[1..], last, x, j - 1, k);
        ReadThroughAssign(o, k0, c, rest);
        if !TruthyOpt(Prop(o, k0)) {
          ReadThroughFalsy(Prop(o, k0), rest);
        }
      }
    }
  }

  lemma PrefixSplit(keys: seq<string>, last: string, j: nat, k: string)
    requires 0 < j <= |keys|
    ensures keys[..j] + [k] == [keys[0]] + (keys[1..][..j - 1] + [k])
    ensures (keys[1..] + [last])[j - 1] == (keys + [last])[j]
  {
    assert keys[..j] == [keys[0]] + keys[1..][..j - 1];
  }

  /** A read of one other member after an assignment gives what it gave before. */
  lemma ReadOneAfterAssign(o: Json, k0: string, c: Json, k: string)
    requires Assign(o, k0, c).Ok? && k != k0
    ensures GetFrom(Some(Assign(o, k0, c).value), [k]) == GetFrom(Some(o), [k])
  {
    var r := Assign(o, k0, c).value;
    AssignKeepsOtherProps(o, k0, c, k);
    assert Truthy(r) && Truthy(o);
    assert GetFrom(Some(r), [k]) == GetFrom(Prop(r, k), []);
    assert GetFrom(Some(o), [k]) == GetFrom(Prop(o, k), []);
  }

  /** A read through the assigned member continues in the value written. */
  lemma ReadThroughAssign(o: Json, k0: string, c: Json, rest: seq<string>)
    requires Assign(o, k0, c).Ok?
    ensures GetFrom(Some(Assign(o, k0, c).value), [k0] + rest) == GetFrom(Some(c), rest)
    ensures GetFrom(Some(o), [k0] + rest) == GetFrom(Prop(o, k0), rest)
  {
    var r := Assign(o, k0, c).value;
    assert Truthy(r) && Truthy(o);
    assert ([k0] + rest)[0] == k0 && ([k0] + rest)[1..] == rest;
  }

  /** Below a falsy member, which the walk replaced by `{}`, every read
      was `undefined` and still is. */
  lemma ReadThroughFalsy(m: Option<Json>, rest: seq<string>)
    requires !TruthyOpt(m) && rest != []
    ensures GetFrom(m, rest) == None && GetFrom(Some(EmptyObject), rest) == None
  {
    GetFromFalsy(rest);
    GetFromFalsy(rest[1..]);
    if m.Some? {
      GetFromStopsAtFalsy(m.value, rest);
    }
  }

  /** `setNestedValue` keeps the members off the path at every level: the
      source copies each container on the way (`{...current[key]}`) and
      writes only the next key into it. */
  lemma SetKeepsOffPathMembers(fs: seq<Member>, path: string, x: Json, j: nat, k: string)
    requires SetNested(JObj(fs), path, x).Ok?
    requires j < |Split(path, '.')| && k != Split(path, '.')[j]
    ensures GetFrom(Some(SetNested(JObj(fs), path, x).value), Split(path, '.')[..j] + [k])
      == GetFrom(Some(JObj(fs)), Split(path, '.')[..j] + [k])
  {
    var all := Split(path, '.');
    var keys := all[..|all| - 1];
    var last := all[|all| - 1];
    DropLast(all);
    assert keys + [last] == all;
    assert keys[..j] == all[..j];
    SetInOfObject(JObj(fs), keys, last, x);
    SetInKeepsOffPath(JObj(fs), keys, last, x, j, k);
  }

  /** A falsy member on the way is replaced by a fresh object holding the
      rest of the path: `a.b` written into a form whose `a` is falsy sets
      `a` to `{b: x}`. */
  lemma SetThroughFalsyMember(fs: seq<Member>, a: string, b: string, x: Json)
    requires '.' !in a && '.' !in b
    requires !TruthyOpt(Lookup(fs, a))
    ensures SetNested(JObj(fs), a + "." + b, x) == Ok(JObj(Put(fs, a, JObj([Member(b, x)]))))
  {
    SplitJoin([a, b], '.');
    assert Join([a, b], ".") == a + "." + b;
    var all := Split(a + "." + b, '.');
    assert all == [a, b];
    assert all[..1] == [a] && all[1] == b;
    assert Put([], b, x) == [Member(b, x)];
    var inner := JObj([Member(b, x)]);
    assert Child(JObj(fs), a) == EmptyObject;
    assert StepOk(JObj(fs), a);
    assert SetIn(EmptyObject, [], b, x) == Ok(inner);
    assert SetIn(JObj(fs), [a], b, x) == Ok(JObj(Put(fs, a, inner)));
  }

  // ---------------------------------------------------------------------
  // Nested lists

  /** The value a template field starts with in a new item. */
  function DefaultValue(f: FormField): Json {
    if f.isArray then JArr([]) else EmptyString
  }

  /** The new item after the template loop has handled `template` in order. */
  function EmptyItemMembers(template: seq<FormField>): seq<Member>
    decreases |template|
  {
    if template == [] then []
    else Put(EmptyItemMembers(template[..|template| - 1]), template[|template| - 1].name, DefaultValue(template[|template| - 1]))
  }

  /** `template.forEach(f => { emptyItem[f.name] = f.isArray ? [] : ""; })`. */
  method EmptyItem(template: seq<FormField>) returns (item: seq<Member>)
    ensures item == EmptyItemMembers(template)
  {
    item := [];
    var i := 0;
    while i < |template|
      invariant 0 <= i <= |template|
      invariant item == EmptyItemMembers(template[..i])
    {
      var f := template[i];
      EmptyItemMembersSnoc(template, i);
      item := Put(item, f.name, DefaultValue(f));
      i := i + 1;
    }
    assert template[..|template|] == template;
  }

  lemma EmptyItemMembersSnoc(template: seq<FormField>, i: nat)
    requires i < |template|
    ensures EmptyItemMembers(template[..i + 1]) ==
      Put(EmptyItemMembers(template[..i]), template[i].name, DefaultValue(template[i]))
  {
    assert template[..i + 1][..i] == template[..i];
  }

  function Names(template: seq<FormField>): (r: seq<string>)
    ensures |r| == |template| && forall i :: 0 <= i < |template| ==> r[i] == template[i].name
  {
    seq(|template|, i requires 0 <= i < |template| => template[i].name)
  }

  /** An item of this shape: one member per template field, in order, each
      holding that field's default. */
  predicate ShapedLike(item: seq<Member>, template: seq<FormField>) {
    Keys(item) == Names(template)
    && forall i :: 0 <= i < |template| ==> Lookup(item, template[i].name) == Some(DefaultValue(template[i]))
  }

  lemma EmptyItemStep(before: seq<Member>, pre: seq<FormField>, f: FormField)
    requires ShapedLike(before, pre)
    requires forall i :: 0 <= i < |pre| ==> pre[i].name != f.name
    ensures ShapedLike(Put(before, f.name, DefaultValue(f)), pre + [f])
  {
    HasKeyInKeys(before, f.name);
    var t := pre + [f];
    assert Names(t) == Names(pre) + [f.name];
    forall i | 0 <= i < |t|
      ensures Lookup(Put(before, f.name, DefaultValue(f)), t[i].name) == Some(DefaultValue(t[i]))
    {
      if i < |pre| {
        assert t[i] == pre[i];
      }
    }
  }

  /** With distinct names, the new item has one member per template field,
      in template order, each holding that field's default. */
  lemma {:induction false} EmptyItemShape(template: seq<FormField>)
    requires NamesUnique(template)
    ensures ShapedLike(EmptyItemMembers(template), template)
    decreases |template|
  {
    if template != [] {
      var n := |template| - 1;
      var pre := template[..n];
      assert template == pre + [template[n]];
      EmptyItemShape(pre);
      EmptyItemStep(EmptyItemMembers(pre), pre, template[n]);
    }
  }

  /** `getNestedValue(formData, path) || []`. */
  function ListAt(formData: Json, path: string): Json {
    Or(GetNested(formData, path), JArr([]))
  }

  /** `addArrayItem(path, template)`: the list at `path` (a string spreads
      into its characters) with the new item appended, written back. */
  function AddArrayItem(formData: Json, path: string, template: seq<FormField>): (r: Result<Json>)
    ensures !ListAt(formData, path).JArr? && !ListAt(formData, path).JStr? ==> r == Err(TypeError)
    ensures '.' !in path && formData.JObj? && ListAt(formData, path).JArr? ==>
      r == Ok(JObj(Put(formData.fields, path, JArr(ListAt(formData, path).items + [JObj(EmptyItemMembers(template))]))))
  {
    match SpreadItems(ListAt(formData, path))
    case Err(e) => Err(e)
    case Ok(items) => SetNested(formData, path, JArr(items + [JObj(EmptyItemMembers(template))]))
  }

  /** Adding an item to a list leaves the list's items in place and puts
      the template's empty item after them. */
  lemma AddArrayItemAppends(formData: Json, path: string, template: seq<FormField>)
    requires formData.JObj?
    requires ListAt(formData, path).JArr?
    requires AddArrayItem(formData, path, template).Ok?
    ensures GetNested(AddArrayItem(formData, path, template).value, path) ==
      Some(JArr(ListAt(formData, path).items + [JObj(EmptyItemMembers(template))]))
  {
    SetThenGet(formData, path, JArr(ListAt(formData, path).items + [JObj(EmptyItemMembers(template))]));
  }

  /** An absent or falsy list counts as empty: the first added item is the only one. */
  lemma AddFirstArrayItem(formData: Json, path: string, template: seq<FormField>)
    requires formData.JObj?
    requires !TruthyOpt(GetNested(formData, path))
    requires AddArrayItem(formData, path, template).Ok?
    ensures GetNested(AddArrayItem(formData, path, template).value, path) == Some(JArr([JObj(EmptyItemMembers(template))]))
  {
    AddArrayItemAppends(formData, path, template);
    assert [] + [JObj(EmptyItemMembers(template))] == [JObj(EmptyItemMembers(template))];
  }

  /** `removeArrayItem(path, index)`: `splice(index, 1)` on the list at
      `path`, then the list written back; a value with no `splice` throws. */
  function RemoveArrayItem(formData: Json, path: string, index: nat): (r: Result<Json>)
    ensures !ListAt(formData, path).JArr? ==> r == Err(TypeError)
    ensures '.' !in path && formData.JObj? && ListAt(formData, path).JArr? ==>
      r == Ok(JObj(Put(formData.fields, path, JArr(RemoveAt(ListAt(formData, path).items, index)))))
  {
    var arr := ListAt(formData, path);
    if !arr.JArr? then Err(TypeError)
    else SetNested(formData, path, JArr(RemoveAt(arr.items, index)))
  }

  /** Removing item `index` leaves the others in their order. */
  lemma RemoveArrayItemDropsOne(formData: Json, path: string, index: nat)
    requires formData.JObj?
    requires RemoveArrayItem(formData, path, index).Ok?
    ensures ListAt(formData, path).JArr?
    ensures GetNested(RemoveArrayItem(formData, path, index).value, path) ==
      Some(JArr(RemoveAt(ListAt(formData, path).items, index)))
  {
    SetThenGet(formData, path, JArr(RemoveAt(ListAt(formData, path).items, index)));
  }
}
