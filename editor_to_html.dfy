/** `editorToHtml`: the serialiser from EditorJS block documents to HTML.
    `decodeHtml`, which decodes character references through a DOM
    textarea, is a parameter. */
module EditorToHtml {
  import opened Js

  /** `o.k` where `o` may be absent: reading a member of `undefined` or `null` throws. */
  function Get(o: Option<Json>, k: string): (r: Result<Option<Json>>)
    ensures r.Err? <==> o == None || o == Some(JNull)
    ensures r.Ok? ==> r.value == Prop(o.value, k)
  {
    if o == None || o == Some(JNull) then Err(TypeError) else Ok(Prop(o.value, k))
  }

  /** What `decodeHtml(html = "")` receives: `undefined` takes the default
      and `null` is stored as the empty string; other values are converted. */
  function HtmlArgument(o: Option<Json>): string {
    if o == None || o == Some(JNull) then "" else ToStr(o.value)
  }

  /** The whitespace of the header template between the tags and the text. */
  const HeaderIndent: string := "\n            "
  const HeaderOutdent: string := "\n          "

  function HeaderHtml(level: string, text: string): string {
    "<h" + level + ">" + HeaderIndent + text + HeaderOutdent + "</h" + level + ">"
  }

  /** `items.map(i => `<li>${i}</li>`).join("")`. */
  function ItemsHtml(items: seq<Json>): string
    decreases |items|
  {
    if items == [] then "" else "<li>" + ToStr(items[0]) + "</li>" + ItemsHtml(items[1..])
  }

  /** The block types the serialiser knows. */
  predicate KnownBlock(block: Json) {
    Prop(block, "type") in [Some(JStr("header")), Some(JStr("paragraph")), Some(JStr("list")), Some(JStr("image"))]
  }

  /** When serialising a block throws: a `null` block; a known block whose
      `data` is missing or `null`; a list whose `items` is not an array (it
      has no `map`); an image whose `data.file` is missing or `null`. */
  predicate BlockThrows(block: Json) {
    var data := Prop(block, "data");
    || block == JNull
    || (KnownBlock(block) && (data == None || data == Some(JNull)))
    || (Prop(block, "type") == Some(JStr("list")) && data.Some? && data.value != JNull
        && !(Prop(data.value, "items").Some? && Prop(data.value, "items").value.JArr?))
    || (Prop(block, "type") == Some(JStr("image")) && data.Some? && data.value != JNull
        && (Prop(data.value, "file") == None || Prop(data.value, "file") == Some(JNull)))
  }

  /** The fragment of one block. */
  function BlockHtml(decode: string -> string, block: Json): (r: Result<string>)
    ensures r.Err? <==> BlockThrows(block)
    ensures r.Err? ==> r.error == TypeError
    ensures block != JNull && !KnownBlock(block) ==> r == Ok("")
  {
    if block == JNull then Err(TypeError)
    else
      var kind := Prop(block, "type");
      var data := Prop(block, "data");
      if kind == Some(JStr("header")) then
        match Get(data, "level")
        case Err(e) => Err(e)
        case Ok(level) => Ok(HeaderHtml(ToStrOpt(level), decode(HtmlArgument(Get(data, "text").value))))
      else if kind == Some(JStr("paragraph")) then
        match Get(data, "text")
        case Err(e) => Err(e)
        case Ok(text) => Ok("<p>" + ToStrOpt(text) + "</p>")
      else if kind == Some(JStr("list")) then
        match Get(data, "style")
        case Err(e) => Err(e)
        case Ok(style) =>
          match Get(data, "items")
          case Err(e) => Err(e)
          case Ok(items) =>
            if items.None? || !items.value.JArr? then Err(TypeError)
            else if style == Some(JStr("ordered")) then Ok("<ol>" + ItemsHtml(items.value.items) + "</ol>")
            else Ok("<ul>" + ItemsHtml(items.value.items) + "</ul>")
      else if kind == Some(JStr("image")) then
        match Get(data, "file")
        case Err(e) => Err(e)
        case Ok(file) =>
          match Get(file, "url")
          case Err(e) => Err(e)
          case Ok(url) => Ok("<img src=\"" + ToStrOpt(url) + "\" />")
      else Ok("")
  }

  /** The fragments of the blocks, in order, joined with nothing between them;
      the first block that throws ends the map. */
  function RenderBlocks(decode: string -> string, blocks: seq<Json>): (r: Result<string>)
    ensures r.Ok? <==> forall i :: 0 <= i < |blocks| ==> BlockHtml(decode, blocks[i]).Ok?
    decreases |blocks|
  {
    if blocks == [] then Ok("")
    else if BlockHtml(decode, blocks[0]).Err? then Err(BlockHtml(decode, blocks[0]).error)
    else
      match RenderBlocks(decode, blocks[1..])
      case Err(e) => Err(e)
      case Ok(rest) => Ok(BlockHtml(decode, blocks[0]).value + rest)
  }

  /** `editorToHtml(data)`. */
  function EditorHtml(decode: string -> string, data: Option<Json>): (r: Result<string>)
    ensures !TruthyOpt(PropOpt(data, "blocks")) ==> r == Ok("")
  {
    var blocks := PropOpt(data, "blocks");
    if !TruthyOpt(blocks) then Ok("")
    else if !blocks.value.JArr? then Err(TypeError)
    else RenderBlocks(decode, blocks.value.items)
  }

  /** A document with an empty block list renders as the empty string. */
  lemma NoBlocksNoHtml(decode: string -> string, fs: seq<Member>)
    requires Lookup(fs, "blocks") == Some(JArr([]))
    ensures EditorHtml(decode, Some(JObj(fs))) == Ok("")
  {
  }

  /** Rendering a concatenation of block lists concatenates the HTML: one
      fragment per block, in block order. */
  lemma {:induction false} RenderConcat(decode: string -> string, a: seq<Json>, b: seq<Json>)
    requires RenderBlocks(decode, a + b).Ok?
    ensures RenderBlocks(decode, a).Ok? && RenderBlocks(decode, b).Ok?
    ensures RenderBlocks(decode, a + b).value == RenderBlocks(decode, a).value + RenderBlocks(decode, b).value
    decreases |a|
  {
    if a == [] {
      assert a + b == b;
    } else {
      assert (a + b)[0] == a[0];
      assert (a + b)[1..] == a[1..] + b;
      assert BlockHtml(decode, (a + b)[0]).Ok?;
      RenderConcat(decode, a[1..], b);
      var h, x, y := BlockHtml(decode, a[0]).value, RenderBlocks(decode, a[1..]).value, RenderBlocks(decode, b).value;
      assert h + (x + y) == (h + x) + y;
    }
  }

  /** A single block renders as its own fragment. */
  lemma RenderOne(decode: string -> string, block: Json)
    requires BlockHtml(decode, block).Ok?
    ensures RenderBlocks(decode, [block]) == BlockHtml(decode, block)
  {
    assert [block][1..] == [];
    assert BlockHtml(decode, block).value + "" == BlockHtml(decode, block).value;
  }

  lemma {:induction false} ItemsHtmlConcat(a: seq<Json>, b: seq<Json>)
    ensures ItemsHtml(a + b) == ItemsHtml(a) + ItemsHtml(b)
    decreases |a|
  {
    if a == [] {
      assert a + b == b;
    } else {
      assert (a + b)[0] == a[0];
      assert (a + b)[1..] == a[1..] + b;
      ItemsHtmlConcat(a[1..], b);
    }
  }

  function Block(kind: string, data: seq<Member>): Json {
    JObj([Member("type", JStr(kind)), Member("data", JObj(data))])
  }

  /** A paragraph's text goes into the HTML as it is, without decoding or escaping. */
  lemma ParagraphVerbatim(decode: string -> string, text: string)
    ensures BlockHtml(decode, Block("paragraph", [Member("text", JStr(text))])) == Ok("<p>" + text + "</p>")
  {
    var fs := [Member("text", JStr(text))];
    BlockFields("paragraph", fs);
    assert "paragraph" != "header" by { assert |"paragraph"| != |"header"|; }
    assert Lookup(fs, "text") == Some(JStr(text)) by { KeyIndexIsFirst(fs, "text", 0); }
    assert Get(Some(JObj(fs)), "text") == Ok(Some(JStr(text)));
  }

  /** The two members of a block built by `Block`. */
  lemma BlockFields(kind: string, data: seq<Member>)
    ensures Prop(Block(kind, data), "type") == Some(JStr(kind))
    ensures Prop(Block(kind, data), "data") == Some(JObj(data))
  {
    assert "type" != "data" by { assert "type"[0] != "data"[0]; }
    LookupOfTwo("type", JStr(kind), "data", JObj(data));
  }

  /** A header's text is decoded, and its closing tag names the same level as its opening tag. */
  lemma HeaderTags(decode: string -> string, level: int, text: string)
    ensures BlockHtml(decode, Block("header", [Member("level", JNum(level)), Member("text", JStr(text))]))
      == Ok(HeaderHtml(IntToString(level), decode(text)))
  {
    var fs := [Member("level", JNum(level)), Member("text", JStr(text))];
    var data := Some(JObj(fs));
    assert "level" != "text" by { assert |"level"| != |"text"|; }
    assert "type" != "data" by { assert "type"[0] != "data"[0]; }
    LookupOfTwo("level", JNum(level), "text", JStr(text));
    LookupOfTwo("type", JStr("header"), "data", JObj(fs));
    assert HtmlArgument(Some(JStr(text))) == text;
  }

  lemma LookupOfTwo(k1: string, v1: Json, k2: string, v2: Json)
    requires k1 != k2
    ensures Lookup([Member(k1, v1), Member(k2, v2)], k1) == Some(v1)
    ensures Lookup([Member(k1, v1), Member(k2, v2)], k2) == Some(v2)
  {
    var fs := [Member(k1, v1), Member(k2, v2)];
    KeyIndexIsFirst(fs, k2, 1);
  }

  /** An image becomes an `img` tag whose source is the file's URL. */
  lemma ImageTag(decode: string -> string, url: string)
    ensures BlockHtml(decode, Block("image", [Member("file", JObj([Member("url", JStr(url))]))]))
      == Ok("<img src=\"" + url + "\" />")
  {
    var file := JObj([Member("url", JStr(url))]);
    var fs := [Member("file", file)];
    BlockFields("image", fs);
    assert "image" != "header" && "image" != "paragraph" && "image" != "list" by {
      assert |"image"| != |"header"| && |"image"| != |"paragraph"| && |"image"| != |"list"|;
    }
    assert Lookup(fs, "file") == Some(file) by { KeyIndexIsFirst(fs, "file", 0); }
    assert Lookup(file.fields, "url") == Some(JStr(url)) by { KeyIndexIsFirst(file.fields, "url", 0); }
    assert Get(Some(JObj(fs)), "file") == Ok(Some(file));
    assert Get(Some(file), "url") == Ok(Some(JStr(url)));
  }

  /** Both list styles hold the same items in the same order; only an
      `ordered` style gives `ol`, every other style `ul`. */
  lemma ListStyles(decode: string -> string, style: Json, items: seq<Json>)
    ensures BlockHtml(decode, Block("list", [Member("style", style), Member("items", JArr(items))])) ==
      if style == JStr("ordered") then Ok("<ol>" + ItemsHtml(items) + "</ol>")
      else Ok("<ul>" + ItemsHtml(items) + "</ul>")
  {
    var fs := [Member("style", style), Member("items", JArr(items))];
    BlockFields("list", fs);
    assert "list" != "header" && "list" != "paragraph" by {
      assert |"list"| != |"header"| && |"list"| != |"paragraph"|;
    }
    assert "style" != "items" by { assert "style"[0] != "items"[0]; }
    LookupOfTwo("style", style, "items", JArr(items));
    assert Get(Some(JObj(fs)), "style") == Ok(Some(style));
    assert Get(Some(JObj(fs)), "items") == Ok(Some(JArr(items)));
  }

  /** A block of any other type, or with no type, renders as nothing. */
  lemma UnknownBlockIsEmpty(decode: string -> string, block: Json)
    requires block != JNull
    requires Prop(block, "type") !in {Some(JStr("header")), Some(JStr("paragraph")), Some(JStr("list")), Some(JStr("image"))}
    ensures BlockHtml(decode, block) == Ok("")
  {
  }
}
