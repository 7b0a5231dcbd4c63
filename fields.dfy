/** Field names the tree editor treats specially, the image-field test
    and the key formatter that turns a field name into a section title or
    table header. */
module Fields {
  import opened Js
  import opened Text

  /** Keys never rendered as sections nor as table columns. */
  const NoBlockFields: seq<string> := ["_id", "id", "__v", "heroDownloaded", "url"]

  /** Keys whose sections and cells get no "+ TEXT / + TABLE / + LIST" buttons. */
  const ExcludedFields: seq<string> := [
    "name", "fees", "rating", "reviews", "courseCount",
    "duration", "eligibility", "applicationDate", "course_count",
    "application_date", "title", "location", "rating_count", "mode", "exam_type", "date",
    "blog_count", "enquiry_count", "event_count", "application_dates"
  ]

  /** A field edited with the image gallery: an array under a key whose
      lower-cased form contains "image", or the key `heroImages`. */
  predicate IsImageField(key: string, val: Json)
    ensures IsImageField(key, val) <==> val.JArr? && Contains(Lower(key), "image")
  {
    HeroImagesContainsImage();
    val.JArr? && (Contains(Lower(key), "image") || key == "heroImages")
  }

  /** The block buttons are shown for fields that are neither images nor in
      one of the two name sets. */
  predicate ShowsControls(key: string, val: Json) {
    !IsImageField(key, val) && key !in NoBlockFields && key !in ExcludedFields
  }

  /** The `key === "heroImages"` test adds nothing: that key already
      contains "image" once lower-cased. */
  lemma HeroImagesContainsImage()
    ensures Contains(Lower("heroImages"), "image")
  {
    var low := Lower("heroImages");
    assert low == "heroimages";
    assert StartsWith(low[4..], "image");
  }

  // ---------------------------------------------------------------------
  // formatKey

  /** `key.replace(/([A-Z])/g, " $1")`. */
  function SpaceBeforeCapitals(s: string): (r: string)
    ensures |r| >= |s|
  {
    if s == [] then []
    else (if IsUpperAscii(s[0]) then [' ', s[0]] else [s[0]]) + SpaceBeforeCapitals(s[1..])
  }

  /** `s.replace(/^./, str => str.toUpperCase())`. The pattern does not
      match a line terminator, but upper-casing leaves those unchanged
      anyway, so the first character is always upper-cased. */
  function UpperFirst(s: string): (r: string)
    ensures |r| == |s|
  {
    if s == [] then [] else [UpperChar(s[0])] + s[1..]
  }

  /** `formatKey`: a space before every capital, the first character
      upper-cased, then every underscore turned into a space, in that order. */
  function FormatKey(key: string): (r: string)
    ensures |r| >= |key| && '_' !in r
  {
    ReplaceAllChar(UpperFirst(SpaceBeforeCapitals(key)), '_', ' ')
  }

  /** What one character of the key becomes, after the first: a capital
      gets a space in front, an underscore becomes a space. */
  function FormatChar(c: char): string {
    if IsUpperAscii(c) then [' ', c] else if c == '_' then [' '] else [c]
  }

  /** A single-pass reference for `formatKey`: the first character is
      upper-cased when it is a lower-case letter, every character is then
      formatted on its own. */
  function FormatKeyByChars(key: string): string {
    if key == [] then []
    else if IsLowerAscii(key[0]) then [UpperChar(key[0])] + FormatRest(key[1..])
    else FormatChar(key[0]) + FormatRest(key[1..])
  }

  function FormatRest(s: string): string {
    if s == [] then [] else FormatChar(s[0]) + FormatRest(s[1..])
  }

  lemma ReplaceAllCharConcat(a: string, b: string, x: char, y: char)
    ensures ReplaceAllChar(a + b, x, y) == ReplaceAllChar(a, x, y) + ReplaceAllChar(b, x, y)
  {
    assert |ReplaceAllChar(a + b, x, y)| == |ReplaceAllChar(a, x, y) + ReplaceAllChar(b, x, y)|;
    forall i | 0 <= i < |a + b|
      ensures ReplaceAllChar(a + b, x, y)[i] == (ReplaceAllChar(a, x, y) + ReplaceAllChar(b, x, y))[i]
    {
      if i < |a| {
        assert (a + b)[i] == a[i];
      } else {
        assert (a + b)[i] == b[i - |a|];
      }
    }
  }

  lemma {:induction false} FormatRestIsPasses(s: string)
    ensures ReplaceAllChar(SpaceBeforeCapitals(s), '_', ' ') == FormatRest(s)
  {
    if s != [] {
      var head := if IsUpperAscii(s[0]) then [' ', s[0]] else [s[0]];
      assert SpaceBeforeCapitals(s) == head + SpaceBeforeCapitals(s[1..]);
      ReplaceAllCharConcat(head, SpaceBeforeCapitals(s[1..]), '_', ' ');
      FormatRestIsPasses(s[1..]);
      assert ReplaceAllChar(head, '_', ' ') == FormatChar(s[0]);
    }
  }

  /** The three passes of `formatKey` compose to the single pass. */
  lemma FormatKeyIsByChars(key: string)
    ensures FormatKey(key) == FormatKeyByChars(key)
  {
    if key != [] {
      var c := key[0];
      var rest := SpaceBeforeCapitals(key[1..]);
      FormatRestIsPasses(key[1..]);
      if IsUpperAscii(c) {
        assert UpperFirst(SpaceBeforeCapitals(key)) == [' ', c] + rest;
        ReplaceAllCharConcat([' ', c], rest, '_', ' ');
      } else {
        assert UpperFirst(SpaceBeforeCapitals(key)) == [UpperChar(c)] + rest;
        ReplaceAllCharConcat([UpperChar(c)], rest, '_', ' ');
      }
    }
  }

  /** No underscore survives, and the title is one character longer per capital. */
  lemma {:induction false} FormatRestShape(s: string)
    ensures '_' !in FormatRest(s)
    ensures |FormatRest(s)| == |s| + CountCapitals(s)
  {
    if s != [] {
      FormatRestShape(s[1..]);
    }
  }

  function CountCapitals(s: string): nat {
    if s == [] then 0 else (if IsUpperAscii(s[0]) then 1 else 0) + CountCapitals(s[1..])
  }

  lemma FormatKeyShape(key: string)
    ensures '_' !in FormatKey(key)
    ensures |FormatKey(key)| == |key| + CountCapitals(key)
    ensures key != [] && IsLowerAscii(key[0]) ==> FormatKey(key)[0] == UpperChar(key[0])
  {
    FormatKeyIsByChars(key);
    if key != [] {
      FormatRestShape(key[1..]);
    }
  }

  lemma {:induction false} FormatRestConcat(a: string, b: string)
    ensures FormatRest(a + b) == FormatRest(a) + FormatRest(b)
  {
    if a != [] {
      assert (a + b)[0] == a[0];
      assert (a + b)[1..] == a[1..] + b;
      FormatRestConcat(a[1..], b);
    } else {
      assert a + b == b;
    }
  }

  /** Text without capitals or underscores passes through unchanged. */
  lemma {:induction false} FormatRestPlain(s: string)
    requires forall i :: 0 <= i < |s| ==> !IsUpperAscii(s[i]) && s[i] != '_'
    ensures FormatRest(s) == s
  {
    if s != [] {
      FormatRestPlain(s[1..]);
    }
  }

  predicate AllLower(s: string) {
    forall i :: 0 <= i < |s| ==> IsLowerAscii(s[i])
  }

  /** A camel-case key of two lower-case words becomes two words, the first
      capitalised: `courseCount` gives "Course Count". */
  lemma FormatKeyCamelCase(first: string, cap: char, rest: string)
    requires first != [] && AllLower(first) && IsUpperAscii(cap) && AllLower(rest)
    ensures FormatKey(first + [cap] + rest) == [UpperChar(first[0])] + first[1..] + [' ', cap] + rest
  {
    var key := first + [cap] + rest;
    FormatKeyIsByChars(key);
    assert key[0] == first[0];
    assert key[1..] == first[1..] + [cap] + rest;
    FormatRestConcat(first[1..] + [cap], rest);
    FormatRestConcat(first[1..], [cap]);
    FormatRestPlain(first[1..]);
    FormatRestPlain(rest);
    assert FormatRest([cap]) == [' ', cap];
  }

  /** A snake-case key of two lower-case words becomes two words, the first
      capitalised: `application_date` gives "Application date". */
  lemma FormatKeySnakeCase(first: string, rest: string)
    requires first != [] && AllLower(first) && AllLower(rest)
    ensures FormatKey(first + "_" + rest) == [UpperChar(first[0])] + first[1..] + " " + rest
  {
    var key := first + "_" + rest;
    FormatKeyIsByChars(key);
    assert key[0] == first[0];
    assert key[1..] == first[1..] + "_" + rest;
    FormatRestConcat(first[1..] + "_", rest);
    FormatRestConcat(first[1..], "_");
    FormatRestPlain(first[1..]);
    FormatRestPlain(rest);
    assert FormatRest("_") == " ";
  }
}
