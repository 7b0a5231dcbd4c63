/** The string operations the components use: ASCII case mapping,
    `startsWith` / `endsWith` / `includes`, `split` on one character,
    `join`, `trim`, and `replace` of a single character. */
module Text {

  predicate IsUpperAscii(c: char) {
    'A' <= c <= 'Z'
  }

  predicate IsLowerAscii(c: char) {
    'a' <= c <= 'z'
  }

  function LowerChar(c: char): (r: char)
    ensures !IsUpperAscii(r)
    ensures !IsUpperAscii(c) ==> r == c
  {
    if IsUpperAscii(c) then (c as int + 32) as char else c
  }

  function UpperChar(c: char): (r: char)
    ensures !IsLowerAscii(r)
    ensures !IsLowerAscii(c) ==> r == c
  {
    if IsLowerAscii(c) then (c as int - 32) as char else c
  }

  /** `s.toLowerCase()` over ASCII letters. */
  function Lower(s: string): (r: string)
    ensures |r| == |s|
    ensures forall i :: 0 <= i < |s| ==> r[i] == LowerChar(s[i])
  {
    seq(|s|, i requires 0 <= i < |s| => LowerChar(s[i]))
  }

  lemma LowerIdempotent(s: string)
    ensures Lower(Lower(s)) == Lower(s)
  {
  }

  predicate StartsWith(s: string, p: string) {
    |p| <= |s| && s[..|p|] == p
  }

  predicate EndsWith(s: string, p: string) {
    |p| <= |s| && s[|s| - |p|..] == p
  }

  /** `s.includes(t)`. */
  predicate Contains(s: string, t: string) {
    exists i :: 0 <= i <= |s| && StartsWith(s[i..], t)
  }

  lemma ContainsEmpty(s: string)
    ensures Contains(s, "")
  {
    assert StartsWith(s[0..], "");
  }

  // ---------------------------------------------------------------------
  // split / join on one separator character

  /** First position of `c` in `s`, or `|s|` when `c` does not occur. */
  function IndexOfChar(s: string, c: char): (i: nat)
    ensures i <= |s|
    ensures i < |s| ==> s[i] == c
    ensures forall j :: 0 <= j < i ==> s[j] != c
  {
    if s == [] then 0 else if s[0] == c then 0 else 1 + IndexOfChar(s[1..], c)
  }

  /** `s.split(c)` for a one-character separator: always at least one piece. */
  function Split(s: string, c: char): (r: seq<string>)
    ensures |r| >= 1
    ensures forall i :: 0 <= i < |r| ==> c !in r[i]
    ensures c !in s ==> r == [s]
    decreases |s|
  {
    var i := IndexOfChar(s, c);
    if i == |s| then [s] else [s[..i]] + Split(s[i + 1..], c)
  }

  /** `parts.join(sep)`. */
  function Join(parts: seq<string>, sep: string): string {
    if parts == [] then ""
    else if |parts| == 1 then parts[0]
    else parts[0] + sep + Join(parts[1..], sep)
  }

  lemma {:induction false} JoinSplit(s: string, c: char)
    ensures Join(Split(s, c), [c]) == s
    decreases |s|
  {
    var i := IndexOfChar(s, c);
    if i < |s| {
      var rest := s[i + 1..];
      JoinSplit(rest, c);
      var tail := Split(rest, c);
      assert Split(s, c) == [s[..i]] + tail;
      JoinCons(s[..i], tail, [c]);
      assert Join(Split(s, c), [c]) == s[..i] + [c] + rest;
      assert s[i] == c;
      SplitAround(s, i);
    } else {
      assert Split(s, c) == [s];
    }
  }

  lemma SplitAround(s: string, i: nat)
    requires i < |s|
    ensures s[..i] + [s[i]] + s[i + 1..] == s
  {
  }

  lemma JoinCons(p: string, tail: seq<string>, sep: string)
    requires |tail| >= 1
    ensures Join([p] + tail, sep) == p + sep + Join(tail, sep)
  {
    assert ([p] + tail)[1..] == tail;
  }

  lemma {:induction false} SplitJoin(parts: seq<string>, c: char)
    requires |parts| >= 1
    requires forall i :: 0 <= i < |parts| ==> c !in parts[i]
    ensures Split(Join(parts, [c]), c) == parts
    decreases |parts|
  {
    if |parts| > 1 {
      var s := Join(parts, [c]);
      var rest := Join(parts[1..], [c]);
      assert s == parts[0] + [c] + rest;
      IndexOfCharPrefix(parts[0], rest, c);
      assert s[..|parts[0]|] == parts[0];
      assert s[|parts[0]| + 1..] == rest;
      SplitJoin(parts[1..], c);
    }
  }

  lemma {:induction false} IndexOfCharIsFirst(s: string, c: char, i: nat)
    requires i <= |s|
    requires i < |s| ==> s[i] == c
    requires forall j :: 0 <= j < i ==> s[j] != c
    ensures IndexOfChar(s, c) == i
  {
    if s != [] && s[0] != c {
      IndexOfCharIsFirst(s[1..], c, i - 1);
    }
  }

  lemma IndexOfCharPrefix(a: string, b: string, c: char)
    requires c !in a
    ensures IndexOfChar(a + [c] + b, c) == |a|
  {
    var s := a + [c] + b;
    assert forall j :: 0 <= j < |a| ==> s[j] == a[j];
    IndexOfCharIsFirst(s, c, |a|);
  }

  /** The first piece of a split is the text before the first separator. */
  lemma SplitFirst(s: string, c: char)
    ensures Split(s, c)[0] == s[..IndexOfChar(s, c)]
  {
  }

  /** The second piece of a split is the text between the first and second separators. */
  lemma SplitSecond(s: string, c: char)
    requires IndexOfChar(s, c) < |s|
    ensures |Split(s, c)| >= 2
    ensures Split(s, c)[1] == s[IndexOfChar(s, c) + 1..][..IndexOfChar(s[IndexOfChar(s, c) + 1..], c)]
  {
  }

  // ---------------------------------------------------------------------
  // trim

  /** The characters `String.prototype.trim` strips: white space (including
      every space separator of Unicode category Zs and the byte-order mark)
      and line terminators. */
  predicate IsJsSpace(c: char) {
    c == '\t' || c == '\n' || c == '\U{000B}' || c == '\U{000C}' || c == '\r' || c == ' '
    || c == '\U{00A0}' || c == '\U{1680}' || ('\U{2000}' <= c <= '\U{200A}')
    || c == '\U{2028}' || c == '\U{2029}' || c == '\U{202F}' || c == '\U{205F}'
    || c == '\U{3000}' || c == '\U{FEFF}'
  }

  function TrimStart(s: string): (r: string)
    ensures |r| <= |s| && s[|s| - |r|..] == r
    ensures r != [] ==> !IsJsSpace(r[0])
    ensures forall i {:trigger IsJsSpace(s[i])} :: 0 <= i < |s| - |r| ==> IsJsSpace(s[i])
  {
    if s != [] && IsJsSpace(s[0]) then TrimStart(s[1..]) else s
  }

  function TrimEnd(s: string): (r: string)
    ensures |r| <= |s| && s[..|r|] == r
    ensures r != [] ==> !IsJsSpace(r[|r| - 1])
    ensures forall i {:trigger IsJsSpace(s[i])} :: |r| <= i < |s| ==> IsJsSpace(s[i])
  {
    if s != [] && IsJsSpace(s[|s| - 1]) then TrimEnd(s[..|s| - 1]) else s
  }

  /** `s.trim()`: the infix of `s` left after dropping white space at both ends. */
  function Trim(s: string): (r: string)
    ensures r != [] ==> !IsJsSpace(r[0]) && !IsJsSpace(r[|r| - 1])
    ensures TrimmedAt(s, r, |s| - |TrimStart(s)|)
  {
    TrimEndsAt(s, TrimStart(s), TrimEnd(TrimStart(s)));
    TrimEnd(TrimStart(s))
  }

  lemma TrimEndsAt(s: string, a: string, r: string)
    requires a == TrimStart(s) && r == TrimEnd(a)
    ensures r != [] ==> !IsJsSpace(r[0]) && !IsJsSpace(r[|r| - 1])
    ensures TrimmedAt(s, r, |s| - |a|)
  {
    assert r != [] ==> r[0] == a[0];
    TrimmedOfParts(s, a, r, |s| - |a|);
  }

  /** A suffix `a` of `s` after white space, cut back to `r` before white
      space, leaves `r` trimmed out of `s`. */
  lemma TrimmedOfParts(s: string, a: string, r: string, i: nat)
    requires i <= |s| && i == |s| - |a| && s[i..] == a && |r| <= |a| && a[..|r|] == r
    requires forall j :: 0 <= j < i ==> IsJsSpace(s[j])
    requires forall j :: |r| <= j < |a| ==> IsJsSpace(a[j])
    ensures TrimmedAt(s, r, i)
  {
    SliceOfSuffix(s, i, a, |r|);
    forall j | i + |r| <= j < |s| ensures IsJsSpace(s[j]) {
      assert s[j] == a[j - i];
    }
  }

  lemma SliceOfSuffix<T>(s: seq<T>, i: nat, a: seq<T>, n: nat)
    requires i <= |s| && s[i..] == a && n <= |a|
    ensures s[i..i + n] == a[..n]
  {
  }

  /** `r` is `s[i..i + |r|]` and everything of `s` around it is white space. */
  predicate TrimmedAt(s: string, r: string, i: int) {
    0 <= i <= |s| - |r| && s[i..i + |r|] == r
    && (forall j {:trigger IsJsSpace(s[j])} :: 0 <= j < i ==> IsJsSpace(s[j]))
    && (forall j {:trigger IsJsSpace(s[j])} :: i + |r| <= j < |s| ==> IsJsSpace(s[j]))
  }

  // ---------------------------------------------------------------------
  // replace

  /** `s.replace(/x/g, y)` for one character. */
  function ReplaceAllChar(s: string, x: char, y: char): (r: string)
    ensures |r| == |s|
    ensures forall i :: 0 <= i < |s| ==> r[i] == if s[i] == x then y else s[i]
  {
    seq(|s|, i requires 0 <= i < |s| => if s[i] == x then y else s[i])
  }

  /** `s.replace(x, y)` with a string pattern `x` of one character: only the
      first occurrence is replaced. */
  function ReplaceFirst(s: string, x: char, y: string): (r: string)
    ensures x !in s ==> r == s
    ensures x in s ==> r == s[..IndexOfChar(s, x)] + y + s[IndexOfChar(s, x) + 1..]
  {
    var i := IndexOfChar(s, x);
    if i == |s| then s else s[..i] + y + s[i + 1..]
  }
}
