/**
  What the cursor scanner of `src/game/json_edit.cpp` computes, as functions of the
  text and the cursor. A text is a string of one-byte characters; the cursor may lie
  past the end, where a dangling backslash leaves it.
*/
module JsonScan {
  import opened Options

  datatype Span = Span(begin: nat, end: nat)

  /** Whether a scan succeeded, and where it left the cursor. */
  datatype Scan = Scan(ok: bool, at: nat)

  type Path = seq<string>

  const MAX_INDEX_DIGITS := 9

  predicate IsSpace(c: char) {
    c == ' ' || c == '\t' || c == '\r' || c == '\n'
  }

  predicate IsDigit(c: char) {
    '0' <= c <= '9'
  }

  /** One of the characters that make up scalars, in whatever order. */
  predicate IsScalar(c: char) {
    || IsDigit(c) || c == '+' || c == '-' || c == '.' || c == 'e' || c == 'E'
    || c == 't' || c == 'r' || c == 'u' || c == 'f' || c == 'a' || c == 'l' || c == 's' || c == 'n'
  }

  function Peek(t: string, i: nat): char {
    if i < |t| then t[i] else '\0'
  }

  function SkipSpace(t: string, i: nat): (j: nat)
    ensures i <= j && (i <= |t| ==> j <= |t|)
    ensures !IsSpace(Peek(t, j))
    decreases |t| - i
  {
    if i < |t| && IsSpace(t[i]) then SkipSpace(t, i + 1) else i
  }

  function SkipScalar(t: string, i: nat): (j: nat)
    ensures i <= j && (i <= |t| ==> j <= |t|)
    ensures !IsScalar(Peek(t, j))
    decreases |t| - i
  {
    if i < |t| && IsScalar(t[i]) then SkipScalar(t, i + 1) else i
  }

  /** From inside a string to past its closing quote. */
  function SkipBody(t: string, i: nat): (r: Scan)
    ensures r.ok ==> i < r.at <= |t|
    decreases |t| - i
  {
    if i >= |t| then Scan(false, i)
    else if t[i] == '\\' then SkipBody(t, i + 2)
    else if t[i] == '"' then Scan(true, i + 1)
    else SkipBody(t, i + 1)
  }

  /** Past a key, which must start with a quote. */
  function SkipKey(t: string, i: nat): (r: Scan)
    ensures r.ok ==> i < r.at <= |t|
  {
    var j := SkipSpace(t, i);
    if Peek(t, j) != '"' then Scan(false, j) else SkipBody(t, j + 1)
  }

  /** A key's raw text, escapes and all, its quotes left off. */
  function KeyText(t: string, i: nat): string
    requires SkipKey(t, i).ok
  {
    t[SkipSpace(t, i) + 1..SkipKey(t, i).at - 1]
  }

  function Expect(t: string, i: nat, c: char): (r: Scan)
    ensures r.ok && c != '\0' ==> i < r.at <= |t|
  {
    var j := SkipSpace(t, i);
    if Peek(t, j) != c then Scan(false, j) else Scan(true, j + 1)
  }

  /** Past what comes before an item's value: in an object its key and colon, in an array nothing. */
  function SkipLead(t: string, i: nat, isObject: bool): (r: Scan)
    ensures r.ok ==> i <= r.at && (i <= |t| ==> r.at <= |t|)
  {
    if !isObject then Scan(true, i)
    else
      var key := SkipKey(t, i);
      if !key.ok then key else Expect(t, key.at, ':')
  }

  function SkipValue(t: string, i: nat): (r: Scan)
    ensures r.ok ==> i < r.at <= |t|
    decreases |t| - i, 1
  {
    var j := SkipSpace(t, i);
    var c := Peek(t, j);
    if c == '{' || c == '[' then SkipContainer(t, j + 1, if c == '{' then '}' else ']', c == '{')
    else if c == '"' then SkipBody(t, j + 1)
    else
      var k := SkipScalar(t, j);
      Scan(k > j, k)
  }

  /** From past the opening bracket. */
  function SkipContainer(t: string, i: nat, close: char, isObject: bool): (r: Scan)
    requires close != '\0'
    ensures r.ok ==> i < r.at <= |t|
    decreases |t| - i, 3
  {
    var j := SkipSpace(t, i);
    if Peek(t, j) == close then Scan(true, j + 1) else SkipItems(t, j, close, isObject)
  }

  /** From where an item starts to past the container's `close`. */
  function SkipItems(t: string, i: nat, close: char, isObject: bool): (r: Scan)
    requires close != '\0'
    ensures r.ok ==> i < r.at <= |t|
    decreases |t| - i, 2
  {
    var lead := SkipLead(t, i, isObject);
    if !lead.ok then lead
    else
      var value := SkipValue(t, lead.at);
      if !value.ok then value
      else
        var j := SkipSpace(t, value.at);
        if Peek(t, j) == ',' then SkipItems(t, j + 1, close, isObject)
        else if Peek(t, j) == close then Scan(true, j + 1)
        else Scan(false, j)
  }

  /** Whether a path segment may index an array: one to nine decimal digits. */
  predicate IsIndex(segment: string) {
    0 < |segment| <= MAX_INDEX_DIGITS && forall k | 0 <= k < |segment| :: IsDigit(segment[k])
  }

  /** A digit string's number. */
  function Index(segment: string): nat
    requires forall k | 0 <= k < |segment| :: IsDigit(segment[k])
  {
    if segment == "" then 0
    else
      var last := segment[|segment| - 1];
      assert IsDigit(last);
      10 * Index(segment[..|segment| - 1]) + (last as int - '0' as int)
  }

  /** Where the search for `path`, begun at cursor `i`, ends: on a value, or nowhere. */
  function Find(t: string, i: nat, path: Path): (found: Option<Span>)
    decreases |path|, 1, 0
  {
    var j := SkipSpace(t, i);
    if path == [] then
      var value := SkipValue(t, j);
      if value.ok then Some(Span(j, value.at)) else None
    else if Peek(t, j) == '{' then
      var k := SkipSpace(t, j + 1);
      if Peek(t, k) == '}' then None else FindMember(t, k, path)
    else if Peek(t, j) == '[' then
      if !IsIndex(path[0]) then None
      else
        var k := SkipSpace(t, j + 1);
        if Peek(t, k) == ']' then None else FindElement(t, k, Index(path[0]), path)
    else None
  }

  function FindMember(t: string, i: nat, path: Path): (found: Option<Span>)
    requires path != []
    decreases |path|, 0, |t| - i
  {
    var key := SkipKey(t, i);
    if !key.ok then None
    else
      var colon := Expect(t, key.at, ':');
      if !colon.ok then None
      else if KeyText(t, i) == path[0] then Find(t, colon.at, path[1..])
      else
        var value := SkipValue(t, colon.at);
        if !value.ok then None
        else
          var j := SkipSpace(t, value.at);
          if Peek(t, j) == ',' then FindMember(t, j + 1, path) else None
  }

  /** `left` more elements on from the one at `i`. */
  function FindElement(t: string, i: nat, left: nat, path: Path): (found: Option<Span>)
    requires path != []
    decreases |path|, 0, left
  {
    if left == 0 then Find(t, i, path[1..])
    else
      var value := SkipValue(t, i);
      if !value.ok then None
      else
        var j := SkipSpace(t, value.at);
        if Peek(t, j) == ',' then FindElement(t, j + 1, left - 1, path) else None
  }

  /** The whole text is one value, white space around it. */
  predicate IsDocument(t: string) {
    SkipValue(t, 0).ok && SkipSpace(t, SkipValue(t, 0).at) == |t|
  }

  function ValueSpan(t: string, path: Path): Option<Span> {
    if IsDocument(t) then Find(t, 0, path) else None
  }
}
