/**
  The JSON of RFC 8259 is among what the scanner takes, so on every such text a path
  finds the printed extent of what a lookup finds.
*/
module JsonStandard {
  import opened Options
  import opened JsonScan
  import opened JsonTree
  import opened JsonParse
  import opened JsonFind
  import opened JsonEdit

  /** Section 6: an optional minus, a whole part without leading zeros, a fraction and an exponent. */
  datatype NumberParts = NumberParts(minus: bool, whole: string, fraction: string, exponentSign: string, exponent: string)

  predicate AllDigits(s: string) {
    forall k | 0 <= k < |s| :: IsDigit(s[k])
  }

  predicate AreNumberParts(n: NumberParts) {
    && n.whole != "" && AllDigits(n.whole) && (n.whole[0] == '0' ==> |n.whole| == 1)
    && AllDigits(n.fraction) && AllDigits(n.exponent)
    && (if n.exponent == "" then n.exponentSign == "" else n.exponentSign in ["e", "E", "e+", "E+", "e-", "E-"])
  }

  function NumberText(n: NumberParts): string {
    (if n.minus then "-" else "") + n.whole + (if n.fraction == "" then "" else "." + n.fraction) + n.exponentSign + n.exponent
  }

  /** Sections 3 and 6: the three literal names, and numbers. */
  ghost predicate IsStandardScalar(s: string) {
    s in ["true", "false", "null"] || exists n: NumberParts :: AreNumberParts(n) && NumberText(n) == s
  }

  predicate IsHex(c: char) {
    IsDigit(c) || 'a' <= c <= 'f' || 'A' <= c <= 'F'
  }

  /** Section 7: no control characters, and only the escapes it names. */
  predicate IsStandardBody(s: string) {
    if s == "" then true
    else if s[0] == '\\' then
      |s| >= 2 &&
      (if s[1] == 'u' then |s| >= 6 && IsHex(s[2]) && IsHex(s[3]) && IsHex(s[4]) && IsHex(s[5]) && IsStandardBody(s[6..])
       else s[1] in "\"\\/bfnrt" && IsStandardBody(s[2..]))
    else s[0] != '"' && s[0] >= ' ' && IsStandardBody(s[1..])
  }

  ghost predicate IsStandard(n: Node) {
    match n
    case Scalar(chars) => IsStandardScalar(chars)
    case Quoted(body) => IsStandardBody(body)
    case Group(isObject, blank, items) => AllSpace(blank) && (items.More? ==> blank == "") && AreStandard(items, isObject)
  }

  ghost predicate AreStandard(items: Items, isObject: bool) {
    match items
    case Nil => true
    case More(lead, value, after, rest) =>
      match lead
      case Bare(before) => !isObject && AllSpace(before) && IsStandard(value) && AllSpace(after) && AreStandard(rest, isObject)
      case Keyed(space, key, gap, before) =>
        isObject && AllSpace(space) && IsStandardBody(key) && AllSpace(gap) && AllSpace(before)
        && IsStandard(value) && AllSpace(after) && AreStandard(rest, isObject)
  }

  lemma NumberIsScalar(n: NumberParts)
    requires AreNumberParts(n)
    ensures NumberText(n) != "" && forall k | 0 <= k < |NumberText(n)| :: JsonScan.IsScalar(NumberText(n)[k])
  {
    assert forall k | 0 <= k < |n.exponentSign| :: n.exponentSign[k] in "eE+-";
  }

  lemma {:induction false} BodyIsBody(s: string)
    requires IsStandardBody(s)
    ensures IsBody(s)
  {
    if s != "" {
      if s[0] != '\\' {
        BodyIsBody(s[1..]);
      } else if s[1] != 'u' {
        BodyIsBody(s[2..]);
      } else {
        BodyIsBody(s[6..]);
        assert s[2..][1..] == s[3..] && s[3..][1..] == s[4..] && s[4..][1..] == s[5..] && s[5..][1..] == s[6..];
        assert IsBody(s[5..]) && IsBody(s[4..]) && IsBody(s[3..]);
      }
    }
  }

  lemma {:induction false} StandardIsNode(n: Node)
    requires IsStandard(n)
    ensures IsNode(n)
  {
    match n
    case Scalar(chars) =>
      if chars !in ["true", "false", "null"] {
        var parts :| AreNumberParts(parts) && NumberText(parts) == chars;
        NumberIsScalar(parts);
      }
    case Quoted(body) => BodyIsBody(body);
    case Group(isObject, _, items) => StandardItems(items, isObject);
  }

  lemma {:induction false} StandardItems(items: Items, isObject: bool)
    requires AreStandard(items, isObject)
    ensures IsItems(items, isObject)
  {
    if items.More? {
      StandardIsNode(items.value);
      StandardItems(items.rest, isObject);
      if items.lead.Keyed? {
        BodyIsBody(items.lead.key);
      }
    }
  }

  /** A JSON text is a document, and a path's span is the printed extent of the node a lookup finds, or nothing. */
  lemma StandardSpans(before: string, n: Node, after: string, path: Path)
    requires AllSpace(before) && IsStandard(n) && AllSpace(after)
    ensures var t := before + Print(n) + after;
            && IsDocument(t)
            && ValueSpan(t, path) == Extent(n, path, |before|)
            && (ValueSpan(t, path).None? <==> Lookup(n, path).None?)
  {
    hide Print, IsNode, Offset;
    StandardIsNode(n);
    PrintedIsDocument(before, n, after);
    SpanIsExtent(before, n, after, path);
  }
}
