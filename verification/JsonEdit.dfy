/**
  Splicing a value into JSON text, and what that does to every path.
  The laws hold for every text, path and replacement; no tree appears in the editor itself.
*/
module JsonEdit {
  import opened Options
  import opened JsonScan
  import opened JsonTree
  import opened JsonRefinement
  import opened JsonFind
  import opened JsonParse

  /** `s` with `v` written over `[begin, end)`. */
  function Splice(s: string, begin: nat, end: nat, v: string): string
    requires begin <= end <= |s|
  {
    s[..begin] + v + s[end..]
  }

  /** The text of the value at `path`. */
  function Get(t: string, path: Path): Option<string> {
    match ValueSpan(t, path)
    case None => None
    case Some(span) => if span.begin <= span.end <= |t| then Some(t[span.begin..span.end]) else None
  }

  function Replace(t: string, path: Path, v: string): Option<string> {
    match ValueSpan(t, path)
    case None => None
    case Some(span) => if span.begin <= span.end <= |t| then Some(Splice(t, span.begin, span.end, v)) else None
  }

  /** Exactly one value, no white space around it. */
  predicate IsValueText(v: string) {
    SkipSpace(v, 0) == 0 && SkipValue(v, 0) == Scan(true, |v|)
  }

  // ---- Writing a tree's update is splicing its print ----

  /** Splicing inside a piece of the text splices the text. */
  lemma SpliceInside(s: string, at: nat, piece: string, begin: nat, end: nat, v: string)
    requires begin <= end <= |piece| && at + |piece| <= |s| && s[at..at + |piece|] == piece
    ensures Splice(s, at, at + |piece|, Splice(piece, begin, end, v)) == Splice(s, at + begin, at + end, v)
    ensures s[at + begin..at + end] == piece[begin..end]
  {
    SubSlice(s, at, at + |piece|, begin, end);
    assert s[..at] + piece[..begin] == s[..at + begin];
    assert piece[end..] + s[at + |piece|..] == s[at + end..];
  }

  lemma SpliceBetween(a: string, b: string, c: string, v: string)
    ensures Splice(a + b + c, |a|, |a| + |b|, v) == a + v + c && (a + b + c)[|a|..|a| + |b|] == b
  {
    assert (a + b + c)[..|a|] == a && (a + b + c)[|a| + |b|..] == c;
  }

  lemma SpliceAfter(front: string, s: string, begin: nat, end: nat, v: string)
    requires begin <= end <= |s|
    ensures Splice(front + s, |front| + begin, |front| + end, v) == front + Splice(s, begin, end, v)
    ensures (front + s)[|front| + begin..|front| + end] == s[begin..end]
  {
    assert (front + s)[..|front| + begin] == front + s[..begin];
    assert (front + s)[|front| + end..] == s[end..];
  }

  /** What is printed after an item's value. */
  function AfterValue(after: string, rest: Items): string {
    after + if rest.Nil? then "" else "," + PrintItems(rest)
  }

  /** What is printed up to the next item. */
  function UpToNext(lead: Lead, value: Node, after: string): string {
    PrintLead(lead) + Print(value) + after + ","
  }

  lemma PrintItem(items: Items)
    requires items.More?
    ensures PrintItems(items) == PrintLead(items.lead) + Print(items.value) + AfterValue(items.after, items.rest)
  {}

  lemma PrintNext(items: Items)
    requires items.More?
    ensures items.rest.More? ==> PrintItems(items) == UpToNext(items.lead, items.value, items.after) + PrintItems(items.rest)
    ensures |UpToNext(items.lead, items.value, items.after)| == |PrintLead(items.lead)| + |Print(items.value)| + |items.after| + 1
  {}

  lemma {:induction false} PrintSetNth(items: Items, k: nat, v: Node)
    requires k < Length(items)
    ensures var o, s, m := ItemOffset(items, k), PrintItems(items), Print(Nth(items, k));
            && o + |m| <= |s| && s[o..o + |m|] == m
            && PrintItems(SetNth(items, k, v)) == Splice(s, o, o + |m|, Print(v))
  {
    hide Print, PrintItems, PrintLead, AfterValue, UpToNext, Splice;
    var updated := SetNth(items, k, v);
    if k == 0 {
      PrintItem(items);
      PrintItem(updated);
      SpliceBetween(PrintLead(items.lead), Print(items.value), AfterValue(items.after, items.rest), Print(v));
    } else {
      PrintSetNth(items.rest, k - 1, v);
      PrintNext(items);
      PrintNext(updated);
      var o, m := ItemOffset(items.rest, k - 1), Print(Nth(items.rest, k - 1));
      SpliceAfter(UpToNext(items.lead, items.value, items.after), PrintItems(items.rest), o, o + |m|, Print(v));
    }
  }

  lemma PrintGroup(n: Node, items: Items)
    requires n.Group?
    ensures Print(n.(items := items)) == [Open(n.isObject)] + n.blank + PrintItems(items) + [Close(n.isObject)]
  {}

  /** The update of a container is the splice of its item's print. */
  lemma PrintSet(n: Node, k: nat, v: Node)
    requires n.Group? && k < Length(n.items)
    ensures var o, s, m := 1 + |n.blank| + ItemOffset(n.items, k), Print(n), Print(Nth(n.items, k));
            && o + |m| <= |s| && s[o..o + |m|] == m
            && Print(n.(items := SetNth(n.items, k, v))) == Splice(s, o, o + |m|, Print(v))
  {
    hide Print, PrintItems, ItemOffset;
    PrintSetNth(n.items, k, v);
    PrintGroup(n, n.items);
    PrintGroup(n, SetNth(n.items, k, v));
    assert n.(items := n.items) == n;
  }

  lemma SpliceAll(s: string, v: string)
    ensures Splice(s, 0, |s|, v) == v && s[0..|s|] == s
  {}

  lemma {:induction false} PrintUpdate(n: Node, path: Path, v: Node)
    requires Lookup(n, path).Some?
    ensures var o, s, m := Offset(n, path), Print(n), Print(Lookup(n, path).value);
            && o + |m| <= |s| && s[o..o + |m|] == m
            && Print(Update(n, path, v)) == Splice(s, o, o + |m|, Print(v))
    decreases |path|
  {
    hide Print, PrintItems, ItemOffset, Splice;
    if path == [] {
      SpliceAll(Print(n), Print(v));
    } else {
      var k := Pick(n, path[0]).value;
      var child := Nth(n.items, k);
      PrintUpdate(child, path[1..], v);
      PrintSet(n, k, Update(child, path[1..], v));
      var o, m := Offset(child, path[1..]), Print(Lookup(child, path[1..]).value);
      SpliceInside(Print(n), 1 + |n.blank| + ItemOffset(n.items, k), Print(child), o, o + |m|, Print(v));
    }
  }

  lemma {:induction false} OffsetOfSetNth(items: Items, k: nat, v: Node)
    requires k < Length(items)
    ensures ItemOffset(SetNth(items, k, v), k) == ItemOffset(items, k)
  {
    hide Print, PrintItems, PrintLead;
    if k > 0 {
      OffsetOfSetNth(items.rest, k - 1, v);
    }
  }

  lemma {:induction false} OffsetOfUpdate(n: Node, path: Path, v: Node)
    requires Lookup(n, path).Some?
    ensures Lookup(Update(n, path, v), path) == Some(v) && Offset(Update(n, path, v), path) == Offset(n, path)
    decreases |path|
  {
    hide Print, PrintItems;
    LensLaws(n, path, v, v);
    if path != [] {
      var k := Pick(n, path[0]).value;
      var v' := Update(Nth(n.items, k), path[1..], v);
      PickOfSet(n, k, v', path[0]);
      NthOfSetNth(n.items, k, v', k);
      OffsetOfSetNth(n.items, k, v');
      OffsetOfUpdate(Nth(n.items, k), path[1..], v);
    }
  }

  // ---- Only well-formed trees come out ----

  lemma {:induction false} NthIsNode(items: Items, k: nat, isObject: bool)
    requires IsItems(items, isObject) && k < Length(items)
    ensures IsNode(Nth(items, k))
    ensures forall v | IsNode(v) :: IsItems(SetNth(items, k, v), isObject)
  {
    if k > 0 {
      NthIsNode(items.rest, k - 1, isObject);
    }
  }

  lemma {:induction false} UpdateIsNode(n: Node, path: Path, v: Node)
    requires IsNode(n) && IsNode(v) && Lookup(n, path).Some?
    ensures IsNode(Lookup(n, path).value) && IsNode(Update(n, path, v))
    decreases |path|
  {
    if path != [] {
      var k := Pick(n, path[0]).value;
      NthIsNode(n.items, k, n.isObject);
      UpdateIsNode(Nth(n.items, k), path[1..], v);
    }
  }

  // ---- The scanner and the tree agree on whole texts ----

  /** The white space before and after a document's value. */
  function Before(t: string): string
    requires IsDocument(t)
  {
    t[..SkipSpace(t, 0)]
  }

  function After(t: string): string
    requires IsDocument(t)
  {
    t[SkipValue(t, 0).at..]
  }

  lemma DocumentParts(t: string)
    requires IsDocument(t)
    ensures AllSpace(Before(t)) && IsNode(Root(t)) && AllSpace(After(t))
    ensures t == Before(t) + Print(Root(t)) + After(t)
  {
    DocumentIsPrinted(t);
  }

  /** In a printed tree, white space around it, a path's span is its node's printed extent. */
  lemma SpanIsExtent(before: string, n: Node, after: string, path: Path)
    requires AllSpace(before) && IsNode(n) && AllSpace(after)
    ensures ValueSpan(before + Print(n) + after, path) == Extent(n, path, |before|)
  {
    hide Print, IsNode, At, Extent;
    PrintedIsDocument(before, n, after);
    FindNode(before + Print(n) + after, 0, n, path);
  }

  lemma GetIsLookup(before: string, n: Node, after: string, path: Path)
    requires AllSpace(before) && IsNode(n) && AllSpace(after)
    ensures Get(before + Print(n) + after, path)
            == match Lookup(n, path) case None => None case Some(found) => Some(Print(found))
  {
    hide Print, IsNode, Offset, Lookup, ValueSpan;
    SpanIsExtent(before, n, after, path);
    if Lookup(n, path).Some? {
      PrintUpdate(n, path, n);
      var o, m := Offset(n, path), Print(Lookup(n, path).value);
      SliceInside(before, Print(n), after, o, o + |m|);
    }
  }

  lemma SliceInside(before: string, s: string, after: string, begin: nat, end: nat)
    requires begin <= end <= |s|
    ensures (before + s + after)[|before| + begin..|before| + end] == s[begin..end]
  {}

  lemma NodeText(n: Node)
    requires IsNode(n)
    ensures IsValueText(Print(n))
  {
    hide Print, IsNode;
    assert "" + Print(n) + "" == Print(n);
    PrintedIsDocument("", n, "");
  }

  lemma ValueText(v: string)
    requires IsValueText(v)
    ensures IsDocument(v) && IsNode(Root(v)) && Print(Root(v)) == v
  {
    hide IsNode, Print;
    DocumentIsPrinted(v);
  }

  /** Splicing the value at a path writes the updated tree between the old white space. */
  lemma ReplaceIsUpdate(t: string, path: Path, v: string)
    requires IsDocument(t) && Lookup(Root(t), path).Some? && IsValueText(v)
    ensures IsNode(Update(Root(t), path, Root(v)))
    ensures Replace(t, path, v) == Some(Before(t) + Print(Update(Root(t), path, Root(v))) + After(t))
  {
    hide Print, IsNode, Offset, Lookup, Update, Root, Before, After, IsDocument, IsValueText, ValueSpan;
    var n, before, after := Root(t), Before(t), After(t);
    DocumentParts(t);
    SpanIsExtent(before, n, after, path);
    ValueText(v);
    UpdateIsNode(n, path, Root(v));
    PrintUpdate(n, path, Root(v));
    var o, m := Offset(n, path), Print(Lookup(n, path).value);
    assert t[..|before|] == before && t[|before|..|before| + |Print(n)|] == Print(n);
    SpliceInside(t, |before|, Print(n), o, o + |m|, v);
    assert t[|before| + |Print(n)|..] == after;
  }

  // ---- The laws ----

  /** A path finds something exactly in a document whose tree has it; what it finds is itself one value. */
  lemma Finds(t: string, path: Path)
    ensures ValueSpan(t, path).Some? <==> IsDocument(t) && Lookup(Root(t), path).Some?
    ensures ValueSpan(t, path).Some? ==>
              ValueSpan(t, path).value.begin < ValueSpan(t, path).value.end <= |t| && IsValueText(Get(t, path).value)
  {
    hide Print, IsNode, Offset, Before, After, Root;
    if IsDocument(t) {
      var n := Root(t);
      DocumentParts(t);
      SpanIsExtent(Before(t), n, After(t), path);
      GetIsLookup(Before(t), n, After(t), path);
      if Lookup(n, path).Some? {
        UpdateIsNode(n, path, n);
        PrintUpdate(n, path, n);
        NodeText(Lookup(n, path).value);
      }
    }
  }

  /** What was written is found again, where the old value was, exactly when it is one value. */
  lemma PutGet(t: string, path: Path, v: string)
    requires ValueSpan(t, path).Some?
    ensures var begin := ValueSpan(t, path).value.begin;
            && Replace(t, path, v).Some?
            && (IsValueText(v) <==> ValueSpan(Replace(t, path, v).value, path) == Some(Span(begin, begin + |v|)))
  {
    hide Print, IsNode, Offset, Lookup, Update, SkipValue, SkipSpace, IsDocument;
    Finds(t, path);
    var span := ValueSpan(t, path).value;
    var t' := Replace(t, path, v).value;
    assert t'[span.begin..span.begin + |v|] == v;
    if IsValueText(v) {
      var n, before, after := Root(t), Before(t), After(t);
      DocumentParts(t);
      ReplaceIsUpdate(t, path, v);
      ValueText(v);
      SpanIsExtent(before, n, after, path);
      SpanIsExtent(before, Update(n, path, Root(v)), after, path);
      OffsetOfUpdate(n, path, Root(v));
    } else {
      Finds(t', path);
    }
  }

  /** Writing back what is there changes nothing. */
  lemma GetPut(t: string, path: Path)
    requires ValueSpan(t, path).Some?
    ensures Get(t, path).Some? && Replace(t, path, Get(t, path).value) == Some(t)
  {
    hide IsDocument, Find, Lookup;
    Finds(t, path);
    var span := ValueSpan(t, path).value;
    assert t == t[..span.begin] + t[span.begin..span.end] + t[span.end..];
  }

  /** The later of two values written stands alone. */
  lemma PutPut(t: string, path: Path, v: string, w: string)
    requires ValueSpan(t, path).Some? && IsValueText(v)
    ensures Replace(t, path, v).Some? && Replace(Replace(t, path, v).value, path, w) == Replace(t, path, w)
  {
    hide IsDocument, Find, Lookup, IsValueText;
    Finds(t, path);
    PutGet(t, path, v);
    var span := ValueSpan(t, path).value;
    var t' := Replace(t, path, v).value;
    assert t'[..span.begin] == t[..span.begin] && t'[span.begin + |v|..] == t[span.end..];
  }

  /** A path that parts from the written one finds what it found, or nothing as before. */
  lemma PutElsewhere(t: string, p: Path, v: string, q: Path)
    requires ValueSpan(t, p).Some? && IsValueText(v) && Parts(Root(t), p, q)
    ensures Replace(t, p, v).Some? && Get(Replace(t, p, v).value, q) == Get(t, q)
  {
    hide Print, IsNode, Update, Lookup, Before, After, Root, Replace, IsDocument, ValueSpan, IsValueText, Get;
    Finds(t, p);
    ReplaceIsUpdate(t, p, v);
    var n, before, after := Root(t), Before(t), After(t);
    DocumentParts(t);
    ValueText(v);
    LookupElsewhere(n, p, Root(v), q);
    GetIsLookup(before, n, after, q);
    GetIsLookup(before, Update(n, p, Root(v)), after, q);
  }

  /** A path through the written value finds what the rest of it finds in that value alone. */
  lemma PutInside(t: string, p: Path, v: string, q: Path)
    requires ValueSpan(t, p).Some? && IsValueText(v) && Along(Root(t), p, q)
    ensures |p| <= |q| && Replace(t, p, v).Some? && Get(Replace(t, p, v).value, q) == Get(v, q[|p|..])
  {
    hide Print, IsNode, Update, Lookup, Before, After, Root, Replace, IsDocument, ValueSpan, IsValueText, Get;
    Finds(t, p);
    ReplaceIsUpdate(t, p, v);
    var n, before, after := Root(t), Before(t), After(t);
    DocumentParts(t);
    ValueText(v);
    LookupInside(n, p, Root(v), q);
    GetIsLookup(before, Update(n, p, Root(v)), after, q);
    ValueText(v);
    assert "" + Print(Root(v)) + "" == v;
    GetIsLookup("", Root(v), "", q[|p|..]);
  }

  /** A path that stops above the written value finds the old text there, edited alone. */
  lemma PutAbove(t: string, p: Path, v: string, q: Path)
    requires ValueSpan(t, p).Some? && IsValueText(v) && Along(Root(t), q, p)
    ensures |q| <= |p| && Get(t, q).Some? && Replace(t, p, v).Some?
    ensures Get(Replace(t, p, v).value, q) == Replace(Get(t, q).value, p[|q|..], v)
  {
    hide Print, IsNode, Update, Lookup, Before, After, Root, Replace, IsDocument, ValueSpan, IsValueText, Get;
    Finds(t, p);
    ReplaceIsUpdate(t, p, v);
    var n, before, after := Root(t), Before(t), After(t);
    DocumentParts(t);
    ValueText(v);
    LookupAbove(n, p, Root(v), q);
    GetIsLookup(before, n, after, q);
    GetIsLookup(before, Update(n, p, Root(v)), after, q);
    UpdateIsNode(n, q, n);
    NodeEdited(Lookup(n, q).value, p[|q|..], v);
  }

  lemma NodeEdited(n: Node, path: Path, v: string)
    requires IsNode(n) && Lookup(n, path).Some? && IsValueText(v)
    ensures Replace(Print(n), path, v) == Some(Print(Update(n, path, Root(v))))
  {
    hide Print, IsNode, Offset, Lookup, Update, ValueSpan, Root, IsValueText, IsDocument;
    ValueText(v);
    assert "" + Print(n) + "" == Print(n);
    SpanIsExtent("", n, "", path);
    PrintUpdate(n, path, Root(v));
  }
}
