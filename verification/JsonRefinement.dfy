/**
  The cursor scanner refines the tree: on a printed tree it finds exactly the printed
  extent of what a lookup finds, and every text it takes is a printed tree.
*/
module JsonRefinement {
  import opened Options
  import opened JsonScan
  import opened JsonTree

  /** `s` is written in `t` from `i`. */
  ghost predicate At(t: string, i: nat, s: string) {
    i + |s| <= |t| && forall k {:trigger s[k]} | 0 <= k < |s| :: t[i + k] == s[k]
  }

  /** No scalar runs on over `i`. */
  predicate Delimited(t: string, i: nat) {
    !IsScalar(Peek(t, i))
  }

  lemma AtConcat(t: string, i: nat, a: string, b: string)
    ensures At(t, i, a + b) <==> At(t, i, a) && At(t, i + |a|, b)
  {
    var ab := a + b;
    if At(t, i, ab) {
      forall k | 0 <= k < |a| ensures t[i + k] == a[k] {
        assert ab[k] == a[k];
      }
      forall k | 0 <= k < |b| ensures t[i + |a| + k] == b[k] {
        assert ab[|a| + k] == b[k];
      }
    }
  }

  lemma AtChar(t: string, i: nat, c: char, s: string)
    ensures At(t, i, [c] + s) <==> i < |t| && t[i] == c && At(t, i + 1, s)
  {
    AtConcat(t, i, [c], s);
    assert At(t, i, [c]) <==> i < |t| && t[i] == [c][0];
  }

  lemma AtSlice(t: string, i: nat, s: string)
    requires At(t, i, s)
    ensures i + |s| <= |t| && t[i..i + |s|] == s
  {}

  lemma SubSlice(s: string, a: nat, b: nat, begin: nat, end: nat)
    requires a <= b <= |s| && begin <= end <= b - a
    ensures s[a..b][begin..end] == s[a + begin..a + end]
  {
    var inner, outer := s[a..b][begin..end], s[a + begin..a + end];
    forall k | 0 <= k < |inner| ensures inner[k] == outer[k] {
      assert inner[k] == s[a..b][begin + k] == s[a + begin + k];
    }
  }

  // ---- Runs of characters ----

  lemma {:induction false} SpaceRun(t: string, i: nat, s: string)
    requires At(t, i, s) && AllSpace(s)
    ensures SkipSpace(t, i) == SkipSpace(t, i + |s|)
    decreases |s|
  {
    if s != "" {
      assert s == [s[0]] + s[1..];
      AtChar(t, i, s[0], s[1..]);
      SpaceRun(t, i + 1, s[1..]);
    }
  }

  lemma {:induction false} ScalarRun(t: string, i: nat, s: string)
    requires At(t, i, s) && forall k | 0 <= k < |s| :: IsScalar(s[k])
    requires Delimited(t, i + |s|)
    ensures SkipScalar(t, i) == i + |s|
    decreases |s|
  {
    if s != "" {
      assert s == [s[0]] + s[1..];
      AtChar(t, i, s[0], s[1..]);
      ScalarRun(t, i + 1, s[1..]);
    }
  }

  lemma {:induction false} BodyRun(t: string, i: nat, s: string)
    requires At(t, i, s) && IsBody(s) && Peek(t, i + |s|) == '"'
    ensures SkipBody(t, i) == Scan(true, i + |s| + 1)
    decreases |s|
  {
    if s != "" {
      assert s == [s[0]] + s[1..];
      AtChar(t, i, s[0], s[1..]);
      if s[0] == '\\' {
        assert s[1..] == [s[1]] + s[2..];
        AtChar(t, i + 1, s[1], s[2..]);
        BodyRun(t, i + 2, s[2..]);
      } else {
        BodyRun(t, i + 1, s[1..]);
      }
    }
  }

  // ---- A printed tree is scanned to its end ----

  /** Across white space to a character that is none. */
  lemma SpaceThen(t: string, i: nat, space: string, c: char, s: string)
    requires AllSpace(space) && At(t, i, space + ([c] + s)) && !IsSpace(c)
    ensures SkipSpace(t, i) == i + |space| && Peek(t, i + |space|) == c && At(t, i + |space| + 1, s)
  {
    AtConcat(t, i, space, [c] + s);
    AtChar(t, i + |space|, c, s);
    SpaceRun(t, i, space);
  }

  lemma KeyRun(t: string, i: nat, space: string, key: string, s: string)
    requires AllSpace(space) && IsBody(key) && At(t, i, space + (['"'] + (key + (['"'] + s))))
    ensures SkipKey(t, i) == Scan(true, i + |space| + |key| + 2) && KeyText(t, i) == key
    ensures At(t, i + |space| + |key| + 2, s)
  {
    hide At, IsBody;
    SpaceThen(t, i, space, '"', key + (['"'] + s));
    var a := i + |space| + 1;
    AtConcat(t, a, key, ['"'] + s);
    AtChar(t, a + |key|, '"', s);
    BodyRun(t, a, key);
    AtSlice(t, a, key);
  }

  /** A key and its colon, then the space before the value. */
  lemma LeadRun(t: string, i: nat, lead: Lead, isObject: bool, s: string)
    requires IsLead(lead, isObject) && At(t, i, PrintLead(lead) + s)
    ensures isObject ==> lead.Keyed? && SkipKey(t, i).ok && KeyText(t, i) == lead.key && Expect(t, SkipKey(t, i).at, ':') == SkipLead(t, i, isObject)
    ensures SkipLead(t, i, isObject).ok
    ensures SkipSpace(t, SkipLead(t, i, isObject).at) == SkipSpace(t, i + |PrintLead(lead)|)
    ensures At(t, i + |PrintLead(lead)|, s)
  {
    hide At, IsBody;
    AtConcat(t, i, PrintLead(lead), s);
    match lead
    case Bare(before) => SpaceRun(t, i, before);
    case Keyed(space, key, gap, before) =>
      assert PrintLead(lead) == space + (['"'] + (key + (['"'] + (gap + ([':'] + before)))));
      KeyRun(t, i, space, key, gap + ([':'] + before));
      var b := i + |space| + |key| + 2;
      SpaceThen(t, b, gap, ':', before);
      SpaceRun(t, b + |gap| + 1, before);
  }

  /** What follows an item's value: its trailing space, then a comma or the closing bracket. */
  function Tail(after: string, rest: Items, close: char): string {
    after + (if rest.Nil? then [close] else "," + (PrintItems(rest) + [close]))
  }

  lemma PrintMore(items: Items, close: char)
    requires items.More?
    ensures PrintItems(items) + [close] == PrintLead(items.lead) + (Print(items.value) + Tail(items.after, items.rest, close))
  {}

  /** White space, or what comes right after none, is what is met. */
  lemma SpaceFirst(t: string, i: nat, space: string)
    requires SkipSpace(t, i) == i + |space|
    ensures |space| > 0 ==> IsSpace(Peek(t, i))
  {}

  lemma TailRun(t: string, i: nat, after: string, rest: Items, isObject: bool)
    requires AllSpace(after) && At(t, i, Tail(after, rest, Close(isObject)))
    ensures Delimited(t, i)
    ensures SkipSpace(t, i) == i + |after|
    ensures rest.Nil? ==> Peek(t, i + |after|) == Close(isObject)
    ensures rest.More? ==> Peek(t, i + |after|) == ',' && At(t, i + |after| + 1, PrintItems(rest) + [Close(isObject)])
  {
    hide At, PrintItems, SkipSpace;
    var close := Close(isObject);
    if rest.Nil? {
      assert Tail(after, rest, close) == after + ([close] + "");
      SpaceThen(t, i, after, close, "");
    } else {
      assert Tail(after, rest, close) == after + ([','] + (PrintItems(rest) + [close]));
      SpaceThen(t, i, after, ',', PrintItems(rest) + [close]);
    }
    SpaceFirst(t, i, after);
  }

  lemma ScalarInside(t: string, j: nat, n: Node)
    requires n.Scalar? && IsNode(n) && At(t, j, Print(n)) && Delimited(t, j + |Print(n)|)
    ensures IsScalar(Peek(t, j)) && SkipScalar(t, j) == j + |Print(n)| && |Print(n)| > 0
  {
    assert t[j] == n.chars[0];
    ScalarRun(t, j, n.chars);
  }

  lemma QuotedInside(t: string, j: nat, n: Node)
    requires n.Quoted? && IsNode(n) && At(t, j, Print(n))
    ensures Peek(t, j) == '"' && SkipBody(t, j + 1) == Scan(true, j + |Print(n)|)
  {
    hide At, IsBody;
    assert Print(n) == ['"'] + (n.body + (['"'] + ""));
    AtChar(t, j, '"', n.body + (['"'] + ""));
    AtConcat(t, j + 1, n.body, ['"'] + "");
    AtChar(t, j + 1 + |n.body|, '"', "");
    BodyRun(t, j + 1, n.body);
  }

  lemma {:induction false} ScanNode(t: string, i: nat, n: Node)
    requires IsNode(n) && At(t, SkipSpace(t, i), Print(n)) && Delimited(t, SkipSpace(t, i) + |Print(n)|)
    ensures SkipValue(t, i) == Scan(true, SkipSpace(t, i) + |Print(n)|)
    decreases n, 0
  {
    hide At, Print, PrintItems, Delimited;
    var j := SkipSpace(t, i);
    match n
    case Scalar(_) => ScalarInside(t, j, n);
    case Quoted(_) => QuotedInside(t, j, n);
    case Group(isObject, _, items) =>
      GroupInside(t, j, n);
      if items.More? {
        ItemsStart(t, j + 1, items, isObject);
        SkipItemsFrom(t, j + 1, Close(isObject), isObject);
        ScanItems(t, j + 1, items, isObject);
      }
  }

  lemma GroupInside(t: string, j: nat, n: Node)
    requires n.Group? && IsNode(n) && At(t, j, Print(n))
    ensures Peek(t, j) == Open(n.isObject) && |Print(n)| == 2 + |n.blank| + |PrintItems(n.items)|
    ensures n.items.Nil? ==> PrintItems(n.items) == ""
    ensures n.items.Nil? ==> SkipSpace(t, j + 1) == j + 1 + |n.blank| && Peek(t, j + 1 + |n.blank|) == Close(n.isObject)
    ensures n.items.More? ==> At(t, j + 1, PrintItems(n.items) + [Close(n.isObject)])
  {
    var close := Close(n.isObject);
    assert Print(n) == [Open(n.isObject)] + (n.blank + (PrintItems(n.items) + [close]));
    AtChar(t, j, Open(n.isObject), n.blank + (PrintItems(n.items) + [close]));
    AtConcat(t, j + 1, n.blank, PrintItems(n.items) + [close]);
    if n.items.Nil? {
      assert PrintItems(n.items) + [close] == [close] + "";
      AtChar(t, j + 1 + |n.blank|, close, "");
      SpaceRun(t, j + 1, n.blank);
    }
  }

  /** A first item does not start with the closing bracket. */
  lemma ItemsStart(t: string, i: nat, items: Items, isObject: bool)
    requires items.More? && IsItems(items, isObject) && At(t, i, PrintItems(items) + [Close(isObject)])
    ensures Peek(t, SkipSpace(t, i)) != Close(isObject)
  {
    var v, e, j := ItemRun(t, i, items, isObject);
    NodeStart(t, v, items.value);
  }

  /** A value's first character tells what it is. */
  lemma NodeStart(t: string, i: nat, n: Node)
    requires IsNode(n) && At(t, i, Print(n))
    ensures !IsSpace(Peek(t, i)) && Peek(t, i) !in "]}," && |Print(n)| > 0
    ensures !n.Group? ==> Peek(t, i) != '{' && Peek(t, i) != '['
  {
    var s := Print(n);
    assert n.Group? ==> s[0] == Open(n.isObject);
    assert t[i] == s[0];
  }

  /** The scanner skips the white space before a container's first item at once. */
  lemma SkipItemsFrom(t: string, i: nat, close: char, isObject: bool)
    requires close != '\0'
    ensures SkipItems(t, SkipSpace(t, i), close, isObject) == SkipItems(t, i, close, isObject)
  {
    SkipSpaceTwice(t, i);
    if !isObject {
      SkipValueFrom(t, i);
    }
  }

  lemma SkipSpaceTwice(t: string, i: nat)
    ensures SkipSpace(t, SkipSpace(t, i)) == SkipSpace(t, i)
  {}

  lemma SkipValueFrom(t: string, i: nat)
    ensures SkipValue(t, SkipSpace(t, i)) == SkipValue(t, i)
  {
    SkipSpaceTwice(t, i);
  }

  /** An item as the scanner meets it: its value from `v` to `e`, a comma or the bracket at `j`. */
  ghost predicate ItemAt(t: string, i: nat, items: Items, isObject: bool, v: nat, e: nat, j: nat)
    requires items.More?
  {
    var lead := SkipLead(t, i, isObject);
    && (isObject ==> items.lead.Keyed? && SkipKey(t, i).ok && KeyText(t, i) == items.lead.key && Expect(t, SkipKey(t, i).at, ':') == lead)
    && lead.ok && SkipSpace(t, lead.at) == v
    && At(t, v, Print(items.value)) && e == v + |Print(items.value)| && Delimited(t, e)
    && SkipSpace(t, e) == j
    && (if items.rest.Nil? then Peek(t, j) == Close(isObject)
        else Peek(t, j) == ',' && At(t, j + 1, PrintItems(items.rest) + [Close(isObject)]))
  }

  lemma ItemRun(t: string, i: nat, items: Items, isObject: bool) returns (v: nat, e: nat, j: nat)
    requires items.More? && IsItems(items, isObject) && At(t, i, PrintItems(items) + [Close(isObject)])
    ensures ItemAt(t, i, items, isObject, v, e, j)
    ensures v == i + |PrintLead(items.lead)|
    ensures j == i + |PrintLead(items.lead)| + |Print(items.value)| + |items.after|
  {
    hide At, Print, PrintItems, PrintLead;
    var tail := Tail(items.after, items.rest, Close(isObject));
    v := i + |PrintLead(items.lead)|;
    e := v + |Print(items.value)|;
    j := e + |items.after|;
    PrintMore(items, Close(isObject));
    LeadRun(t, i, items.lead, isObject, Print(items.value) + tail);
    AtConcat(t, v, Print(items.value), tail);
    NodeStart(t, v, items.value);
    TailRun(t, e, items.after, items.rest, isObject);
  }

  /** How far the printed items reach. */
  lemma PrintItemsLength(items: Items)
    requires items.More?
    ensures |PrintItems(items)| == |PrintLead(items.lead)| + |Print(items.value)| + |items.after|
                                   + if items.rest.Nil? then 0 else 1 + |PrintItems(items.rest)|
  {}

  /** One item on: to past a comma, or past the container's bracket. */
  lemma ItemStep(t: string, i: nat, close: char, isObject: bool, e: nat, j: nat)
    requires close != '\0' && close != ','
    requires SkipLead(t, i, isObject).ok && SkipValue(t, SkipLead(t, i, isObject).at) == Scan(true, e)
    requires SkipSpace(t, e) == j
    ensures Peek(t, j) == ',' ==> SkipItems(t, i, close, isObject) == SkipItems(t, j + 1, close, isObject)
    ensures Peek(t, j) == close ==> SkipItems(t, i, close, isObject) == Scan(true, j + 1)
  {}

  lemma {:induction false} ScanItem(t: string, i: nat, items: Items, isObject: bool) returns (j: nat)
    requires items.More? && IsItems(items, isObject) && At(t, i, PrintItems(items) + [Close(isObject)])
    ensures j == i + |PrintLead(items.lead)| + |Print(items.value)| + |items.after|
    ensures items.rest.Nil? ==> SkipItems(t, i, Close(isObject), isObject) == Scan(true, j + 1)
    ensures items.rest.More? ==> SkipItems(t, i, Close(isObject), isObject) == SkipItems(t, j + 1, Close(isObject), isObject)
    ensures items.rest.More? ==> At(t, j + 1, PrintItems(items.rest) + [Close(isObject)])
    decreases items, 0
  {
    hide At, Print, PrintItems, PrintLead, Delimited;
    var v, e;
    v, e, j := ItemRun(t, i, items, isObject);
    ScanNode(t, SkipLead(t, i, isObject).at, items.value);
    ItemStep(t, i, Close(isObject), isObject, e, j);
  }

  lemma {:induction false} ScanItems(t: string, i: nat, items: Items, isObject: bool)
    requires items.More? && IsItems(items, isObject) && At(t, i, PrintItems(items) + [Close(isObject)])
    ensures SkipItems(t, i, Close(isObject), isObject) == Scan(true, i + |PrintItems(items)| + 1)
    decreases items, 1
  {
    hide At, Print, PrintItems, PrintLead;
    var j := ScanItem(t, i, items, isObject);
    PrintItemsLength(items);
    if items.rest.More? {
      ScanItems(t, j + 1, items.rest, isObject);
    }
  }
}
