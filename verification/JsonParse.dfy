/** Every text the scanner takes is a printed tree: the tree it walks, written down. */
module JsonParse {
  import opened Options
  import opened JsonScan
  import opened JsonTree
  import opened JsonRefinement

  function ParseNode(t: string, i: nat): Node
    requires SkipValue(t, i).ok
    decreases |t| - i, 1
  {
    var j := SkipSpace(t, i);
    var c := Peek(t, j);
    if c == '{' || c == '[' then
      var isObject := c == '{';
      var k := SkipSpace(t, j + 1);
      if Peek(t, k) == Close(isObject) then Group(isObject, t[j + 1..k], Nil)
      else
        assert SkipItems(t, j + 1, Close(isObject), isObject) == SkipValue(t, i) by {
          SkipItemsFrom(t, j + 1, Close(isObject), isObject);
        }
        Group(isObject, "", ParseItems(t, j + 1, isObject))
    else if c == '"' then Quoted(t[j + 1..SkipBody(t, j + 1).at - 1])
    else Scalar(t[j..SkipScalar(t, j)])
  }

  function ParseItems(t: string, i: nat, isObject: bool): Items
    requires SkipItems(t, i, Close(isObject), isObject).ok
    decreases |t| - i, 2
  {
    var lead := SkipLead(t, i, isObject).at;
    var e := SkipValue(t, lead).at;
    var j := SkipSpace(t, e);
    More(ParseLead(t, i, isObject), ParseNode(t, lead), t[e..j],
         if Peek(t, j) == ',' then ParseItems(t, j + 1, isObject) else Nil)
  }

  /** What is written before the value, the white space right before it included. */
  function ParseLead(t: string, i: nat, isObject: bool): Lead
    requires SkipLead(t, i, isObject).ok && SkipLead(t, i, isObject).at <= |t|
  {
    var lead := SkipLead(t, i, isObject).at;
    var before := t[lead..SkipSpace(t, lead)];
    if !isObject then Bare(before)
    else
      var a := SkipKey(t, i).at;
      Keyed(t[i..SkipSpace(t, i)], KeyText(t, i), t[a..SkipSpace(t, a)], before)
  }

  // ---- What was read is what was written ----

  lemma {:induction false} SpaceRead(t: string, i: nat)
    requires i <= |t|
    ensures AllSpace(t[i..SkipSpace(t, i)])
    decreases |t| - i
  {
    var j := SkipSpace(t, i);
    if j > i {
      SpaceRead(t, i + 1);
      assert t[i..j] == [t[i]] + t[i + 1..j];
    }
  }

  lemma {:induction false} ScalarRead(t: string, i: nat)
    requires i <= |t|
    ensures forall k | i <= k < SkipScalar(t, i) :: IsScalar(t[k])
    decreases |t| - i
  {
    if SkipScalar(t, i) > i {
      ScalarRead(t, i + 1);
    }
  }

  lemma {:induction false} BodyRead(t: string, i: nat)
    requires SkipBody(t, i).ok
    ensures IsBody(t[i..SkipBody(t, i).at - 1]) && t[SkipBody(t, i).at - 1] == '"'
    decreases |t| - i
  {
    var e := SkipBody(t, i).at - 1;
    if t[i] == '\\' {
      BodyRead(t, i + 2);
      assert t[i..e][2..] == t[i + 2..e];
    } else if t[i] != '"' {
      BodyRead(t, i + 1);
      assert t[i..e][1..] == t[i + 1..e];
    }
  }

  /** What is written at `i` reads on by one more piece of the text. */
  lemma ReadOn(t: string, i: nat, s: string, e: nat)
    requires At(t, i, s) && i + |s| <= e <= |t|
    ensures At(t, i, s + t[i + |s|..e])
  {
    AtConcat(t, i, s, t[i + |s|..e]);
  }

  lemma KeyRead(t: string, i: nat)
    requires SkipKey(t, i).ok
    ensures IsBody(KeyText(t, i))
    ensures At(t, i, t[i..SkipSpace(t, i)] + "\"" + KeyText(t, i) + "\"")
    ensures |t[i..SkipSpace(t, i)] + "\"" + KeyText(t, i) + "\""| == SkipKey(t, i).at - i
  {
    hide IsBody, SkipBody;
    var j := SkipSpace(t, i);
    var e := SkipKey(t, i).at;
    BodyRead(t, j + 1);
    var a := t[i..j];
    assert t[j..j + 1] == "\"" && t[e - 1..e] == "\"";
    ReadOn(t, i, a, j + 1);
    ReadOn(t, i, a + "\"", e - 1);
    ReadOn(t, i, a + "\"" + KeyText(t, i), e);
  }

  lemma ColonRead(t: string, a: nat)
    requires Expect(t, a, ':').ok
    ensures var b := SkipSpace(t, a); a <= b < |t| && Expect(t, a, ':').at == b + 1 && t[b..b + 1] == ":"
  {}

  lemma KeyedPrinted(t: string, i: nat)
    requires SkipLead(t, i, true).ok && SkipLead(t, i, true).at <= |t|
    ensures var lead, a := SkipLead(t, i, true).at, SkipKey(t, i).at;
            SkipKey(t, i).ok && Expect(t, a, ':') == Scan(true, lead) &&
            PrintLead(ParseLead(t, i, true))
            == t[i..SkipSpace(t, i)] + "\"" + KeyText(t, i) + "\"" + t[a..SkipSpace(t, a)] + ":" + t[lead..SkipSpace(t, lead)]
  {
    hide KeyText;
  }

  lemma KeyedRead(t: string, i: nat)
    requires SkipLead(t, i, true).ok && SkipLead(t, i, true).at <= |t|
    ensures At(t, i, PrintLead(ParseLead(t, i, true)))
    ensures i + |PrintLead(ParseLead(t, i, true))| == SkipSpace(t, SkipLead(t, i, true).at)
    ensures IsBody(KeyText(t, i))
  {
    hide IsBody, At, SkipKey, KeyText, SkipSpace, Expect, ParseLead, PrintLead;
    KeyedPrinted(t, i);
    var lead := SkipLead(t, i, true).at;
    var a := SkipKey(t, i).at;
    var b := SkipSpace(t, a);
    KeyRead(t, i);
    var key := t[i..SkipSpace(t, i)] + "\"" + KeyText(t, i) + "\"";
    ReadOn(t, i, key, b);
    ColonRead(t, a);
    ReadOn(t, i, key + t[a..b], lead);
    ReadOn(t, i, key + t[a..b] + ":", SkipSpace(t, lead));
  }

  lemma LeadRead(t: string, i: nat, isObject: bool)
    requires SkipLead(t, i, isObject).ok && SkipLead(t, i, isObject).at <= |t|
    ensures IsLead(ParseLead(t, i, isObject), isObject)
    ensures At(t, i, PrintLead(ParseLead(t, i, isObject)))
    ensures i + |PrintLead(ParseLead(t, i, isObject))| == SkipSpace(t, SkipLead(t, i, isObject).at)
  {
    hide IsBody, At, SkipKey, KeyText, SkipSpace;
    var lead := SkipLead(t, i, isObject).at;
    SpaceRead(t, i);
    SpaceRead(t, lead);
    if isObject {
      SpaceRead(t, SkipKey(t, i).at);
      KeyedRead(t, i);
    } else {
      AtOwn(t, i, SkipSpace(t, i));
    }
  }

  /** A container is written where its brackets, its inside and its items are. */
  lemma GroupWritten(t: string, j: nat, isObject: bool, blank: string, items: Items)
    requires Peek(t, j) == Open(isObject) && At(t, j + 1, blank) && At(t, j + 1 + |blank|, PrintItems(items))
    requires Peek(t, j + 1 + |blank| + |PrintItems(items)|) == Close(isObject)
    ensures At(t, j, Print(Group(isObject, blank, items)))
    ensures |Print(Group(isObject, blank, items))| == 2 + |blank| + |PrintItems(items)|
  {
    hide At, PrintItems;
    var open, close := [Open(isObject)], [Close(isObject)];
    AtChar(t, j, Open(isObject), blank);
    AtConcat(t, j, open + blank, PrintItems(items));
    var e := j + 1 + |blank| + |PrintItems(items)|;
    assert t[e..e + 1] == close;
    ReadOn(t, j, open + blank + PrintItems(items), e + 1);
  }

  /** An item is written where its pieces are, a comma between it and the next. */
  lemma ItemWritten(t: string, i: nat, items: Items, j: nat)
    requires items.More? && At(t, i, PrintLead(items.lead)) && At(t, i + |PrintLead(items.lead)|, Print(items.value))
    requires j == i + |PrintLead(items.lead)| + |Print(items.value)| + |items.after|
    requires At(t, j - |items.after|, items.after)
    requires items.rest.More? ==> Peek(t, j) == ',' && At(t, j + 1, PrintItems(items.rest))
    ensures At(t, i, PrintItems(items))
    ensures |PrintItems(items)| == j - i + if items.rest.Nil? then 0 else 1 + |PrintItems(items.rest)|
  {
    hide At, PrintLead, Print;
    var a, b := PrintLead(items.lead), Print(items.value);
    AtConcat(t, i, a, b);
    AtConcat(t, i, a + b, items.after);
    if items.rest.Nil? {
      assert PrintItems(items) == a + b + items.after;
    } else {
      AtChar(t, j, ',', PrintItems(items.rest));
      AtConcat(t, i, a + b + items.after, "," + PrintItems(items.rest));
    }
  }

  lemma AtOwn(t: string, i: nat, e: nat)
    requires i <= e <= |t|
    ensures At(t, i, t[i..e])
  {}

  /** A value is read back as written, from past the white space before it. */
  lemma {:induction false} NodeRead(t: string, i: nat)
    requires SkipValue(t, i).ok
    ensures IsNode(ParseNode(t, i))
    ensures At(t, SkipSpace(t, i), Print(ParseNode(t, i)))
    ensures SkipSpace(t, i) + |Print(ParseNode(t, i))| == SkipValue(t, i).at
    decreases |t| - i, 1
  {
    hide At, IsBody, SkipBody, PrintItems, ParseItems, SkipItems;
    var j := SkipSpace(t, i);
    var c := Peek(t, j);
    var e := SkipValue(t, i).at;
    if c == '{' || c == '[' {
      GroupRead(t, i);
    } else if c == '"' {
      BodyRead(t, j + 1);
      AtOwn(t, j, e);
      assert t[j..e] == "\"" + t[j + 1..e - 1] + "\"";
    } else {
      ScalarRead(t, j);
      AtOwn(t, j, e);
    }
  }

  lemma {:induction false} GroupRead(t: string, i: nat)
    requires SkipValue(t, i).ok && Peek(t, SkipSpace(t, i)) in "{["
    ensures IsNode(ParseNode(t, i))
    ensures At(t, SkipSpace(t, i), Print(ParseNode(t, i)))
    ensures SkipSpace(t, i) + |Print(ParseNode(t, i))| == SkipValue(t, i).at
    decreases |t| - i, 0
  {
    hide At, PrintItems, Print, ParseItems, SkipItems;
    var j := SkipSpace(t, i);
    var isObject := Peek(t, j) == '{';
    var k := SkipSpace(t, j + 1);
    NoItems();
    if Peek(t, k) == Close(isObject) {
      SpaceRead(t, j + 1);
      AtOwn(t, j + 1, k);
      AtOwn(t, k, k);
      GroupWritten(t, j, isObject, t[j + 1..k], Nil);
    } else {
      SkipItemsFrom(t, j + 1, Close(isObject), isObject);
      ItemsRead(t, j + 1, isObject);
      AtOwn(t, j + 1, j + 1);
      GroupWritten(t, j, isObject, "", ParseItems(t, j + 1, isObject));
    }
  }

  lemma NoItems()
    ensures PrintItems(Nil) == "" && forall isObject :: IsItems(Nil, isObject)
  {}

  lemma {:induction false} ItemsRead(t: string, i: nat, isObject: bool)
    requires SkipItems(t, i, Close(isObject), isObject).ok
    ensures var items, e := ParseItems(t, i, isObject), SkipItems(t, i, Close(isObject), isObject).at;
            IsItems(items, isObject) && At(t, i, PrintItems(items)) && i + |PrintItems(items)| == e - 1 && t[e - 1] == Close(isObject)
    decreases |t| - i, 2
  {
    hide At, Print, PrintItems, PrintLead, ParseLead, IsLead, IsNode, ParseNode, SkipValue, SkipLead;
    var lead := SkipLead(t, i, isObject).at;
    var e := SkipValue(t, lead).at;
    var j := SkipSpace(t, e);
    LeadRead(t, i, isObject);
    NodeRead(t, lead);
    SpaceRead(t, e);
    AtOwn(t, e, j);
    if Peek(t, j) == ',' {
      ItemsRead(t, j + 1, isObject);
    }
    ItemWritten(t, i, ParseItems(t, i, isObject), j);
  }

  /** A document's tree, and the white space around it. */
  function Root(t: string): Node
    requires IsDocument(t)
  {
    ParseNode(t, 0)
  }

  lemma DocumentRead(t: string)
    requires IsDocument(t)
    ensures var begin, end := SkipSpace(t, 0), SkipValue(t, 0).at;
            && IsNode(Root(t)) && AllSpace(t[..begin]) && AllSpace(t[end..])
            && t == t[..begin] + Print(Root(t)) + t[end..]
  {
    hide At, Print, IsNode, ParseNode, AllSpace;
    var begin, end := SkipSpace(t, 0), SkipValue(t, 0).at;
    NodeRead(t, 0);
    SpaceRead(t, 0);
    SpaceRead(t, end);
    assert t[0..begin] == t[..begin] && t[end..|t|] == t[end..];
    AtSlice(t, begin, Print(Root(t)));
  }

  /** The scanner takes exactly the printed trees, with white space around them. */
  lemma DocumentIsPrinted(t: string)
    ensures IsDocument(t) ==>
              var begin, end := SkipSpace(t, 0), SkipValue(t, 0).at;
              && IsNode(Root(t)) && AllSpace(t[..begin]) && AllSpace(t[end..])
              && t == t[..begin] + Print(Root(t)) + t[end..]
    ensures IsDocument(t) <== exists before: string, n, after: string ::
                                AllSpace(before) && IsNode(n) && AllSpace(after) && t == before + Print(n) + after
  {
    hide At, Print, IsNode, Root, IsDocument;
    if IsDocument(t) {
      DocumentRead(t);
    }
    if before: string, n, after: string :| AllSpace(before) && IsNode(n) && AllSpace(after) && t == before + Print(n) + after {
      PrintedIsDocument(before, n, after);
    }
  }

  /** Where a printed tree lies between its white space. */
  lemma PrintedIsDocument(before: string, n: Node, after: string)
    requires AllSpace(before) && IsNode(n) && AllSpace(after)
    ensures var t := before + Print(n) + after;
            && SkipSpace(t, 0) == |before| && At(t, |before|, Print(n)) && Delimited(t, |before| + |Print(n)|)
            && SkipValue(t, 0) == Scan(true, |before| + |Print(n)|) && IsDocument(t)
  {
    hide At, Print, IsNode, SkipValue;
    var t := before + Print(n) + after;
    var e := |before| + |Print(n)|;
    AtEach(before, Print(n), after);
    NodeStart(t, |before|, n);
    SpaceRun(t, 0, before);
    SpaceRun(t, e, after);
    ScanNode(t, 0, n);
  }

  lemma AtEach(before: string, s: string, after: string)
    requires AllSpace(after)
    ensures var t := before + s + after;
            At(t, 0, before) && At(t, |before|, s) && At(t, |before| + |s|, after) && Delimited(t, |before| + |s|)
  {
    hide At;
    var t := before + s + after;
    var e := |before| + |s|;
    assert t[0..|before|] == before && t[|before|..e] == s && t[e..|t|] == after;
    AtOwn(t, 0, |before|);
    AtOwn(t, |before|, e);
    AtOwn(t, e, |t|);
    if after != "" {
      assert t[e] == after[0];
    }
  }

  // ---- A text is printed from one tree only ----

  lemma SliceAt(t: string, i: nat, s: string, rest: string)
    requires At(t, i, s + rest)
    ensures i + |s| <= |t| && t[i..i + |s|] == s && At(t, i + |s|, rest)
  {
    hide At;
    AtConcat(t, i, s, rest);
    AtSlice(t, i, s);
  }

  /** What is written before a value is read back, the value starting where no white space is. */
  lemma LeadBack(t: string, i: nat, lead: Lead, isObject: bool, s: string)
    requires IsLead(lead, isObject) && At(t, i, PrintLead(lead) + s) && !IsSpace(Peek(t, i + |PrintLead(lead)|))
    ensures SkipLead(t, i, isObject).ok && SkipLead(t, i, isObject).at <= |t| && ParseLead(t, i, isObject) == lead
  {
    hide At, IsBody, KeyText, SkipKey, SkipSpace, Expect, AllSpace;
    LeadRun(t, i, lead, isObject, s);
    match lead
    case Bare(before) =>
      BareBack(t, i, before, s);
    case Keyed(space, key, gap, before) =>
      assert PrintLead(lead) + s == space + (['"'] + (key + (['"'] + (gap + ([':'] + (before + s))))));
      KeyedBack(t, i, space, key, gap, before, s);
  }

  lemma BareBack(t: string, i: nat, before: string, s: string)
    requires AllSpace(before) && At(t, i, before + s) && !IsSpace(Peek(t, i + |before|))
    ensures SkipSpace(t, i) == i + |before| <= |t| && t[i..i + |before|] == before
  {
    hide At;
    SliceAt(t, i, before, s);
    AtConcat(t, i, before, s);
    SpaceRun(t, i, before);
  }

  lemma KeyedBack(t: string, i: nat, space: string, key: string, gap: string, before: string, s: string)
    requires AllSpace(space) && IsBody(key) && AllSpace(gap) && AllSpace(before)
    requires At(t, i, space + (['"'] + (key + (['"'] + (gap + ([':'] + (before + s)))))))
    requires !IsSpace(Peek(t, i + |space| + |key| + |gap| + |before| + 3))
    ensures SkipKey(t, i) == Scan(true, i + |space| + |key| + 2) && KeyText(t, i) == key
    ensures var a := SkipKey(t, i).at; SkipSpace(t, a) == a + |gap| && Expect(t, a, ':') == Scan(true, a + |gap| + 1)
    ensures var lead := i + |space| + |key| + |gap| + 3; SkipSpace(t, lead) == lead + |before|
    ensures i + |space| + |key| + |gap| + |before| + 3 <= |t| && SkipSpace(t, i) == i + |space|
    ensures t[i..i + |space|] == space
    ensures var a := i + |space| + |key| + 2; t[a..a + |gap|] == gap && t[a + |gap| + 1..a + |gap| + 1 + |before|] == before
  {
    hide At, IsBody, KeyText, SkipKey;
    var b := i + |space| + |key| + 2;
    var tail := key + (['"'] + (gap + ([':'] + (before + s))));
    SpaceThen(t, i, space, '"', tail);
    SliceAt(t, i, space, ['"'] + tail);
    KeyRun(t, i, space, key, gap + ([':'] + (before + s)));
    SpaceThen(t, b, gap, ':', before + s);
    SliceAt(t, b, gap, [':'] + (before + s));
    SliceAt(t, b + |gap| + 1, before, s);
    AtConcat(t, b + |gap| + 1, before, s);
    SpaceRun(t, b + |gap| + 1, before);
  }

  lemma {:induction false} NodeBack(t: string, i: nat, n: Node)
    requires IsNode(n) && At(t, SkipSpace(t, i), Print(n)) && Delimited(t, SkipSpace(t, i) + |Print(n)|)
    ensures SkipValue(t, i).ok && ParseNode(t, i) == n
    decreases n, 0
  {
    hide At, PrintItems, Delimited, ParseItems, SkipItems, IsBody, SkipBody, IsItems;
    var j := SkipSpace(t, i);
    ScanNode(t, i, n);
    AtSlice(t, j, Print(n));
    match n
    case Scalar(_) =>
      ScalarInside(t, j, n);
    case Quoted(body) =>
      QuotedInside(t, j, n);
      assert Print(n)[1..|Print(n)| - 1] == body;
      SubSlice(t, j, j + |Print(n)|, 1, |Print(n)| - 1);
    case Group(isObject, blank, items) => GroupBack(t, i, n);
  }

  lemma {:induction false} GroupBack(t: string, i: nat, n: Node)
    requires n.Group? && IsNode(n) && At(t, SkipSpace(t, i), Print(n)) && SkipValue(t, i).ok
    ensures ParseNode(t, i) == n
    decreases n, -1
  {
    hide At, Print, PrintItems, ParseItems, SkipItems, IsItems, AllSpace;
    var j := SkipSpace(t, i);
    GroupInside(t, j, n);
    if n.items.Nil? {
      BlankBack(t, j, n);
    } else {
      ItemsStart(t, j + 1, n.items, n.isObject);
      SkipItemsFrom(t, j + 1, Close(n.isObject), n.isObject);
      ItemsBack(t, j + 1, n.items, n.isObject);
    }
  }

  lemma BlankBack(t: string, j: nat, n: Node)
    requires n.Group? && n.items.Nil? && At(t, j, Print(n))
    ensures j + 1 + |n.blank| <= |t| && t[j + 1..j + 1 + |n.blank|] == n.blank
  {
    hide At;
    AtSlice(t, j, Print(n));
    assert Print(n)[1..1 + |n.blank|] == n.blank;
    SubSlice(t, j, j + |Print(n)|, 1, 1 + |n.blank|);
  }

  lemma {:induction false} ItemsBack(t: string, i: nat, items: Items, isObject: bool)
    requires items.More? && IsItems(items, isObject) && At(t, i, PrintItems(items) + [Close(isObject)])
    ensures SkipItems(t, i, Close(isObject), isObject).ok && ParseItems(t, i, isObject) == items
    decreases items, 1
  {
    hide At, Print, PrintItems, PrintLead, ParseItems, ParseLead, ParseNode, SkipItems, SkipValue, SkipLead, IsLead, IsNode, Tail;
    ScanItems(t, i, items, isObject);
    var v, e, j := ItemRun(t, i, items, isObject);
    var lead := SkipLead(t, i, isObject).at;
    hide Delimited, KeyText, SkipKey, Expect;
    ScanNode(t, lead, items.value);
    NodeBack(t, lead, items.value);
    NodeStart(t, v, items.value);
    PrintMore(items, Close(isObject));
    LeadBack(t, i, items.lead, isObject, Print(items.value) + Tail(items.after, items.rest, Close(isObject)));
    AfterBack(t, i, items, isObject);
    if items.rest.More? {
      ItemsBack(t, j + 1, items.rest, isObject);
    }
    ParseMore(t, i, isObject, items, e, j);
  }

  lemma ParseMore(t: string, i: nat, isObject: bool, items: Items, e: nat, j: nat)
    requires items.More? && SkipItems(t, i, Close(isObject), isObject).ok && SkipLead(t, i, isObject).at <= |t|
    requires ParseLead(t, i, isObject) == items.lead
    requires SkipValue(t, SkipLead(t, i, isObject).at) == Scan(true, e) && ParseNode(t, SkipLead(t, i, isObject).at) == items.value
    requires SkipSpace(t, e) == j && e <= j <= |t| && t[e..j] == items.after
    requires if items.rest.Nil? then Peek(t, j) == Close(isObject)
             else Peek(t, j) == ',' && SkipItems(t, j + 1, Close(isObject), isObject).ok && ParseItems(t, j + 1, isObject) == items.rest
    ensures ParseItems(t, i, isObject) == items
  {
    hide ParseNode, ParseLead, SkipSpace;
  }

  lemma AfterBack(t: string, i: nat, items: Items, isObject: bool)
    requires items.More? && At(t, i, PrintItems(items) + [Close(isObject)])
    ensures var e := i + |PrintLead(items.lead)| + |Print(items.value)|; e + |items.after| <= |t| && t[e..e + |items.after|] == items.after
  {
    hide At, Print, PrintItems, PrintLead;
    var tail := Tail(items.after, items.rest, Close(isObject));
    PrintMore(items, Close(isObject));
    SliceAt(t, i, PrintLead(items.lead), Print(items.value) + tail);
    SliceAt(t, i + |PrintLead(items.lead)|, Print(items.value), tail);
    var rest := if items.rest.Nil? then [Close(isObject)] else "," + (PrintItems(items.rest) + [Close(isObject)]);
    assert tail == items.after + rest;
    SliceAt(t, i + |PrintLead(items.lead)| + |Print(items.value)|, items.after, rest);
  }

  /** A well-formed tree is read back from its print: no text is printed from two. */
  lemma RootOfPrint(before: string, n: Node, after: string)
    requires AllSpace(before) && IsNode(n) && AllSpace(after)
    ensures IsDocument(before + Print(n) + after) && Root(before + Print(n) + after) == n
  {
    hide Print, IsNode, At, ParseNode;
    PrintedIsDocument(before, n, after);
    NodeBack(before + Print(n) + after, 0, n);
  }
}
