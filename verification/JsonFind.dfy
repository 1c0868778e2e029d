/** On a printed tree the scanner finds what a lookup finds, where it is printed. */
module JsonFind {
  import opened Options
  import opened JsonScan
  import opened JsonTree
  import opened JsonRefinement

  /** Where the node at `path` lies when `n` is printed from `start`. */
  function Extent(n: Node, path: Path, start: nat): Option<Span> {
    match Lookup(n, path)
    case None => None
    case Some(found) => Some(Span(start + Offset(n, path), start + Offset(n, path) + |Print(found)|))
  }

  /** The extent of what the rest of a path finds in the picked item, the items printed from `start`. */
  function PickedExtent(items: Items, k: Option<nat>, path: Path, start: nat): Option<Span>
    requires k.Some? ==> k.value < Length(items)
  {
    match k
    case None => None
    case Some(k) => Extent(Nth(items, k), path, start + ItemOffset(items, k))
  }

  lemma ExtentBelow(n: Node, path: Path, start: nat)
    requires n.Group? && path != []
    ensures Extent(n, path, start) == PickedExtent(n.items, Pick(n, path[0]), path[1..], start + 1 + |n.blank|)
  {}

  lemma FindFrom(t: string, i: nat, path: Path)
    ensures Find(t, SkipSpace(t, i), path) == Find(t, i, path)
  {
    SkipSpaceTwice(t, i);
  }

  lemma FindMemberFrom(t: string, i: nat, path: Path)
    requires path != []
    ensures FindMember(t, SkipSpace(t, i), path) == FindMember(t, i, path)
  {
    SkipSpaceTwice(t, i);
  }

  lemma FindElementFrom(t: string, i: nat, left: nat, path: Path)
    requires path != []
    ensures FindElement(t, SkipSpace(t, i), left, path) == FindElement(t, i, left, path)
  {
    SkipValueFrom(t, i);
    FindFrom(t, i, path[1..]);
  }

  lemma {:induction false} FindNode(t: string, i: nat, n: Node, path: Path)
    requires IsNode(n) && At(t, SkipSpace(t, i), Print(n)) && Delimited(t, SkipSpace(t, i) + |Print(n)|)
    ensures Find(t, i, path) == Extent(n, path, SkipSpace(t, i))
    decreases n
  {
    hide At, Print, PrintItems;
    var j := SkipSpace(t, i);
    if path == [] {
      SkipSpaceTwice(t, i);
      ScanNode(t, j, n);
    } else if n.Group? {
      GroupInside(t, j, n);
      ExtentBelow(n, path, j);
      if n.items.More? {
        ItemsStart(t, j + 1, n.items, n.isObject);
        if n.isObject {
          FindMemberFrom(t, j + 1, path);
          FindMemberItems(t, j + 1, n.items, path);
        } else if IsIndex(path[0]) {
          FindElementFrom(t, j + 1, Index(path[0]), path);
          FindElementItems(t, j + 1, n.items, Index(path[0]), path);
        }
      }
    } else {
      NodeStart(t, j, n);
    }
  }

  /** The first item is the one picked, or the pick lies in the rest. */
  lemma PickedStep(items: Items, k: Option<nat>, path: Path, start: nat, v: nat, j: nat)
    requires items.More? && (k.Some? ==> k.value < Length(items))
    requires v == start + |PrintLead(items.lead)| && j == v + |Print(items.value)| + |items.after|
    ensures k == Some(0) ==> PickedExtent(items, k, path, start) == Extent(items.value, path, v)
    ensures k.Some? && k.value > 0 ==> PickedExtent(items, k, path, start) == PickedExtent(items.rest, Some(k.value - 1), path, j + 1)
  {}

  /** Where an item's value and its tail lie, the value scanned. */
  lemma ItemScanned(t: string, i: nat, items: Items, isObject: bool) returns (v: nat, e: nat, j: nat)
    requires items.More? && IsItems(items, isObject) && At(t, i, PrintItems(items) + [Close(isObject)])
    ensures ItemAt(t, i, items, isObject, v, e, j) && SkipValue(t, SkipLead(t, i, isObject).at) == Scan(true, e)
    ensures v == i + |PrintLead(items.lead)| && j == v + |Print(items.value)| + |items.after|
  {
    hide At, Print, PrintItems, PrintLead;
    v, e, j := ItemRun(t, i, items, isObject);
    ScanNode(t, SkipLead(t, i, isObject).at, items.value);
  }

  lemma MemberUnfolded(t: string, i: nat, path: Path, key: string, lead: nat, e: nat)
    requires path != [] && SkipKey(t, i).ok && KeyText(t, i) == key
    requires Expect(t, SkipKey(t, i).at, ':') == Scan(true, lead) && SkipValue(t, lead) == Scan(true, e)
    ensures FindMember(t, i, path)
            == if key == path[0] then Find(t, lead, path[1..])
               else if Peek(t, SkipSpace(t, e)) == ',' then FindMember(t, SkipSpace(t, e) + 1, path)
               else None
  {
    hide KeyText, SkipKey, SkipValue;
  }

  /** At an object's item: on into its value, or past it. */
  lemma MemberStep(t: string, i: nat, items: Items, path: Path) returns (v: nat, j: nat)
    requires path != [] && items.More? && IsItems(items, true) && At(t, i, PrintItems(items) + [Close(true)])
    ensures items.lead.Keyed? && v == i + |PrintLead(items.lead)| && j == v + |Print(items.value)| + |items.after|
    ensures At(t, v, Print(items.value)) && Delimited(t, v + |Print(items.value)|) && SkipSpace(t, v) == v
    ensures items.lead.key == path[0] ==> FindMember(t, i, path) == Find(t, v, path[1..])
    ensures items.lead.key != path[0] && items.rest.Nil? ==> FindMember(t, i, path) == None
    ensures items.lead.key != path[0] && items.rest.More? ==> FindMember(t, i, path) == FindMember(t, j + 1, path)
    ensures items.rest.More? ==> At(t, j + 1, PrintItems(items.rest) + [Close(true)])
  {
    hide At, Print, PrintItems, PrintLead;
    var e;
    v, e, j := ItemScanned(t, i, items, true);
    var lead := SkipLead(t, i, true).at;
    MemberUnfolded(t, i, path, items.lead.key, lead, e);
    FindFrom(t, lead, path[1..]);
    SkipSpaceTwice(t, lead);
  }

  /** At an array's item: on into its value, or past it. */
  lemma ElementStep(t: string, i: nat, items: Items, left: nat, path: Path) returns (v: nat, j: nat)
    requires path != [] && items.More? && IsItems(items, false) && At(t, i, PrintItems(items) + [Close(false)])
    ensures v == i + |PrintLead(items.lead)| && j == v + |Print(items.value)| + |items.after|
    ensures At(t, v, Print(items.value)) && Delimited(t, v + |Print(items.value)|) && SkipSpace(t, v) == v
    ensures left == 0 ==> FindElement(t, i, left, path) == Find(t, v, path[1..])
    ensures left > 0 && items.rest.Nil? ==> FindElement(t, i, left, path) == None
    ensures left > 0 && items.rest.More? ==> FindElement(t, i, left, path) == FindElement(t, j + 1, left - 1, path)
    ensures items.rest.More? ==> At(t, j + 1, PrintItems(items.rest) + [Close(false)])
  {
    hide At, Print, PrintItems, PrintLead;
    var e;
    v, e, j := ItemScanned(t, i, items, false);
    FindFrom(t, i, path[1..]);
    SkipSpaceTwice(t, i);
  }

  lemma {:induction false} FindMemberItems(t: string, i: nat, items: Items, path: Path)
    requires path != [] && items.More? && IsItems(items, true) && At(t, i, PrintItems(items) + [Close(true)])
    ensures FindMember(t, i, path) == PickedExtent(items, FirstKeyed(items, path[0]), path[1..], i)
    decreases items
  {
    hide At, Print, PrintItems, PrintLead;
    var v, j := MemberStep(t, i, items, path);
    PickedStep(items, FirstKeyed(items, path[0]), path[1..], i, v, j);
    if items.lead.key == path[0] {
      FindNode(t, v, items.value, path[1..]);
    } else if items.rest.More? {
      FindMemberItems(t, j + 1, items.rest, path);
    }
  }

  lemma {:induction false} FindElementItems(t: string, i: nat, items: Items, left: nat, path: Path)
    requires path != [] && items.More? && IsItems(items, false) && At(t, i, PrintItems(items) + [Close(false)])
    ensures FindElement(t, i, left, path)
            == PickedExtent(items, if left < Length(items) then Some(left) else None, path[1..], i)
    decreases items
  {
    hide At, Print, PrintItems, PrintLead;
    var v, j := ElementStep(t, i, items, left, path);
    PickedStep(items, if left < Length(items) then Some(left) else None, path[1..], i, v, j);
    if left == 0 {
      FindNode(t, v, items.value, path[1..]);
    } else if items.rest.More? {
      FindElementItems(t, j + 1, items.rest, left - 1, path);
    }
  }
}
