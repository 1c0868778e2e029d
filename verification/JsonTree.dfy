/**
  JSON text as a syntax tree that keeps every byte: white space, key order, repeated
  keys and the spelling of each scalar. `Print` writes a tree out and `Lookup` and
  `Update` work on the tree alone, so they say what the in-place editor means.
*/
module JsonTree {
  import opened Options
  import opened JsonScan

  /** A value without the white space around it. `blank` is the space inside an empty container. */
  datatype Node =
    | Scalar(chars: string)
    | Quoted(body: string)
    | Group(isObject: bool, blank: string, items: Items)

  /** What an item has before its value: in an array white space, in an object also a key. */
  datatype Lead =
    | Bare(before: string)
    | Keyed(space: string, key: string, gap: string, before: string)

  datatype Items = Nil | More(lead: Lead, value: Node, after: string, rest: Items)

  // ---- Printing ----

  function Open(isObject: bool): char {
    if isObject then '{' else '['
  }

  function Close(isObject: bool): char {
    if isObject then '}' else ']'
  }

  function PrintLead(lead: Lead): string {
    match lead
    case Bare(before) => before
    case Keyed(space, key, gap, before) => space + "\"" + key + "\"" + gap + ":" + before
  }

  function Print(n: Node): string {
    match n
    case Scalar(chars) => chars
    case Quoted(body) => "\"" + body + "\""
    case Group(isObject, blank, items) => [Open(isObject)] + blank + PrintItems(items) + [Close(isObject)]
  }

  function PrintItems(items: Items): string {
    match items
    case Nil => ""
    case More(lead, value, after, rest) =>
      PrintLead(lead) + Print(value) + after + (if rest.Nil? then "" else "," + PrintItems(rest))
  }

  // ---- Which trees are JSON ----

  predicate AllSpace(s: string) {
    forall k | 0 <= k < |s| :: IsSpace(s[k])
  }

  /** A string's inside: every backslash escapes one character, and no bare quote. */
  predicate IsBody(s: string) {
    if s == "" then true
    else if s[0] == '\\' then |s| >= 2 && IsBody(s[2..])
    else s[0] != '"' && IsBody(s[1..])
  }

  predicate IsLead(lead: Lead, isObject: bool) {
    match lead
    case Bare(before) => !isObject && AllSpace(before)
    case Keyed(space, key, gap, before) => isObject && AllSpace(space) && IsBody(key) && AllSpace(gap) && AllSpace(before)
  }

  /** What the scanner takes for one value: JSON, but any run of scalar characters passes for a scalar. */
  predicate IsNode(n: Node) {
    match n
    case Scalar(chars) => chars != "" && forall k | 0 <= k < |chars| :: IsScalar(chars[k])
    case Quoted(body) => IsBody(body)
    case Group(isObject, blank, items) => AllSpace(blank) && (items.More? ==> blank == "") && IsItems(items, isObject)
  }

  predicate IsItems(items: Items, isObject: bool) {
    match items
    case Nil => true
    case More(lead, value, after, rest) => IsLead(lead, isObject) && IsNode(value) && AllSpace(after) && IsItems(rest, isObject)
  }

  // ---- Looking up and updating ----

  function Length(items: Items): nat {
    match items
    case Nil => 0
    case More(_, _, _, rest) => 1 + Length(rest)
  }

  /** The first item with this key. */
  function FirstKeyed(items: Items, key: string): (k: Option<nat>)
    ensures k.Some? ==> k.value < Length(items)
  {
    match items
    case Nil => None
    case More(lead, _, _, rest) =>
      if lead.Keyed? && lead.key == key then Some(0)
      else
        match FirstKeyed(rest, key)
        case None => None
        case Some(k) => Some(k + 1)
  }

  /** The item a path segment names: by raw key text in an object, by number in an array. */
  function Pick(n: Node, segment: string): (k: Option<nat>)
    ensures k.Some? ==> n.Group? && k.value < Length(n.items)
  {
    match n
    case Group(true, _, items) => FirstKeyed(items, segment)
    case Group(false, _, items) =>
      if IsIndex(segment) && Index(segment) < Length(items) then Some(Index(segment)) else None
    case _ => None
  }

  function Nth(items: Items, k: nat): (n: Node)
    requires k < Length(items)
    ensures n < items
  {
    if k == 0 then items.value else Nth(items.rest, k - 1)
  }

  function Lookup(n: Node, path: Path): Option<Node>
    decreases |path|
  {
    if path == [] then Some(n)
    else
      match Pick(n, path[0])
      case None => None
      case Some(k) => Lookup(Nth(n.items, k), path[1..])
  }

  function SetNth(items: Items, k: nat, v: Node): (r: Items)
    requires k < Length(items)
    ensures Length(r) == Length(items) && r.More?
  {
    if k == 0 then items.(value := v) else items.(rest := SetNth(items.rest, k - 1, v))
  }

  /** The tree with `v` in place of what is at `path`. */
  function Update(n: Node, path: Path, v: Node): Node
    requires Lookup(n, path).Some?
    decreases |path|
  {
    if path == [] then v
    else
      var k := Pick(n, path[0]).value;
      n.(items := SetNth(n.items, k, Update(Nth(n.items, k), path[1..], v)))
  }

  // ---- Where a node is printed ----

  /** Where the `k`-th item's value starts in the printed items. */
  function ItemOffset(items: Items, k: nat): nat
    requires k < Length(items)
  {
    |PrintLead(items.lead)| +
    if k == 0 then 0 else |Print(items.value)| + |items.after| + 1 + ItemOffset(items.rest, k - 1)
  }

  /** Where the node at `path` starts in the printed tree. */
  function Offset(n: Node, path: Path): nat
    requires Lookup(n, path).Some?
    decreases |path|
  {
    if path == [] then 0
    else
      var k := Pick(n, path[0]).value;
      1 + |n.blank| + ItemOffset(n.items, k) + Offset(Nth(n.items, k), path[1..])
  }

  // ---- Laws of the tree lens ----

  lemma {:induction false} NthOfSetNth(items: Items, k: nat, v: Node, m: nat)
    requires k < Length(items) && m < Length(items)
    ensures Nth(SetNth(items, k, v), m) == if m == k then v else Nth(items, m)
  {
    if k > 0 && m > 0 {
      NthOfSetNth(items.rest, k - 1, v, m - 1);
    }
  }

  lemma {:induction false} SetNthTwice(items: Items, k: nat, v: Node, w: Node)
    requires k < Length(items)
    ensures SetNth(SetNth(items, k, v), k, w) == SetNth(items, k, w)
    ensures SetNth(items, k, Nth(items, k)) == items
  {
    if k > 0 {
      SetNthTwice(items.rest, k - 1, v, w);
    }
  }

  lemma {:induction false} FirstKeyedOfSetNth(items: Items, k: nat, v: Node, key: string)
    requires k < Length(items)
    ensures FirstKeyed(SetNth(items, k, v), key) == FirstKeyed(items, key)
  {
    if k > 0 {
      FirstKeyedOfSetNth(items.rest, k - 1, v, key);
    }
  }

  /** An update below a node does not change which item any segment picks there. */
  lemma PickOfSet(n: Node, k: nat, v: Node, segment: string)
    requires n.Group? && k < Length(n.items)
    ensures Pick(n.(items := SetNth(n.items, k, v)), segment) == Pick(n, segment)
  {
    FirstKeyedOfSetNth(n.items, k, v, segment);
  }

  /** Put then get, get then put, put twice. */
  lemma {:induction false} LensLaws(n: Node, path: Path, v: Node, w: Node)
    requires Lookup(n, path).Some?
    ensures Lookup(Update(n, path, v), path) == Some(v)
    ensures Update(n, path, Lookup(n, path).value) == n
    ensures Update(Update(n, path, v), path, w) == Update(n, path, w)
    decreases |path|
  {
    if path != [] {
      var k := Pick(n, path[0]).value;
      var child := Nth(n.items, k);
      LensLaws(child, path[1..], v, w);
      var v', w' := Update(child, path[1..], v), Update(child, path[1..], w);
      PickOfSet(n, k, v', path[0]);
      NthOfSetNth(n.items, k, v', k);
      SetNthTwice(n.items, k, v', w');
    }
  }

  /** At some node both reach, `p` and `q` go different ways, or `q` leads nowhere. */
  predicate Parts(n: Node, p: Path, q: Path)
    decreases |p|
  {
    p != [] && q != [] &&
    match (Pick(n, p[0]), Pick(n, q[0]))
    case (Some(k), Some(m)) => k != m || Parts(Nth(n.items, k), p[1..], q[1..])
    case (Some(k), None) => true
    case (None, _) => false
  }

  /** `p` and `q` go the same way as far as `p` reaches. */
  predicate Along(n: Node, p: Path, q: Path)
    decreases |p|
  {
    p == [] ||
    (q != [] && Pick(n, p[0]).Some? && Pick(n, q[0]) == Pick(n, p[0]) &&
     Along(Nth(n.items, Pick(n, p[0]).value), p[1..], q[1..]))
  }

  /** Two paths to be told apart: they part, one runs along the other, or the other along the one. */
  lemma {:induction false} PartsOrAlong(n: Node, p: Path, q: Path)
    requires Lookup(n, p).Some?
    ensures Parts(n, p, q) || Along(n, p, q) || (Along(n, q, p) && Lookup(n, q).Some?)
    ensures !(Parts(n, p, q) && Along(n, p, q)) && !(Parts(n, p, q) && Along(n, q, p))
    decreases |p|
  {
    if p != [] && q != [] && Pick(n, p[0]) == Pick(n, q[0]) {
      PartsOrAlong(Nth(n.items, Pick(n, p[0]).value), p[1..], q[1..]);
    }
  }

  /** A path that parts from the updated one finds what it found before. */
  lemma {:induction false} LookupElsewhere(n: Node, p: Path, v: Node, q: Path)
    requires Lookup(n, p).Some? && Parts(n, p, q)
    ensures Lookup(Update(n, p, v), q) == Lookup(n, q)
    decreases |p|
  {
    var k := Pick(n, p[0]).value;
    var v' := Update(Nth(n.items, k), p[1..], v);
    PickOfSet(n, k, v', q[0]);
    if Pick(n, q[0]).Some? {
      var m := Pick(n, q[0]).value;
      NthOfSetNth(n.items, k, v', m);
      if m == k {
        LookupElsewhere(Nth(n.items, k), p[1..], v, q[1..]);
      }
    }
  }

  /** A path through the updated node goes on inside the new value. */
  lemma {:induction false} LookupInside(n: Node, p: Path, v: Node, q: Path)
    requires Lookup(n, p).Some? && Along(n, p, q)
    ensures |p| <= |q| && Lookup(Update(n, p, v), q) == Lookup(v, q[|p|..])
    decreases |p|
  {
    if p != [] {
      var k := Pick(n, p[0]).value;
      var v' := Update(Nth(n.items, k), p[1..], v);
      PickOfSet(n, k, v', q[0]);
      NthOfSetNth(n.items, k, v', k);
      LookupInside(Nth(n.items, k), p[1..], v, q[1..]);
    }
  }

  /** A path that stops above the updated node finds the old container with the update in it. */
  lemma {:induction false} LookupAbove(n: Node, p: Path, v: Node, q: Path)
    requires Lookup(n, p).Some? && Along(n, q, p)
    ensures |q| <= |p| && Lookup(n, q).Some? && Lookup(Lookup(n, q).value, p[|q|..]).Some?
    ensures Lookup(Update(n, p, v), q) == Some(Update(Lookup(n, q).value, p[|q|..], v))
    decreases |q|
  {
    if q != [] {
      var k := Pick(n, p[0]).value;
      var v' := Update(Nth(n.items, k), p[1..], v);
      PickOfSet(n, k, v', q[0]);
      NthOfSetNth(n.items, k, v', k);
      LookupAbove(Nth(n.items, k), p[1..], v, q[1..]);
    }
  }
}
