/**
  Array segments as numbers: a path segment finds the element whose number it writes in
  decimal, leading zeros aside, and nothing else is an index.
*/
module JsonIndex {
  import opened Options
  import opened JsonScan
  import opened JsonTree
  import opened JsonFind
  import opened JsonEdit

  function Digit(d: nat): char
    requires d < 10
  {
    "0123456789"[d]
  }

  /** A number in decimal, no leading zero. */
  function Decimal(n: nat): string {
    if n < 10 then [Digit(n)] else Decimal(n / 10) + [Digit(n % 10)]
  }

  function Zeros(z: nat): string {
    seq(z, _ => '0')
  }

  lemma DigitIs(d: nat)
    requires d < 10
    ensures IsDigit(Digit(d)) && Digit(d) as int - '0' as int == d
  {}

  lemma IndexSnoc(s: string, d: nat)
    requires d < 10 && forall k | 0 <= k < |s| :: IsDigit(s[k])
    ensures forall k | 0 <= k < |s + [Digit(d)]| :: IsDigit((s + [Digit(d)])[k])
    ensures Index(s + [Digit(d)]) == 10 * Index(s) + d
  {
    DigitIs(d);
    assert (s + [Digit(d)])[..|s|] == s;
  }

  lemma {:induction false} ZerosAreNothing(z: nat)
    ensures forall k | 0 <= k < z :: IsDigit(Zeros(z)[k])
    ensures Index(Zeros(z)) == 0
  {
    if z > 0 {
      ZerosAreNothing(z - 1);
      IndexSnoc(Zeros(z - 1), 0);
      assert Zeros(z) == Zeros(z - 1) + [Digit(0)];
    }
  }

  lemma {:induction false} IndexOfDecimal(z: nat, n: nat)
    ensures var s := Zeros(z) + Decimal(n);
            s != "" && (forall k | 0 <= k < |s| :: IsDigit(s[k])) && Index(s) == n
  {
    if n < 10 {
      ZerosAreNothing(z);
      IndexSnoc(Zeros(z), n);
    } else {
      IndexOfDecimal(z, n / 10);
      IndexSnoc(Zeros(z) + Decimal(n / 10), n % 10);
      assert Zeros(z) + Decimal(n) == Zeros(z) + Decimal(n / 10) + [Digit(n % 10)];
    }
  }

  /** Every run of digits is a number in decimal with zeros before it. */
  lemma {:induction false} DigitsAreDecimal(s: string) returns (z: nat, n: nat)
    requires s != "" && forall k | 0 <= k < |s| :: '0' <= s[k] <= '9'
    ensures s == Zeros(z) + Decimal(n)
  {
    hide Decimal, Digit;
    var last := |s| - 1;
    var d := DigitOf(s[last]);
    assert s == s[..last] + [Digit(d)];
    if last == 0 {
      z, n := 0, d;
      DecimalSnoc(0, d);
      assert Zeros(0) == "" && s[..0] == "";
    } else {
      z, n := DigitsAreDecimal(s[..last]);
      DecimalSnoc(n, d);
      if n == 0 {
        z, n := z + 1, d;
        assert s[..last] == Zeros(z);
      } else {
        n := 10 * n + d;
      }
    }
  }

  lemma DigitOf(c: char) returns (d: nat)
    requires '0' <= c <= '9'
    ensures d < 10 && c == Digit(d)
  {
    d := c as int - '0' as int;
  }

  lemma DecimalSnoc(n: nat, d: nat)
    requires d < 10
    ensures Decimal(d) == [Digit(d)] && Decimal(0) == "0"
    ensures n > 0 ==> Decimal(10 * n + d) == Decimal(n) + [Digit(d)]
  {
    hide Decimal;
    var m := 10 * n + d;
    assert m / 10 == n && m % 10 == d;
    DecimalParts(d);
    DecimalParts(0);
    DecimalParts(m);
  }

  lemma DecimalParts(n: nat)
    ensures Decimal(n) == if n < 10 then [Digit(n)] else Decimal(n / 10) + [Digit(n % 10)]
  {}

  /** A number of at most nine characters goes on into that element; nothing does past the last. */
  lemma LookupByNumber(n: Node, z: nat, k: nat, rest: Path)
    requires n.Group? && !n.isObject && |Zeros(z) + Decimal(k)| <= 9
    ensures Lookup(n, [Zeros(z) + Decimal(k)] + rest) == if k < Length(n.items) then Lookup(Nth(n.items, k), rest) else None
  {
    IndexOfDecimal(z, k);
    assert ([Zeros(z) + Decimal(k)] + rest)[1..] == rest;
  }

  lemma OffsetOfItem(n: Node, segment: string, k: nat)
    requires n.Group? && k < Length(n.items) && Pick(n, segment) == Some(k)
    ensures Lookup(n, [segment]) == Some(Nth(n.items, k)) && Offset(n, [segment]) == 1 + |n.blank| + ItemOffset(n.items, k)
  {
    assert [segment][1..] == [];
  }

  /** On every array, white space around it: a number finds the element of that number where it is printed, or nothing. */
  lemma ElementByNumber(before: string, n: Node, after: string, z: nat, k: nat)
    requires AllSpace(before) && IsNode(n) && AllSpace(after)
    requires n.Group? && !n.isObject && |Zeros(z) + Decimal(k)| <= 9
    ensures var t, path := before + Print(n) + after, [Zeros(z) + Decimal(k)];
            if k < Length(n.items) then
              var begin := |before| + 1 + |n.blank| + ItemOffset(n.items, k);
              ValueSpan(t, path) == Some(Span(begin, begin + |Print(Nth(n.items, k))|)) && Get(t, path) == Some(Print(Nth(n.items, k)))
            else ValueSpan(t, path) == None
  {
    hide Print, IsNode, ItemOffset;
    var path := [Zeros(z) + Decimal(k)];
    IndexOfDecimal(z, k);
    LookupByNumber(n, z, k, []);
    assert path + [] == path;
    if k < Length(n.items) {
      OffsetOfItem(n, path[0], k);
    }
    SpanIsExtent(before, n, after, path);
    GetIsLookup(before, n, after, path);
  }

  /** A segment that is empty, longer than nine characters or not of digits alone finds nothing in an array. */
  lemma NotANumber(before: string, n: Node, after: string, segment: string, rest: Path)
    requires AllSpace(before) && IsNode(n) && AllSpace(after) && n.Group? && !n.isObject
    requires segment == "" || |segment| >= 10 || exists k :: 0 <= k < |segment| && !('0' <= segment[k] <= '9')
    ensures ValueSpan(before + Print(n) + after, [segment] + rest) == None
  {
    hide Print, IsNode;
    assert Lookup(n, [segment] + rest) == None;
    SpanIsExtent(before, n, after, [segment] + rest);
  }

  /** The characters the scanner passes over as white space, and those it takes for a scalar's. */
  lemma Alphabets(c: char)
    ensures IsSpace(c) <==> c in [' ', '\t', '\r', '\n']
    ensures IsScalar(c) <==> c in "+-0123456789.eEtruefalsn"
  {}
}
