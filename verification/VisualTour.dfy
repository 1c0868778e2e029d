/**
  The fly-over's height (`src/core/visual_tour.cpp`): round the ring of points the lowest
  the eye may be is raised over the ground and the trees, then smoothed as the mean of
  the largest nearby. Arithmetic is over the reals.
*/
module VisualTour {
  datatype Point = Point(x: real, z: real)

  datatype Tree = Tree(position: Point, ground: real, trunkHeight: real, leafHeight: real, leafRadius: real)

  datatype Flight = Flight(height: real, treeClearance: real)

  function Max(a: real, b: real): real {
    if a < b then b else a
  }

  // ---- The ring ----

  /** The value at any place round the ring, as often round as it takes. */
  function Round(values: seq<real>, i: int): real
    requires values != []
  {
    values[i % |values|]
  }

  /** The largest of `count` values in a row round the ring. */
  function Largest(values: seq<real>, from: int, count: nat): real
    requires values != [] && count > 0
  {
    if count == 1 then Round(values, from) else Max(Largest(values, from, count - 1), Round(values, from + count - 1))
  }

  function Sum(values: seq<real>, from: int, count: nat): real
    requires values != []
  {
    if count == 0 then 0.0 else Sum(values, from, count - 1) + Round(values, from + count - 1)
  }

  function RingMax(values: seq<real>, reach: nat): seq<real> {
    seq(|values|, i requires 0 <= i < |values| => Largest(values, i - reach, 2 * reach + 1))
  }

  function RingMean(values: seq<real>, reach: nat): seq<real> {
    seq(|values|, i requires 0 <= i < |values| => Sum(values, i - reach, 2 * reach + 1) / (2 * reach + 1) as real)
  }

  function Smoothed(lowest: seq<real>, ease: nat): seq<real> {
    RingMean(RingMax(lowest, ease), ease)
  }

  lemma SamePlace(n: nat, i: int, turns: int)
    requires n > 0
    ensures (i + turns * n) % n == i % n
  {
    var q, r := i / n, i % n;
    Remainder(i + turns * n, n, q + turns, r);
  }

  /** A quotient and remainder are the only ones. */
  lemma Remainder(a: int, n: nat, q: int, r: nat)
    requires n > 0 && r < n && a == q * n + r
    ensures a % n == r
  {
    var d := a / n - q;
    assert d * n == r - a % n;
  }

  lemma {:induction false} LargestIsBound(values: seq<real>, from: int, count: nat, k: int)
    requires values != [] && from <= k < from + count
    ensures Round(values, k) <= Largest(values, from, count)
  {
    if k < from + count - 1 {
      LargestIsBound(values, from, count - 1, k);
    }
  }

  lemma {:induction false} LargestIsThere(values: seq<real>, from: int, count: nat)
    requires values != [] && count > 0
    ensures exists k :: from <= k < from + count && Largest(values, from, count) == Round(values, k)
  {
    if count == 1 {
      assert Round(values, from) == Largest(values, from, count);
    } else {
      LargestIsThere(values, from, count - 1);
      assert Largest(values, from, count) == Round(values, from + count - 1) || Largest(values, from, count) == Largest(values, from, count - 1);
    }
  }

  lemma {:induction false} SumIsAtLeast(values: seq<real>, from: int, count: nat, least: real)
    requires values != [] && forall k | from <= k < from + count :: least <= Round(values, k)
    ensures least * count as real <= Sum(values, from, count)
  {
    if count > 0 {
      SumIsAtLeast(values, from, count - 1, least);
    }
  }

  lemma {:induction false} SumIsAtMost(values: seq<real>, from: int, count: nat, most: real)
    requires values != [] && forall k | from <= k < from + count :: Round(values, k) <= most
    ensures Sum(values, from, count) <= most * count as real
  {
    if count > 0 {
      SumIsAtMost(values, from, count - 1, most);
    }
  }

  /** Moving the window on by one drops its first value and takes in the next. */
  lemma {:induction false} SumMovesOn(values: seq<real>, from: int, count: nat)
    requires values != []
    ensures Sum(values, from + 1, count) == Sum(values, from, count) - Round(values, from) + Round(values, from + count)
  {
    if count > 0 {
      SumMovesOn(values, from, count - 1);
    }
  }

  /** Every index in the mean's window sees the middle in its own, however often the windows go round. */
  lemma WindowsMeet(lowest: seq<real>, ease: nat, i: nat, k: int)
    requires i < |lowest| && i - ease <= k <= i + ease
    ensures lowest[i] <= Round(RingMax(lowest, ease), k)
  {
    hide Largest;
    var n := |lowest|;
    var j := k % n;
    var before := k - j;
    // The window round `j` reaches `i` on the turn `k` is on.
    Remainder(i - before, n, -(k / n), i);
    LargestIsBound(lowest, j - ease, 2 * ease + 1, i - before);
  }

  /** The eye is never below the lowest it may be, round the whole ring. */
  lemma NeverDips(lowest: seq<real>, ease: nat, i: nat)
    requires i < |lowest|
    ensures lowest[i] <= Smoothed(lowest, ease)[i]
  {
    var largest := RingMax(lowest, ease);
    var count := 2 * ease + 1;
    forall k | i - ease <= k < i - ease + count ensures lowest[i] <= Round(largest, k) {
      WindowsMeet(lowest, ease, i, k);
    }
    SumIsAtLeast(largest, i - ease, count, lowest[i]);
    Divided(lowest[i], Sum(largest, i - ease, count), count);
  }

  lemma Divided(a: real, sum: real, count: nat)
    requires count > 0
    ensures a * count as real <= sum ==> a <= sum / count as real
    ensures sum <= a * count as real ==> sum / count as real <= a
  {
    var c := count as real;
    var q := sum / c;
    assert q * c == sum;
  }

  lemma RingMaxWithin(lowest: seq<real>, ease: nat, least: real, most: real, k: int)
    requires lowest != [] && forall i | 0 <= i < |lowest| :: least <= lowest[i] <= most
    ensures least <= Round(RingMax(lowest, ease), k) <= most
  {
    var i := k % |lowest|;
    LargestIsThere(lowest, i - ease, 2 * ease + 1);
  }

  /** From one point to the next the eye rises or falls by at most the whole range's share of the window. */
  lemma ChangesSlowly(lowest: seq<real>, ease: nat, least: real, most: real, i: nat)
    requires i < |lowest| && forall i | 0 <= i < |lowest| :: least <= lowest[i] <= most
    ensures var heights := Smoothed(lowest, ease);
            var next := heights[(i + 1) % |lowest|];
            && least <= heights[i] <= most
            && -(most - least) / (2 * ease + 1) as real <= next - heights[i] <= (most - least) / (2 * ease + 1) as real
  {
    var largest := RingMax(lowest, ease);
    var count := 2 * ease + 1;
    var from := i - ease;
    forall k ensures least <= Round(largest, k) <= most {
      RingMaxWithin(lowest, ease, least, most, k);
    }
    SumIsAtLeast(largest, from, count, least);
    SumIsAtMost(largest, from, count, most);
    Divided(least, Sum(largest, from, count), count);
    Divided(most, Sum(largest, from, count), count);
    NextWindow(largest, i, ease);
    SumMovesOn(largest, from, count);
    var change := Round(largest, from + count) - Round(largest, from);
    Share(Sum(largest, from, count), change, count);
    Share(0.0, change, count);
    Scaled(change, most - least, count);
    Scaled(-(most - least), change, count);
  }

  lemma Share(sum: real, change: real, count: nat)
    requires count > 0
    ensures (sum + change) / count as real == sum / count as real + change / count as real
  {}

  lemma Scaled(a: real, b: real, count: nat)
    requires count > 0 && a <= b
    ensures a / count as real <= b / count as real
  {
    var c := count as real;
    assert (a / c) * c == a;
    Divided(a / c, b, count);
  }

  /** Past the last index the window is that of the first, a turn on. */
  lemma NextWindow(values: seq<real>, i: nat, reach: nat)
    requires i < |values|
    ensures Sum(values, (i + 1) % |values| - reach, 2 * reach + 1) == Sum(values, i + 1 - reach, 2 * reach + 1)
  {
    hide Sum;
    var n := |values|;
    if i + 1 < n {
      Remainder(i + 1, n, 0, i + 1);
    } else {
      Remainder(i + 1, n, 1, 0);
      SumTurns(values, -(reach as int), 2 * reach + 1);
    }
  }

  lemma {:induction false} SumTurns(values: seq<real>, from: int, count: nat)
    requires values != []
    ensures Sum(values, from + |values|, count) == Sum(values, from, count)
  {
    if count > 0 {
      SumTurns(values, from, count - 1);
      SamePlace(|values|, from + count - 1, 1);
    }
  }

  // ---- The loops ----

  /** The source language's remainder, which takes the dividend's sign. */
  function Rem(a: int, n: nat): int
    requires n > 0
  {
    if a >= 0 then a % n else -((-a) % n)
  }

  /** The index `k` on from `i` round a ring of `count`, as the loops work it out. */
  function Wrapped(i: nat, k: int, count: nat): int
    requires count > 0
  {
    Rem(Rem(i + k, count) + count, count)
  }

  lemma WrappedIsRound(i: nat, k: int, count: nat)
    requires count > 0
    ensures Wrapped(i, k, count) == (i + k) % count
  {
    var a := i + k;
    if a >= 0 {
      Remainder(a % count + count, count, 1, a % count);
    } else {
      var r := (-a) % count;
      var q := (-a) / count;
      assert a == -(q * count) - r;
      if r == 0 {
        Remainder(a, count, -q, 0);
        Remainder(count, count, 1, 0);
      } else {
        Remainder(a, count, -q - 1, count - r);
        Remainder(count - r, count, 0, count - r);
      }
    }
  }

  /** The largest so far may as well start with the middle value, which its window has. */
  lemma StartInWindow(values: seq<real>, i: nat, reach: nat)
    requires i < |values|
    ensures Max(values[i], Largest(values, i - reach, 2 * reach + 1)) == Largest(values, i - reach, 2 * reach + 1)
  {
    hide Largest;
    Remainder(i, |values|, 0, i);
    LargestIsBound(values, i - reach, 2 * reach + 1, i);
  }

  method RingMaxOf(values: seq<real>, reach: nat) returns (out: seq<real>)
    ensures out == RingMax(values, reach)
  {
    out := [];
    for i := 0 to |values|
      invariant out == RingMax(values, reach)[..i]
    {
      var most := values[i];
      var k: int := -(reach as int);
      while k <= reach
        invariant 0 <= k + reach <= 2 * reach + 1
        invariant most == if k + reach == 0 then values[i] else Max(values[i], Largest(values, i - reach, k + reach))
      {
        WrappedIsRound(i, k, |values|);
        most := Max(most, values[Wrapped(i, k, |values|)]);
        k := k + 1;
      }
      StartInWindow(values, i, reach);
      out := out + [most];
    }
  }

  method RingMeanOf(values: seq<real>, reach: nat) returns (out: seq<real>)
    ensures out == RingMean(values, reach)
  {
    out := [];
    for i := 0 to |values|
      invariant out == RingMean(values, reach)[..i]
    {
      var sum := 0.0;
      var k: int := -(reach as int);
      while k <= reach
        invariant 0 <= k + reach <= 2 * reach + 1 && sum == Sum(values, i - reach, k + reach)
      {
        WrappedIsRound(i, k, |values|);
        sum := sum + values[Wrapped(i, k, |values|)];
        k := k + 1;
      }
      out := out + [sum / (2 * reach + 1) as real];
    }
  }

  // ---- Over the ground and the trees ----

  /** A tree's top as the flight must clear it. */
  function Top(tree: Tree, flight: Flight): real {
    tree.ground + tree.trunkHeight + tree.leafHeight + flight.treeClearance
  }

  /** Closer than the crown's reach, by the square of the distance. */
  predicate Under(tree: Tree, p: Point, spacing: real) {
    var reach := tree.leafRadius + spacing;
    var dx, dz := p.x - tree.position.x, p.z - tree.position.z;
    reach > 0.0 && dx * dx + dz * dz < reach * reach
  }

  /** The lowest the eye may be at a point: over its ground, and over each tree in reach there. */
  function LowestAt(p: Point, ground: real, trees: seq<Tree>, spacing: real, flight: Flight): real {
    if trees == [] then ground + flight.height
    else
      var last := trees[|trees| - 1];
      var others := LowestAt(p, ground, trees[..|trees| - 1], spacing, flight);
      if Under(last, p, spacing) then Max(others, Top(last, flight)) else others
  }

  function Lowest(points: seq<Point>, ground: seq<real>, trees: seq<Tree>, spacing: real, flight: Flight): seq<real>
    requires |ground| == |points|
  {
    seq(|points|, i requires 0 <= i < |points| => LowestAt(points[i], ground[i], trees, spacing, flight))
  }

  lemma {:induction false} LowestClears(p: Point, ground: real, trees: seq<Tree>, spacing: real, flight: Flight)
    ensures ground + flight.height <= LowestAt(p, ground, trees, spacing, flight)
    ensures forall t | 0 <= t < |trees| && Under(trees[t], p, spacing) ::
              Top(trees[t], flight) <= LowestAt(p, ground, trees, spacing, flight)
  {
    if trees != [] {
      hide Under, Top;
      var init := trees[..|trees| - 1];
      LowestClears(p, ground, init, spacing, flight);
      assert forall t | 0 <= t < |init| :: init[t] == trees[t];
    }
  }

  /** The eye's height at each point of the route: smoothed, clear of its ground and of every tree in reach there. */
  method TourHeights(points: seq<Point>, ground: seq<real>, trees: seq<Tree>, spacing: real, flight: Flight, ease: nat)
    returns (heights: seq<real>)
    requires |ground| == |points|
    ensures heights == Smoothed(Lowest(points, ground, trees, spacing, flight), ease)
    ensures forall i | 0 <= i < |points| :: ground[i] + flight.height <= heights[i]
    ensures forall i, t | 0 <= i < |points| && 0 <= t < |trees| && Under(trees[t], points[i], spacing) ::
              Top(trees[t], flight) <= heights[i]
  {
    hide Under, Top;
    var lowest := seq(|points|, i requires 0 <= i < |points| => ground[i] + flight.height);
    assert trees[..0] == [];
    for t := 0 to |trees|
      invariant lowest == Lowest(points, ground, trees[..t], spacing, flight)
    {
      var top := Top(trees[t], flight);
      assert trees[..t + 1][..t] == trees[..t];
      ghost var before := lowest;
      for i := 0 to |points|
        invariant |lowest| == |points|
        invariant lowest[i..] == before[i..]
        invariant forall j | 0 <= j < i :: lowest[j] == LowestAt(points[j], ground[j], trees[..t + 1], spacing, flight)
      {
        assert lowest[i] == lowest[i..][0] == before[i];
        if Under(trees[t], points[i], spacing) {
          lowest := lowest[i := Max(lowest[i], top)];
        }
      }
    }
    assert trees[..|trees|] == trees;
    var largest := RingMaxOf(lowest, ease);
    heights := RingMeanOf(largest, ease);
    forall i | 0 <= i < |points|
      ensures lowest[i] <= heights[i] && ground[i] + flight.height <= heights[i]
      ensures forall t | 0 <= t < |trees| && Under(trees[t], points[i], spacing) :: Top(trees[t], flight) <= heights[i]
    {
      NeverDips(lowest, ease, i);
      LowestClears(points[i], ground[i], trees, spacing, flight);
    }
  }

  // ---- Between the points ----

  function Mix(a: real, b: real, share: real): real {
    a * (1.0 - share) + b * share
  }

  function MixPoint(a: Point, b: Point, share: real): Point {
    Point(Mix(a.x, b.x, share), Mix(a.z, b.z, share))
  }

  /** No further apart than `reach`. */
  predicate Within(a: Point, b: Point, reach: real) {
    reach >= 0.0 && (a.x - b.x) * (a.x - b.x) + (a.z - b.z) * (a.z - b.z) <= reach * reach
  }

  lemma Product(a: real, b: real, c: real, d: real)
    requires 0.0 <= a <= c && 0.0 <= b <= d
    ensures a * b <= c * d
  {
    assert a * b <= c * b && c * b <= c * d;
  }

  /** A product of two lengths bounds the product of the vectors. */
  lemma DotWithin(ux: real, uz: real, vx: real, vz: real, u: real, v: real)
    requires u >= 0.0 && v >= 0.0 && ux * ux + uz * uz <= u * u && vx * vx + vz * vz <= v * v
    ensures ux * vx + uz * vz <= u * v
  {
    var dot, cross := ux * vx + uz * vz, ux * vz - uz * vx;
    var uu, vv := ux * ux + uz * uz, vx * vx + vz * vz;
    assert dot * dot + cross * cross == uu * vv;
    assert cross * cross >= 0.0 && uu >= 0.0 && vv >= 0.0;
    Product(uu, vv, u * u, v * v);
    assert (u * u) * (v * v) == (u * v) * (u * v);
    if dot > u * v {
      Squared(u * v, dot);
    }
  }

  lemma Positive(a: real, b: real)
    requires a > 0.0 && b > 0.0
    ensures a * b > 0.0
  {}

  lemma NotNegative(a: real, b: real)
    requires a >= 0.0 && b >= 0.0
    ensures a * b >= 0.0
  {}

  lemma Squared(a: real, b: real)
    requires 0.0 <= a < b
    ensures a * a < b * b
  {
    assert b * b - a * a == (b - a) * (b + a);
    Positive(b - a, b + a);
  }

  /** Two sides of a triangle are no shorter than the third. */
  lemma Triangle(ux: real, uz: real, vx: real, vz: real, u: real, v: real)
    requires u >= 0.0 && v >= 0.0 && ux * ux + uz * uz <= u * u && vx * vx + vz * vz <= v * v
    ensures (ux + vx) * (ux + vx) + (uz + vz) * (uz + vz) <= (u + v) * (u + v)
  {
    DotWithin(ux, uz, vx, vz, u, v);
    assert (ux + vx) * (ux + vx) + (uz + vz) * (uz + vz)
        == (ux * ux + uz * uz) + 2.0 * (ux * vx + uz * vz) + (vx * vx + vz * vz);
    assert (u + v) * (u + v) == u * u + 2.0 * (u * v) + v * v;
  }

  /** Part of the way from one point to another within `spacing`. */
  lemma PartWay(a: Point, b: Point, share: real, spacing: real)
    requires 0.0 <= share <= 1.0 && Within(a, b, spacing)
    ensures Within(a, MixPoint(a, b, share), share * spacing) && Within(b, MixPoint(a, b, share), (1.0 - share) * spacing)
  {
    hide Mix;
    var dx, dz := a.x - b.x, a.z - b.z;
    Offset(a.x, b.x, share);
    Offset(a.z, b.z, share);
    Squares(dx, dz);
    Shortened(dx, dz, share, spacing);
    Shortened(-dx, -dz, 1.0 - share, spacing);
  }

  lemma Squares(dx: real, dz: real)
    ensures -dx * -dx + -dz * -dz == dx * dx + dz * dz
  {}

  lemma Offset(a: real, b: real, share: real)
    ensures a - Mix(a, b, share) == share * (a - b) && b - Mix(a, b, share) == (1.0 - share) * -(a - b)
  {}

  lemma Shortened(dx: real, dz: real, share: real, spacing: real)
    requires 0.0 <= share && spacing >= 0.0 && dx * dx + dz * dz <= spacing * spacing
    ensures share * spacing >= 0.0
    ensures (share * dx) * (share * dx) + (share * dz) * (share * dz) <= (share * spacing) * (share * spacing)
  {
    assert share * share >= 0.0 && dx * dx + dz * dz >= 0.0;
    Product(share * share, dx * dx + dz * dz, share * share, spacing * spacing);
    assert (share * dx) * (share * dx) + (share * dz) * (share * dz) == (share * share) * (dx * dx + dz * dz);
    assert (share * spacing) * (share * spacing) == (share * share) * (spacing * spacing);
  }

  /** A tree's crown over a place less than `spacing` away is in reach here. */
  lemma ReachesBack(tree: Tree, here: Point, place: Point, away: real, spacing: real)
    requires Within(here, place, away) && away < spacing && Within(place, tree.position, tree.leafRadius)
    ensures Under(tree, here, spacing)
  {
    var c := tree.position;
    Triangle(here.x - place.x, here.z - place.z, place.x - c.x, place.z - c.z, away, tree.leafRadius);
    assert here.x - place.x + (place.x - c.x) == here.x - c.x && here.z - place.z + (place.z - c.z) == here.z - c.z;
    Squared(away + tree.leafRadius, tree.leafRadius + spacing);
  }

  lemma MixAbove(a: real, b: real, share: real, least: real)
    requires 0.0 <= share <= 1.0 && (share < 1.0 ==> least <= a) && (share > 0.0 ==> least <= b)
    ensures least <= Mix(a, b, share)
  {
    if 0.0 < share < 1.0 {
      NotNegative(a - least, 1.0 - share);
      NotNegative(b - least, share);
      assert Mix(a, b, share) == least + (a - least) * (1.0 - share) + (b - least) * share;
    }
  }

  /** The point of the ring so many spacings along, and how far on from it. */
  function IndexAlong(steps: real, count: nat): (i: nat)
    requires steps >= 0.0 && count > 0
    ensures i < count
  {
    steps.Floor % count
  }

  function ShareAlong(steps: real): (share: real)
    ensures 0.0 <= share < 1.0
  {
    steps - steps.Floor as real
  }

  function Next(i: nat, count: nat): (next: nat)
    requires i < count
    ensures next == if i + 1 == count then 0 else i + 1
  {
    (i + 1) % count
  }

  /**
    Anywhere along the flight, between the points too: over a tree's crown the eye is above
    its top, when neighbouring points are no further apart than the spacing.
  */
  lemma FlightClears(points: seq<Point>, ground: seq<real>, trees: seq<Tree>, spacing: real, flight: Flight, ease: nat, steps: real, t: nat)
    requires |ground| == |points| && points != [] && spacing > 0.0 && steps >= 0.0 && t < |trees|
    requires forall i: nat | i < |points| :: Within(points[i], points[Next(i, |points|)], spacing)
    requires var i := IndexAlong(steps, |points|);
             Within(MixPoint(points[i], points[Next(i, |points|)], ShareAlong(steps)), trees[t].position, trees[t].leafRadius)
    ensures var heights := Smoothed(Lowest(points, ground, trees, spacing, flight), ease);
            var i := IndexAlong(steps, |points|);
            Top(trees[t], flight) <= Mix(heights[i], heights[Next(i, |points|)], ShareAlong(steps))
  {
    hide Under, Top, Within, Smoothed, Lowest, Mix, MixPoint, IndexAlong, ShareAlong, Next;
    var i := IndexAlong(steps, |points|);
    var next, share, lowest := Next(i, |points|), ShareAlong(steps), Lowest(points, ground, trees, spacing, flight);
    var place := MixPoint(points[i], points[next], share);
    var heights := Smoothed(lowest, ease);
    assert |heights| == |points| by { SmoothedLength(points, ground, trees, spacing, flight, ease); }
    assert Within(points[i], points[next], spacing);
    PartWay(points[i], points[next], share, spacing);
    Less(share, spacing);
    ReachesBack(trees[t], points[i], place, share * spacing, spacing);
    SmoothedClears(points, ground, trees, spacing, flight, ease, i, t);
    if share > 0.0 {
      Less(1.0 - share, spacing);
      ReachesBack(trees[t], points[next], place, (1.0 - share) * spacing, spacing);
      SmoothedClears(points, ground, trees, spacing, flight, ease, next, t);
    }
    MixAbove(heights[i], heights[next], share, Top(trees[t], flight));
  }

  lemma SmoothedLength(points: seq<Point>, ground: seq<real>, trees: seq<Tree>, spacing: real, flight: Flight, ease: nat)
    requires |ground| == |points|
    ensures |Smoothed(Lowest(points, ground, trees, spacing, flight), ease)| == |points|
  {}

  lemma Less(share: real, spacing: real)
    requires share < 1.0 && spacing > 0.0
    ensures share * spacing < spacing
  {
    assert (1.0 - share) * spacing > 0.0;
  }

  lemma SmoothedClears(points: seq<Point>, ground: seq<real>, trees: seq<Tree>, spacing: real, flight: Flight, ease: nat, i: nat, t: nat)
    requires |ground| == |points| && i < |points| && t < |trees| && Under(trees[t], points[i], spacing)
    ensures Top(trees[t], flight) <= Smoothed(Lowest(points, ground, trees, spacing, flight), ease)[i]
  {
    hide Under, Top;
    LowestClears(points[i], ground[i], trees, spacing, flight);
    NeverDips(Lowest(points, ground, trees, spacing, flight), ease, i);
  }

  // ---- Written out ----

  /** The value so many places after the `i`-th, or before it, round the ring. */
  function Off(values: seq<real>, i: nat, d: int): real
    requires values != []
  {
    values[(i + d) % |values|]
  }

  /** Round the ring, the largest of a value and those up to `reach` before and after it. */
  lemma WindowIs(values: seq<real>, reach: nat, i: nat)
    requires i < |values|
    ensures forall d: int | d <= reach && -d <= reach :: Off(values, i, d) <= RingMax(values, reach)[i]
    ensures exists d: int :: d <= reach && -d <= reach && Off(values, i, d) == RingMax(values, reach)[i]
  {
    hide Largest;
    var count := 2 * reach + 1;
    forall d: int | d <= reach && -d <= reach ensures Off(values, i, d) <= RingMax(values, reach)[i] {
      LargestIsBound(values, i - reach, count, i + d);
    }
    LargestIsThere(values, i - reach, count);
    var k :| i - reach <= k < i - reach + count && Largest(values, i - reach, count) == Round(values, k);
    assert Off(values, i, k - i) == RingMax(values, reach)[i];
  }

  /** A crown near enough to be flown over, its edge and one spacing more. */
  predicate CrownNear(tree: Tree, p: Point, spacing: real) {
    tree.leafRadius + spacing > 0.0 &&
    (p.x - tree.position.x) * (p.x - tree.position.x) + (p.z - tree.position.z) * (p.z - tree.position.z)
      < (tree.leafRadius + spacing) * (tree.leafRadius + spacing)
  }

  /** The height asked for is the greatest of the flight's own over the ground and its clearance over each crown near: at least each, and one of them. */
  lemma {:induction false} LowestExactly(p: Point, ground: real, trees: seq<Tree>, spacing: real, flight: Flight)
    ensures var low := LowestAt(p, ground, trees, spacing, flight);
            && ground + flight.height <= low
            && (forall t | 0 <= t < |trees| && CrownNear(trees[t], p, spacing) ::
                  trees[t].ground + trees[t].trunkHeight + trees[t].leafHeight + flight.treeClearance <= low)
            && (low == ground + flight.height
                || exists t :: 0 <= t < |trees| && CrownNear(trees[t], p, spacing)
                     && low == trees[t].ground + trees[t].trunkHeight + trees[t].leafHeight + flight.treeClearance)
  {
    if trees != [] {
      var n := |trees| - 1;
      var init := trees[..n];
      LowestExactly(p, ground, init, spacing, flight);
      assert Under(trees[n], p, spacing) <==> CrownNear(trees[n], p, spacing);
      hide Under, CrownNear;
      assert forall t | 0 <= t < n :: init[t] == trees[t];
    }
  }
}
