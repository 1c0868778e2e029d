/**
  Where floodlight poles stand (`src/game/floodlights.cpp`): round each wanted spot a
  search in growing rings takes the first open place whose beam is clear, and every pole
  keeps its distance from those already standing. The terrain, the trees and the beams
  are whatever they are; distances are compared by their squares.
*/
module Floodlights {
  import opened Options

  datatype Point = Point(x: real, z: real)

  datatype Rules = Rules(poleRadius: real, clearance: real, nudgeStep: real, nudgeTries: int)

  /** What holds of the ground whatever poles stand: open but for them, and a beam from a foot to a target clear. */
  datatype Site = Site(open: Point -> bool, beam: (Point, Point) -> bool, rules: Rules)

  datatype Light = Light(foot: Point, radius: real)

  /** One search for a pole: its centre, its two directions and what its beam must reach. */
  datatype Try = Try(spot: Point, outward: Point, along: Point, target: Point)

  /** A place of the search, so many steps out and so many to the side. */
  datatype Cell = Cell(out: nat, side: int)

  // ---- Keeping apart ----

  function SquaredDistance(a: Point, b: Point): real {
    (a.x - b.x) * (a.x - b.x) + (a.z - b.z) * (a.z - b.z)
  }

  /** At least `apart` from each other. */
  predicate Apart(a: Point, b: Point, apart: real) {
    apart <= 0.0 || SquaredDistance(a, b) >= apart * apart
  }

  predicate ClearOf(spot: Point, light: Light, rules: Rules) {
    Apart(spot, light.foot, light.radius + rules.poleRadius + rules.clearance)
  }

  predicate OpenGround(spot: Point, site: Site, placed: seq<Light>) {
    site.open(spot) && forall k | 0 <= k < |placed| :: ClearOf(spot, placed[k], site.rules)
  }

  /** All poles one size, pairwise two radii and the clearance apart. */
  predicate Separate(lights: seq<Light>, rules: Rules) {
    && (forall k | 0 <= k < |lights| :: lights[k].radius == rules.poleRadius)
    && (forall j, k | 0 <= j < |lights| && 0 <= k < |lights| && j != k ::
          Apart(lights[j].foot, lights[k].foot, 2.0 * rules.poleRadius + rules.clearance))
  }

  // ---- The search ----

  function Abs(n: int): nat {
    if n < 0 then -n else n
  }

  function Ring(c: Cell): nat {
    if c.out < Abs(c.side) then Abs(c.side) else c.out
  }

  function Tries(rules: Rules): nat {
    if rules.nudgeTries < 0 then 0 else rules.nudgeTries
  }

  function Candidate(where: Try, c: Cell, rules: Rules): Point {
    Point(where.spot.x + (where.outward.x * c.out as real + where.along.x * c.side as real) * rules.nudgeStep,
          where.spot.z + (where.outward.z * c.out as real + where.along.z * c.side as real) * rules.nudgeStep)
  }

  function Dot(a: Point, b: Point): real {
    a.x * b.x + a.z * b.z
  }

  /** Along crossing directions of length one, a cell lies as many steps out, and to the side, as it says. */
  lemma CandidateLies(where: Try, c: Cell, rules: Rules)
    requires Dot(where.outward, where.outward) == 1.0 && Dot(where.along, where.along) == 1.0 && Dot(where.outward, where.along) == 0.0
    ensures var p := Candidate(where, c, rules);
            var from := Point(p.x - where.spot.x, p.z - where.spot.z);
            Dot(from, where.outward) == c.out as real * rules.nudgeStep && Dot(from, where.along) == c.side as real * rules.nudgeStep
  {
    var o, s, n := c.out as real, c.side as real, rules.nudgeStep;
    var a, b := where.outward, where.along;
    var x, z := (a.x * o + b.x * s) * n, (a.z * o + b.z * s) * n;
    assert x * a.x + z * a.z == (o * (a.x * a.x + a.z * a.z) + s * (a.x * b.x + a.z * b.z)) * n;
    assert x * b.x + z * b.z == (o * (a.x * b.x + a.z * b.z) + s * (b.x * b.x + b.z * b.z)) * n;
  }

  /** A pole could stand at this cell and light its target. */
  predicate Good(c: Cell, where: Try, site: Site, placed: seq<Light>) {
    var spot := Candidate(where, c, site.rules);
    OpenGround(spot, site, placed) && site.beam(spot, where.target)
  }

  /** Tried before: in a smaller ring, or in the same ring less far out, or as far out and further to the negative side. */
  predicate Before(a: Cell, b: Cell) {
    || Ring(a) < Ring(b)
    || (Ring(a) == Ring(b) && (a.out < b.out || (a.out == b.out && a.side < b.side)))
  }

  predicate InReach(c: Cell, rules: Rules) {
    Ring(c) <= Tries(rules)
  }

  /** The first good cell, all before it not good. */
  ghost predicate IsFirstGood(c: Cell, where: Try, site: Site, placed: seq<Light>) {
    && InReach(c, site.rules) && Good(c, where, site, placed)
    && forall d: Cell | Before(d, c) :: !Good(d, where, site, placed)
  }

  /** The order is strict and total: no cell is tried twice, and any two are tried one after the other. */
  lemma OrderIsTotal(a: Cell, b: Cell, c: Cell)
    ensures !Before(a, a) && (a != b ==> Before(a, b) != Before(b, a)) && (Before(a, b) && Before(b, c) ==> Before(a, c))
  {}

  /** There is at most one first good cell, and no good cell lies in a smaller ring. */
  lemma FirstIsNearest(c: Cell, d: Cell, where: Try, site: Site, placed: seq<Light>)
    requires IsFirstGood(c, where, site, placed) && Good(d, where, site, placed)
    ensures Ring(c) <= Ring(d) && (IsFirstGood(d, where, site, placed) ==> c == d)
  {
    OrderIsTotal(c, d, c);
  }

  /** What the loops have tried when they come to `side` of `out` in `ring`. */
  predicate Passed(c: Cell, ring: nat, out: nat, side: int) {
    Ring(c) < ring || (Ring(c) == ring && (c.out < out || (c.out == out && c.side < side)))
  }

  ghost predicate Searched(tried: seq<Cell>, ring: nat, out: nat, side: int, where: Try, site: Site, placed: seq<Light>) {
    && (forall c: Cell :: c in tried <==> Passed(c, ring, out, side))
    && (forall j, k | 0 <= j < k < |tried| :: Before(tried[j], tried[k]))
    && (forall c: Cell | c in tried :: !Good(c, where, site, placed))
  }

  /** A place of another ring is passed over. */
  lemma PassOver(tried: seq<Cell>, ring: nat, out: nat, side: int, where: Try, site: Site, placed: seq<Light>)
    requires Searched(tried, ring, out, side, where, site, placed) && Ring(Cell(out, side)) != ring
    ensures Searched(tried, ring, out, side + 1, where, site, placed)
  {
    hide Good, Before;
  }

  /** A cell of the ring is tried once, after all tried before. */
  lemma TryCell(tried: seq<Cell>, ring: nat, out: nat, side: int, where: Try, site: Site, placed: seq<Light>)
    requires Searched(tried, ring, out, side, where, site, placed) && Ring(Cell(out, side)) == ring
    ensures var all := tried + [Cell(out, side)];
            && (forall c: Cell :: c in all <==> Passed(c, ring, out, side + 1))
            && (forall j, k | 0 <= j < k < |all| :: Before(all[j], all[k]))
    ensures forall d: Cell | Before(d, Cell(out, side)) :: !Good(d, where, site, placed)
  {
    hide Good;
    forall c | c in tried ensures Before(c, Cell(out, side)) {
      assert Passed(c, ring, out, side);
    }
    forall d: Cell | Before(d, Cell(out, side)) ensures !Good(d, where, site, placed) {
      assert Passed(d, ring, out, side);
    }
  }

  /** The end of one row is the start of the next, the end of one ring the start of the next. */
  lemma NextRowSearched(tried: seq<Cell>, ring: nat, out: nat, where: Try, site: Site, placed: seq<Light>)
    ensures Searched(tried, ring, out, ring + 1, where, site, placed) <==> Searched(tried, ring, out + 1, -(ring as int), where, site, placed)
    ensures Searched(tried, ring, ring + 1, -(ring as int), where, site, placed) <==> Searched(tried, ring + 1, 0, -((ring + 1) as int), where, site, placed)
  {
    hide Good, Before;
  }

  /**
    A pole near a spot. `tried` lists the cells tried, each once and in order. A pole is
    found exactly when some cell in reach is good, at the first such cell.
  */
  method PoleNear(where: Try, site: Site, placed: seq<Light>) returns (light: Option<Light>, ghost tried: seq<Cell>, ghost at: Cell)
    ensures light.Some? <==> exists c :: InReach(c, site.rules) && Good(c, where, site, placed)
    ensures light.Some? ==> IsFirstGood(at, where, site, placed)
                            && light.value == Light(Candidate(where, at, site.rules), site.rules.poleRadius)
    ensures forall j, k | 0 <= j < k < |tried| :: Before(tried[j], tried[k])
    ensures forall c: Cell :: c in tried <==> InReach(c, site.rules) && (light.Some? ==> !Before(at, c))
  {
    hide Before, Candidate, OpenGround;
    tried, at := [], Cell(0, 0);
    var ring: nat := 0;
    while ring <= Tries(site.rules)
      invariant ring <= Tries(site.rules) + 1
      invariant Searched(tried, ring, 0, -(ring as int), where, site, placed)
    {
      var out: nat := 0;
      while out <= ring
        invariant out <= ring + 1
        invariant Searched(tried, ring, out, -(ring as int), where, site, placed)
      {
        var side: int := -(ring as int);
        while side <= ring
          invariant 0 <= side + ring <= 2 * ring + 1
          invariant Searched(tried, ring, out, side, where, site, placed)
          decreases ring - side
        {
          if (if out < Abs(side) then Abs(side) else out) == ring {
            TryCell(tried, ring, out, side, where, site, placed);
            tried := tried + [Cell(out, side)];
            var candidate := Candidate(where, Cell(out, side), site.rules);
            if OpenGround(candidate, site, placed) && site.beam(candidate, where.target) {
              at := Cell(out, side);
              Found(tried, ring, at, site.rules);
              assert InReach(at, site.rules) && Good(at, where, site, placed);
              return Some(Light(candidate, site.rules.poleRadius)), tried, at;
            }
          } else {
            PassOver(tried, ring, out, side, where, site, placed);
          }
          side := side + 1;
        }
        NextRowSearched(tried, ring, out, where, site, placed);
        out := out + 1;
      }
      NextRowSearched(tried, ring, out, where, site, placed);
      ring := ring + 1;
    }
    light := None;
  }

  lemma Found(tried: seq<Cell>, ring: nat, at: Cell, rules: Rules)
    requires Ring(at) == ring <= Tries(rules)
    requires forall c: Cell :: c in tried <==> Passed(c, ring, at.out, at.side + 1)
    ensures forall c: Cell :: c in tried <==> InReach(c, rules) && !Before(at, c)
  {}

  // ---- One pole after the other ----

  ghost predicate HasGood(where: Try, site: Site, placed: seq<Light>) {
    exists c :: InReach(c, site.rules) && Good(c, where, site, placed)
  }

  /** Where the `k`-th of `tries` puts its pole, none before it having a place. */
  ghost predicate IsFirstPole(light: Light, tries: seq<Try>, k: nat, at: Cell, site: Site, placed: seq<Light>)
    requires k < |tries|
  {
    && (forall j | 0 <= j < k :: !HasGood(tries[j], site, placed))
    && IsFirstGood(at, tries[k], site, placed)
    && light == Light(Candidate(tries[k], at, site.rules), site.rules.poleRadius)
  }

  /** Each try searched in turn until one has a place. */
  method FirstPole(tries: seq<Try>, site: Site, placed: seq<Light>) returns (light: Option<Light>)
    ensures light.None? <==> forall k | 0 <= k < |tries| :: !HasGood(tries[k], site, placed)
    ensures light.Some? ==> exists k, at :: 0 <= k < |tries| && IsFirstPole(light.value, tries, k, at, site, placed)
  {
    hide Good, IsFirstGood, InReach;
    for k := 0 to |tries|
      invariant forall j | 0 <= j < k :: !HasGood(tries[j], site, placed)
    {
      ghost var tried, at;
      light, tried, at := PoleNear(tries[k], site, placed);
      if light.Some? {
        assert HasGood(tries[k], site, placed);
        assert IsFirstPole(light.value, tries, k, at, site, placed);
        return;
      }
    }
    return None;
  }

  /** One wanted pole put up, or left out when none of its tries has a place. */
  ghost predicate Served(before: seq<Light>, tries: seq<Try>, site: Site, after: seq<Light>) {
    if forall k | 0 <= k < |tries| :: !HasGood(tries[k], site, before) then after == before
    else exists light, k, at :: 0 <= k < |tries| && IsFirstPole(light, tries, k, at, site, before) && after == before + [light]
  }

  lemma ApartBothWays(a: Point, b: Point, apart: real)
    ensures Apart(a, b, apart) == Apart(b, a, apart)
  {
    var dx, dz := a.x - b.x, a.z - b.z;
    assert (-dx) * (-dx) == dx * dx && (-dz) * (-dz) == dz * dz;
    assert b.x - a.x == -dx && b.z - a.z == -dz;
  }

  lemma ServedKeepsApart(before: seq<Light>, tries: seq<Try>, site: Site, after: seq<Light>)
    requires Served(before, tries, site, after) && Separate(before, site.rules)
    ensures Separate(after, site.rules) && before <= after && |after| <= |before| + 1
  {
    hide Apart;
    if after != before {
      var light, k, at :| 0 <= k < |tries| && IsFirstPole(light, tries, k, at, site, before) && after == before + [light];
      assert Good(at, tries[k], site, before);
      forall j | 0 <= j < |before|
        ensures Apart(light.foot, before[j].foot, 2.0 * site.rules.poleRadius + site.rules.clearance)
        ensures Apart(before[j].foot, light.foot, 2.0 * site.rules.poleRadius + site.rules.clearance)
      {
        assert ClearOf(light.foot, before[j], site.rules);
        assert before[j].radius + site.rules.poleRadius + site.rules.clearance == 2.0 * site.rules.poleRadius + site.rules.clearance;
        ApartBothWays(light.foot, before[j].foot, 2.0 * site.rules.poleRadius + site.rules.clearance);
      }
    }
  }

  /** A hole's wanted poles: the tee's tries, the fairway's places in order, each side of the green's tries. */
  datatype HolePlan = HolePlan(tee: seq<Try>, fairway: seq<Try>, green: seq<seq<Try>>)

  function Wants(plan: HolePlan): seq<seq<Try>> {
    [plan.tee] + seq(|plan.fairway|, k requires 0 <= k < |plan.fairway| => [plan.fairway[k]]) + plan.green
  }

  function AllWants(plans: seq<HolePlan>): seq<seq<Try>> {
    if plans == [] then [] else AllWants(plans[..|plans| - 1]) + Wants(plans[|plans| - 1])
  }

  /** The lights as they stood before each wanted pole, and at last. */
  ghost predicate InTurn(stages: seq<seq<Light>>, wants: seq<seq<Try>>, site: Site) {
    && |stages| == |wants| + 1
    && forall k | 0 <= k < |wants| :: Served(stages[k], wants[k], site, stages[k + 1])
  }

  method Add(lights: seq<Light>, tries: seq<Try>, site: Site, ghost stages: seq<seq<Light>>, ghost wants: seq<seq<Try>>)
    returns (lights': seq<Light>, ghost stages': seq<seq<Light>>)
    requires InTurn(stages, wants, site) && stages[|wants|] == lights
    ensures InTurn(stages', wants + [tries], site) && |stages'| == |wants| + 2 && stages'[|wants| + 1] == lights' && stages <= stages'
    ensures Served(lights, tries, site, lights')
  {
    hide HasGood, IsFirstPole;
    var light := FirstPole(tries, site, lights);
    lights' := if light.Some? then lights + [light.value] else lights;
    stages' := stages + [lights'];
    forall k | 0 <= k < |wants + [tries]| ensures Served(stages'[k], (wants + [tries])[k], site, stages'[k + 1]) {
      if k < |wants| {
        assert Served(stages[k], wants[k], site, stages[k + 1]);
      }
    }
  }

  method PlaceHoleFloodlights(lights: seq<Light>, plan: HolePlan, site: Site, ghost stages: seq<seq<Light>>, ghost wants: seq<seq<Try>>)
    returns (lights': seq<Light>, ghost stages': seq<seq<Light>>)
    requires InTurn(stages, wants, site) && stages[|wants|] == lights
    ensures InTurn(stages', wants + Wants(plan), site) && stages'[|wants + Wants(plan)|] == lights' && stages <= stages'
    ensures |stages'| == |wants + Wants(plan)| + 1
  {
    hide InTurn, Served;
    ghost var all := wants + Wants(plan);
    lights', stages' := Add(lights, plan.tee, site, stages, wants);
    ghost var done := wants + [plan.tee];
    assert done == all[..|wants| + 1];
    for k := 0 to |plan.fairway|
      invariant done == all[..|wants| + 1 + k] && |done| == |wants| + 1 + k
      invariant InTurn(stages', done, site) && |stages'| == |done| + 1 && stages'[|done|] == lights' && stages <= stages'
    {
      lights', stages' := Add(lights', [plan.fairway[k]], site, stages', done);
      done := done + [[plan.fairway[k]]];
    }
    for k := 0 to |plan.green|
      invariant done == all[..|wants| + 1 + |plan.fairway| + k] && |done| == |wants| + 1 + |plan.fairway| + k
      invariant InTurn(stages', done, site) && |stages'| == |done| + 1 && stages'[|done|] == lights' && stages <= stages'
    {
      lights', stages' := Add(lights', plan.green[k], site, stages', done);
      done := done + [plan.green[k]];
    }
    assert done == all;
  }

  lemma {:induction false} StagesApart(stages: seq<seq<Light>>, wants: seq<seq<Try>>, site: Site, k: nat)
    requires InTurn(stages, wants, site) && stages[0] == [] && k <= |wants|
    ensures Separate(stages[k], site.rules) && |stages[k]| <= k
  {
    hide Served, Separate;
    if k > 0 {
      StagesApart(stages, wants, site, k - 1);
      assert Served(stages[k - 1], wants[k - 1], site, stages[k - 1 + 1]);
      ServedKeepsApart(stages[k - 1], wants[k - 1], site, stages[k]);
    } else {
      NoneApart(site.rules);
    }
  }

  lemma NoneApart(rules: Rules)
    ensures Separate([], rules)
  {}

  /** Every hole's poles: each wanted one served in turn, and all over the course kept apart. */
  method PlaceFloodlights(plans: seq<HolePlan>, site: Site) returns (lights: seq<Light>, ghost stages: seq<seq<Light>>)
    ensures InTurn(stages, AllWants(plans), site) && stages[0] == [] && stages[|AllWants(plans)|] == lights
    ensures Separate(lights, site.rules) && |lights| <= |AllWants(plans)|
  {
    hide Served, Separate;
    lights, stages := [], [[]];
    for i := 0 to |plans|
      invariant InTurn(stages, AllWants(plans[..i]), site) && stages[0] == [] && stages[|AllWants(plans[..i])|] == lights
    {
      lights, stages := PlaceHoleFloodlights(lights, plans[i], site, stages, AllWants(plans[..i]));
      assert plans[..i + 1][..i] == plans[..i];
    }
    assert plans[..|plans|] == plans;
    StagesApart(stages, AllWants(plans), site, |AllWants(plans)|);
  }

  // ---- Written out ----

  /** The place `out` steps outward and `side` along from a try's spot. */
  function Spot(where: Try, out: int, side: int, step: real): Point {
    Point(where.spot.x + (where.outward.x * out as real + where.along.x * side as real) * step,
          where.spot.z + (where.outward.z * out as real + where.along.z * side as real) * step)
  }

  /** A pole may stand here and light its target: open ground, as far as asked from every pole standing, and a clear beam. */
  predicate MayStand(spot: Point, target: Point, site: Site, placed: seq<Light>) {
    && site.open(spot) && site.beam(spot, target)
    && forall k | 0 <= k < |placed| ::
         var apart := placed[k].radius + site.rules.poleRadius + site.rules.clearance;
         var dx, dz := spot.x - placed[k].foot.x, spot.z - placed[k].foot.z;
         apart <= 0.0 || dx * dx + dz * dz >= apart * apart
  }

  /** Some place at most so many steps out, or either way along, where a pole may stand. */
  ghost predicate HasPlace(where: Try, site: Site, placed: seq<Light>) {
    exists out: int, side: int ::
      0 <= out && (out == 0 || out <= site.rules.nudgeTries) && (side == 0 || -site.rules.nudgeTries <= side <= site.rules.nudgeTries)
      && MayStand(Spot(where, out, side, site.rules.nudgeStep), where.target, site, placed)
  }

  lemma GoodIs(c: Cell, where: Try, site: Site, placed: seq<Light>)
    ensures Spot(where, c.out, c.side, site.rules.nudgeStep) == Candidate(where, c, site.rules)
    ensures Good(c, where, site, placed) <==> MayStand(Candidate(where, c, site.rules), where.target, site, placed)
  {
    var spot := Candidate(where, c, site.rules);
    forall k | 0 <= k < |placed|
      ensures ClearOf(spot, placed[k], site.rules) <==>
              var apart := placed[k].radius + site.rules.poleRadius + site.rules.clearance;
              var dx, dz := spot.x - placed[k].foot.x, spot.z - placed[k].foot.z;
              apart <= 0.0 || dx * dx + dz * dz >= apart * apart
    {}
  }

  lemma InReachIs(c: Cell, rules: Rules)
    ensures InReach(c, rules) <==> (c.out == 0 || c.out <= rules.nudgeTries) && (c.side == 0 || -rules.nudgeTries <= c.side <= rules.nudgeTries)
  {}

  lemma HasGoodIs(where: Try, site: Site, placed: seq<Light>)
    ensures HasGood(where, site, placed) <==> HasPlace(where, site, placed)
  {
    hide Good, MayStand, Spot, InReach;
    if c :| InReach(c, site.rules) && Good(c, where, site, placed) {
      GoodIs(c, where, site, placed);
      InReachIs(c, site.rules);
      var out: int := c.out;
      assert MayStand(Spot(where, out, c.side, site.rules.nudgeStep), where.target, site, placed);
    }
    if out: int, side: int :|
      0 <= out && (out == 0 || out <= site.rules.nudgeTries) && (side == 0 || -site.rules.nudgeTries <= side <= site.rules.nudgeTries)
      && MayStand(Spot(where, out, side, site.rules.nudgeStep), where.target, site, placed) {
      GoodIs(Cell(out, side), where, site, placed);
      InReachIs(Cell(out, side), site.rules);
    }
  }

  /** A wanted pole goes up exactly when one of its tries has a place, and then where one may stand for the first such try. */
  lemma ServedExactly(before: seq<Light>, tries: seq<Try>, site: Site, after: seq<Light>)
    requires Served(before, tries, site, after)
    ensures if forall k | 0 <= k < |tries| :: !HasPlace(tries[k], site, before) then after == before
            else exists k, foot :: 0 <= k < |tries| && MayStand(foot, tries[k].target, site, before)
                                   && (forall j | 0 <= j < k :: !HasPlace(tries[j], site, before))
                                   && after == before + [Light(foot, site.rules.poleRadius)]
  {
    hide HasGood, HasPlace, MayStand, Good, Candidate, Spot;
    forall k | 0 <= k < |tries| ensures HasGood(tries[k], site, before) <==> HasPlace(tries[k], site, before) {
      HasGoodIs(tries[k], site, before);
    }
    if !(forall k | 0 <= k < |tries| :: !HasPlace(tries[k], site, before)) {
      var light, k, at :| 0 <= k < |tries| && IsFirstPole(light, tries, k, at, site, before) && after == before + [light];
      GoodIs(at, tries[k], site, before);
      assert MayStand(light.foot, tries[k].target, site, before);
    }
  }

  /** All over the course, poles stand on open ground with a clear beam to what they light, two radii and the clearance from each other. */
  lemma StandingPoles(stages: seq<seq<Light>>, wants: seq<seq<Try>>, site: Site)
    requires InTurn(stages, wants, site) && stages[0] == []
    ensures var lights := stages[|wants|];
            && (forall j | 0 <= j < |lights| :: site.open(lights[j].foot) && lights[j].radius == site.rules.poleRadius && Lights(lights[j].foot, wants, site))
            && forall j, k | 0 <= j < |lights| && 0 <= k < |lights| && j != k ::
                 var apart := 2.0 * site.rules.poleRadius + site.rules.clearance;
                 var dx, dz := lights[j].foot.x - lights[k].foot.x, lights[j].foot.z - lights[k].foot.z;
                 apart <= 0.0 || dx * dx + dz * dz >= apart * apart
  {
    hide Served, Lights;
    StagesApart(stages, wants, site, |wants|);
    StagesStand(stages, wants, site, |wants|);
  }

  /** A clear beam to the target of one of what is wanted. */
  ghost predicate Lights(foot: Point, wants: seq<seq<Try>>, site: Site) {
    exists w, t :: 0 <= w < |wants| && 0 <= t < |wants[w]| && site.beam(foot, wants[w][t].target)
  }

  lemma {:induction false} StagesStand(stages: seq<seq<Light>>, wants: seq<seq<Try>>, site: Site, k: nat)
    requires InTurn(stages, wants, site) && stages[0] == [] && k <= |wants|
    ensures forall j | 0 <= j < |stages[k]| :: site.open(stages[k][j].foot) && Lights(stages[k][j].foot, wants, site)
  {
    if k > 0 {
      hide Served, HasPlace;
      StagesStand(stages, wants, site, k - 1);
      var before, after := stages[k - 1], stages[k];
      assert Served(before, wants[k - 1], site, stages[k - 1 + 1]);
      ServedExactly(before, wants[k - 1], site, after);
      if after != before {
        var t, foot :| 0 <= t < |wants[k - 1]| && MayStand(foot, wants[k - 1][t].target, site, before)
                       && after == before + [Light(foot, site.rules.poleRadius)];
        assert Lights(foot, wants, site);
      }
    }
  }

  /** Each hole's wanted poles, in turn: its tee's, its fairway's one by one, its green's. */
  lemma WantsAre(plans: seq<HolePlan>, h: nat)
    requires h < |plans|
    ensures var wants, from, plan := AllWants(plans[..h + 1]), |AllWants(plans[..h])|, plans[h];
            && |wants| == from + 1 + |plan.fairway| + |plan.green|
            && wants[from] == plan.tee
            && (forall i | 0 <= i < |plan.fairway| :: wants[from + 1 + i] == [plan.fairway[i]])
            && (forall i | 0 <= i < |plan.green| :: wants[from + 1 + |plan.fairway| + i] == plan.green[i])
  {
    assert plans[..h + 1][..h] == plans[..h];
  }
}
