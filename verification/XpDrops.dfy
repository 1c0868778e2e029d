/**
  Experience shown as it is earned (`src/game/mode_dispatch.cpp`, `src/game/game_state.cpp`):
  gains too small to show are pooled by skill until they add up, and a drop stays on
  screen for its time. Nothing earned is lost or shown twice.
*/
module XpDrops {
  datatype Gain = Gain(skill: string, xp: int)

  datatype Drop = Drop(skill: string, xp: int, age: real)

  datatype Screen = Screen(drops: seq<Drop>, pending: map<string, int>)

  const NOTHING := Screen([], map[])

  function Pending(s: Screen, skill: string): int {
    if skill in s.pending then s.pending[skill] else 0
  }

  /** Onto the skill's drop, which stays on screen anew, or as a new drop. */
  function Queue(drops: seq<Drop>, skill: string, xp: int): seq<Drop> {
    if drops == [] then [Drop(skill, xp, 0.0)]
    else if drops[0].skill == skill then [Drop(skill, drops[0].xp + xp, 0.0)] + drops[1..]
    else [drops[0]] + Queue(drops[1..], skill, xp)
  }

  function Award(s: Screen, gain: Gain, minVisible: int): Screen {
    var pending := Pending(s, gain.skill) + gain.xp;
    if pending >= minVisible
    then Screen(Queue(s.drops, gain.skill, pending), s.pending[gain.skill := 0])
    else s.(pending := s.pending[gain.skill := pending])
  }

  function Show(s: Screen, gains: seq<Gain>, minVisible: int): Screen {
    if gains == [] then s else Award(Show(s, gains[..|gains| - 1], minVisible), gains[|gains| - 1], minVisible)
  }

  function Aged(drop: Drop, dt: real): Drop {
    drop.(age := drop.age + if dt > 0.0 then dt else 0.0)
  }

  /** All grown older, those past their time gone. */
  function Age(drops: seq<Drop>, dt: real, lifetime: real): seq<Drop> {
    if drops == [] then []
    else (if Aged(drops[0], dt).age >= lifetime then [] else [Aged(drops[0], dt)]) + Age(drops[1..], dt, lifetime)
  }

  // ---- Runs ----

  datatype Event = Gained(gains: seq<Gain>) | Frame(dt: real) | CourseStarted

  datatype Tuning = Tuning(minVisible: int, lifetime: real)

  function Apply(s: Screen, e: Event, tuning: Tuning): Screen {
    match e
    case Gained(gains) => Show(s, gains, tuning.minVisible)
    case Frame(dt) => s.(drops := Age(s.drops, dt, tuning.lifetime))
    case CourseStarted => NOTHING
  }

  function After(events: seq<Event>, tuning: Tuning): Screen {
    if events == [] then NOTHING else Apply(After(events[..|events| - 1], tuning), events[|events| - 1], tuning)
  }

  // ---- What was earned, and where it is ----

  function Total(gains: seq<Gain>, skill: string): int {
    if gains == [] then 0
    else Total(gains[..|gains| - 1], skill) + if gains[|gains| - 1].skill == skill then gains[|gains| - 1].xp else 0
  }

  /** All a skill ever earned. */
  function Earned(events: seq<Event>, skill: string): int {
    if events == [] then 0
    else Earned(events[..|events| - 1], skill) + if events[|events| - 1].Gained? then Total(events[|events| - 1].gains, skill) else 0
  }

  function OnScreen(drops: seq<Drop>, skill: string): int {
    if drops == [] then 0 else (if drops[0].skill == skill then drops[0].xp else 0) + OnScreen(drops[1..], skill)
  }

  /** What the drops whose time a frame ends show. */
  function Ending(drops: seq<Drop>, dt: real, lifetime: real, skill: string): int {
    if drops == [] then 0
    else (if drops[0].skill == skill && Aged(drops[0], dt).age >= lifetime then drops[0].xp else 0) + Ending(drops[1..], dt, lifetime, skill)
  }

  /** All a skill has had on screen to the end of its time, or cleared away with a course. */
  function Gone(events: seq<Event>, tuning: Tuning, skill: string): int {
    if events == [] then 0
    else
      var before := After(events[..|events| - 1], tuning);
      Gone(events[..|events| - 1], tuning, skill) +
      match events[|events| - 1]
      case Gained(_) => 0
      case Frame(dt) => Ending(before.drops, dt, tuning.lifetime, skill)
      case CourseStarted => OnScreen(before.drops, skill) + Pending(before, skill)
  }

  // ---- Conservation ----

  lemma {:induction false} QueueAdds(drops: seq<Drop>, skill: string, xp: int, other: string)
    ensures OnScreen(Queue(drops, skill, xp), other) == OnScreen(drops, other) + if other == skill then xp else 0
  {
    if drops != [] {
      QueueAdds(drops[1..], skill, xp, other);
      var queued := Queue(drops, skill, xp);
      assert queued[1..] == if drops[0].skill == skill then drops[1..] else Queue(drops[1..], skill, xp);
    }
  }

  lemma {:induction false} AgeTakes(drops: seq<Drop>, dt: real, lifetime: real, skill: string)
    ensures OnScreen(Age(drops, dt, lifetime), skill) == OnScreen(drops, skill) - Ending(drops, dt, lifetime, skill)
  {
    if drops != [] {
      AgeTakes(drops[1..], dt, lifetime, skill);
      var rest, first := Age(drops[1..], dt, lifetime), Aged(drops[0], dt);
      assert ([first] + rest)[1..] == rest && [] + rest == rest;
    }
  }

  lemma {:induction false} ShowAdds(s: Screen, gains: seq<Gain>, minVisible: int, skill: string)
    ensures var s' := Show(s, gains, minVisible);
            OnScreen(s'.drops, skill) + Pending(s', skill) == OnScreen(s.drops, skill) + Pending(s, skill) + Total(gains, skill)
  {
    if gains != [] {
      hide OnScreen, Queue;
      var gain := gains[|gains| - 1];
      ShowAdds(s, gains[..|gains| - 1], minVisible, skill);
      var before := Show(s, gains[..|gains| - 1], minVisible);
      QueueAdds(before.drops, gain.skill, Pending(before, gain.skill) + gain.xp, skill);
    }
  }

  /** All a skill earned is on screen, pending, or gone from the screen: in every run, whatever is earned. */
  lemma {:induction false} Conserved(events: seq<Event>, tuning: Tuning, skill: string)
    ensures var s := After(events, tuning);
            Earned(events, skill) == OnScreen(s.drops, skill) + Pending(s, skill) + Gone(events, tuning, skill)
  {
    if events != [] {
      hide OnScreen, Show, Total, Age, Ending;
      Conserved(events[..|events| - 1], tuning, skill);
      var before := After(events[..|events| - 1], tuning);
      match events[|events| - 1]
      case Gained(gains) => ShowAdds(before, gains, tuning.minVisible, skill);
      case Frame(dt) => AgeTakes(before.drops, dt, tuning.lifetime, skill);
      case CourseStarted => NothingShown(skill);
    }
  }

  lemma NothingShown(skill: string)
    ensures OnScreen([], skill) == 0
  {}

  // ---- What is shown ----

  /** One drop a skill, each large enough to show; what is pending is too small to. */
  predicate Fits(s: Screen, minVisible: int) {
    && (forall j, k | 0 <= j < k < |s.drops| :: s.drops[j].skill != s.drops[k].skill)
    && (forall k | 0 <= k < |s.drops| :: s.drops[k].xp >= minVisible && s.drops[k].xp >= 0)
    && (forall skill | skill in s.pending :: 0 <= s.pending[skill] && (s.pending[skill] < minVisible || s.pending[skill] == 0))
  }

  /** The first drop of the skill grows in place, or a new one stands last. */
  lemma {:induction false} QueueAt(drops: seq<Drop>, skill: string, xp: int) returns (k: nat)
    ensures k <= |drops| && forall j | 0 <= j < k :: drops[j].skill != skill
    ensures k < |drops| ==> drops[k].skill == skill && Queue(drops, skill, xp) == drops[k := Drop(skill, drops[k].xp + xp, 0.0)]
    ensures k == |drops| ==> Queue(drops, skill, xp) == drops + [Drop(skill, xp, 0.0)]
  {
    if drops == [] || drops[0].skill == skill {
      k := 0;
    } else {
      var m := QueueAt(drops[1..], skill, xp);
      k := m + 1;
    }
  }

  lemma AwardFits(s: Screen, gain: Gain, minVisible: int)
    requires Fits(s, minVisible) && gain.xp >= 0
    ensures Fits(Award(s, gain, minVisible), minVisible)
  {
    hide Queue;
    var k := QueueAt(s.drops, gain.skill, Pending(s, gain.skill) + gain.xp);
  }

  lemma {:induction false} AgeFits(drops: seq<Drop>, dt: real, lifetime: real, minVisible: int)
    requires Fits(Screen(drops, map[]), minVisible)
    ensures Fits(Screen(Age(drops, dt, lifetime), map[]), minVisible)
    ensures forall k | 0 <= k < |Age(drops, dt, lifetime)| ::
              exists j :: 0 <= j < |drops| && drops[j].skill == Age(drops, dt, lifetime)[k].skill
  {
    if drops != [] {
      var rest, aged := drops[1..], Age(drops, dt, lifetime);
      AgeFits(rest, dt, lifetime, minVisible);
      forall k | 0 <= k < |aged| ensures exists j :: 0 <= j < |drops| && drops[j].skill == aged[k].skill {
        var first := |aged| - |Age(rest, dt, lifetime)|;
        if k < first {
          assert drops[0].skill == aged[k].skill;
        } else {
          var j :| 0 <= j < |rest| && rest[j].skill == Age(rest, dt, lifetime)[k - first].skill;
          assert drops[j + 1].skill == aged[k].skill;
        }
      }
    }
  }

  lemma {:induction false} ShowFits(s: Screen, gains: seq<Gain>, minVisible: int)
    requires Fits(s, minVisible) && forall k | 0 <= k < |gains| :: gains[k].xp >= 0
    ensures Fits(Show(s, gains, minVisible), minVisible)
  {
    if gains != [] {
      hide Award, Fits;
      ShowFits(s, gains[..|gains| - 1], minVisible);
      AwardFits(Show(s, gains[..|gains| - 1], minVisible), gains[|gains| - 1], minVisible);
    }
  }

  /** Where nothing is ever taken away, every state shows one drop a skill at most and keeps pending only what is too small. */
  lemma {:induction false} AlwaysFits(events: seq<Event>, tuning: Tuning)
    requires forall k, j | 0 <= k < |events| && events[k].Gained? && 0 <= j < |events[k].gains| :: events[k].gains[j].xp >= 0
    ensures Fits(After(events, tuning), tuning.minVisible)
  {
    if events != [] {
      hide Show, Age;
      AlwaysFits(events[..|events| - 1], tuning);
      var before := After(events[..|events| - 1], tuning);
      match events[|events| - 1]
      case Gained(gains) => ShowFits(before, gains, tuning.minVisible);
      case Frame(dt) => AgeFits(before.drops, dt, tuning.lifetime, tuning.minVisible);
      case CourseStarted =>
    }
  }

  lemma AgeStep(kept: seq<Drop>, drops: seq<Drop>, k: nat, dt: real, lifetime: real)
    requires k < |drops|
    ensures kept + Age(drops[k..], dt, lifetime)
            == (if Aged(drops[k], dt).age < lifetime then kept + [Aged(drops[k], dt)] else kept) + Age(drops[k + 1..], dt, lifetime)
  {
    assert drops[k..][1..] == drops[k + 1..];
  }

  lemma AgeNone(dt: real, lifetime: real)
    ensures Age([], dt, lifetime) == []
  {}

  lemma QueueStep(drops: seq<Drop>, k: nat, skill: string, xp: int)
    requires k < |drops|
    ensures drops[..k] + Queue(drops[k..], skill, xp)
            == if drops[k].skill == skill then drops[k := Drop(skill, drops[k].xp + xp, 0.0)]
               else drops[..k + 1] + Queue(drops[k + 1..], skill, xp)
  {
    assert drops[k..][1..] == drops[k + 1..];
  }

  lemma QueueNone(skill: string, xp: int)
    ensures Queue([], skill, xp) == [Drop(skill, xp, 0.0)]
  {}

  // ---- As it runs ----

  class XpState {
    var drops: seq<Drop>
    var pending: map<string, int>

    function State(): Screen
      reads this
    {
      Screen(drops, pending)
    }

    constructor ()
      ensures State() == NOTHING
    {
      drops, pending := [], map[];
    }

    method QueueXpDrop(skill: string, xp: int)
      modifies this
      ensures State() == old(State()).(drops := Queue(old(drops), skill, xp))
    {
      hide Queue;
      assert drops[0..] == drops;
      for k := 0 to |drops|
        invariant drops == old(drops) && pending == old(pending)
        invariant Queue(drops, skill, xp) == drops[..k] + Queue(drops[k..], skill, xp)
      {
        QueueStep(drops, k, skill, xp);
        if drops[k].skill == skill {
          drops := drops[k := Drop(skill, drops[k].xp + xp, 0.0)];
          return;
        }
      }
      QueueNone(skill, xp);
      assert drops[..|drops|] == drops && drops[|drops|..] == [];
      drops := drops + [Drop(skill, xp, 0.0)];
    }

    method ShowAwardedXp(gains: seq<Gain>, minVisible: int)
      modifies this
      ensures State() == Show(old(State()), gains, minVisible)
    {
      for k := 0 to |gains|
        invariant State() == Show(old(State()), gains[..k], minVisible)
      {
        assert gains[..k + 1][..k] == gains[..k];
        var gain := gains[k];
        var amount := (if gain.skill in pending then pending[gain.skill] else 0) + gain.xp;
        pending := pending[gain.skill := amount];
        if amount >= minVisible {
          QueueXpDrop(gain.skill, amount);
          pending := pending[gain.skill := 0];
          assert old(pending)[gain.skill := amount][gain.skill := 0] == old(pending)[gain.skill := 0];
        }
      }
      assert gains[..|gains|] == gains;
    }

    method UpdateXpDrops(dt: real, lifetime: real)
      modifies this
      ensures State() == old(State()).(drops := Age(old(drops), dt, lifetime))
    {
      hide Age;
      var kept := [];
      assert drops[0..] == drops;
      for k := 0 to |drops|
        invariant drops == old(drops) && pending == old(pending)
        invariant Age(drops, dt, lifetime) == kept + Age(drops[k..], dt, lifetime)
      {
        AgeStep(kept, drops, k, dt, lifetime);
        var aged := Aged(drops[k], dt);
        if aged.age < lifetime {
          kept := kept + [aged];
        }
      }
      AgeNone(dt, lifetime);
      assert drops[|drops|..] == [] && kept + [] == kept;
      drops := kept;
    }

    method StartCourse()
      modifies this
      ensures State() == NOTHING
    {
      drops, pending := [], map[];
    }
  }

  /** A frame leaves exactly the drops whose age, its time added, is still below their lifetime; a negative time adds nothing. */
  lemma {:induction false} AgesExactly(drops: seq<Drop>, dt: real, lifetime: real, drop: Drop)
    ensures drop in Age(drops, dt, lifetime) <==>
            drop.age < lifetime && Drop(drop.skill, drop.xp, if dt > 0.0 then drop.age - dt else drop.age) in drops
  {
    if drops != [] {
      AgesExactly(drops[1..], dt, lifetime, drop);
      assert drops == [drops[0]] + drops[1..];
    }
  }
}
