/**
  Places anchored on the terrain once and kept until the terrain changes
  (`src/game/game_state.cpp`, `src/game/course_session.cpp`, `src/core/app.cpp`). A
  revision counts the changes, and what is kept is keyed by it, in the game state and in
  the render caches outside. The ground is whatever it is.
*/
module AnchorCache {
  import opened Options

  datatype Vec = Vec(x: real, y: real, z: real)

  datatype Hole = Hole(tee: Vec, pin: Vec)

  /** What anchors depend on; `anchor` puts a place on the ground. */
  datatype Course = Course(anchor: Vec -> Vec, trees: seq<Vec>, holes: seq<Hole>, collectibles: seq<Vec>)

  datatype Cache = Cache(valid: bool, revision: nat, tees: seq<Vec>, pins: seq<Vec>, trees: seq<Vec>, collectibles: seq<Vec>)

  datatype State = State(course: Course, revision: nat, cache: Cache)

  const ORIGIN := Vec(0.0, 0.0, 0.0)
  const NO_CACHE := Cache(false, 0, [], [], [], [])

  /** A state newly made: no course yet. */
  function Made(ground: Vec -> Vec): State {
    State(Course(ground, [], [], []), 0, NO_CACHE)
  }

  function Build(course: Course, revision: nat): Cache {
    Cache(true, revision,
          seq(|course.holes|, k requires 0 <= k < |course.holes| => course.anchor(course.holes[k].tee)),
          seq(|course.holes|, k requires 0 <= k < |course.holes| => course.anchor(course.holes[k].pin)),
          course.trees,
          seq(|course.collectibles|, k requires 0 <= k < |course.collectibles| => course.anchor(course.collectibles[k])))
  }

  predicate IsCurrent(s: State) {
    s.cache.valid && s.cache.revision == s.revision
  }

  function Refresh(s: State): State {
    if IsCurrent(s) then s else s.(cache := Build(s.course, s.revision))
  }

  /** A course begun when its files load, or none. */
  function Begun(s: State, loaded: Option<Course>): State {
    match loaded
    case None => s
    case Some(course) => Refresh(State(course, s.revision + 1, s.cache))
  }

  /** A state that replaces one at revision `previous` goes on from there. */
  function Continue(s: State, previous: nat): State {
    if s.revision > previous then s
    else
      var keyed := s.(revision := previous + 1);
      if IsCurrent(s) then keyed.(cache := s.cache.(revision := previous + 1)) else Refresh(keyed)
  }

  /** Back to the menu: a new state takes the old one's place, and goes on from it once its course has loaded. */
  function ResetToMenu(s: State, ground: Vec -> Vec, loaded: Option<Course>): State {
    if loaded.None? then Made(ground) else Continue(Begun(Made(ground), loaded), s.revision)
  }

  function TeePosition(s: State, hole: nat): Vec {
    if IsCurrent(s) && hole < |s.cache.tees| then s.cache.tees[hole]
    else if hole < |s.course.holes| then s.course.anchor(s.course.holes[hole].tee) else ORIGIN
  }

  function PinPosition(s: State, hole: nat): Vec {
    if IsCurrent(s) && hole < |s.cache.pins| then s.cache.pins[hole]
    else if hole < |s.course.holes| then s.course.anchor(s.course.holes[hole].pin) else ORIGIN
  }

  // ---- Runs ----

  datatype Event =
    | Frame
    | Started(loaded: Option<Course>)
    | Reset(ground: Vec -> Vec, loaded: Option<Course>)

  function Apply(s: State, e: Event): State {
    match e
    case Frame => Refresh(s)
    case Started(loaded) => Begun(s, loaded)
    case Reset(ground, loaded) => ResetToMenu(s, ground, loaded)
  }

  function After(s: State, events: seq<Event>): State {
    if events == [] then s else Apply(After(s, events[..|events| - 1]), events[|events| - 1])
  }

  /** What is kept is never keyed ahead of the terrain, and under its own key it is what a fresh build gives. */
  ghost predicate Valid(s: State) {
    s.cache.valid ==> s.cache.revision <= s.revision && (IsCurrent(s) ==> s.cache == Build(s.course, s.revision))
  }

  lemma ApplyKeepsValid(s: State, e: Event)
    requires Valid(s)
    ensures Valid(Apply(s, e))
  {}

  lemma {:induction false} RunKeepsValid(ground: Vec -> Vec, events: seq<Event>)
    ensures Valid(After(Made(ground), events))
  {
    if events != [] {
      hide Apply, Valid;
      RunKeepsValid(ground, events[..|events| - 1]);
      ApplyKeepsValid(After(Made(ground), events[..|events| - 1]), events[|events| - 1]);
    }
  }

  /** Whether kept or not, kept for this terrain or for an older one: a lookup gives the hole's place on the ground as it is now. */
  lemma LookupUnseen(s: State, hole: nat)
    requires Valid(s)
    ensures TeePosition(s, hole) == (if hole < |s.course.holes| then s.course.anchor(s.course.holes[hole].tee) else Vec(0.0, 0.0, 0.0))
    ensures PinPosition(s, hole) == (if hole < |s.course.holes| then s.course.anchor(s.course.holes[hole].pin) else Vec(0.0, 0.0, 0.0))
  {}

  /** In every run a current cache is a fresh build, so no lookup can tell whether it was answered from it. */
  lemma CacheUnseen(ground: Vec -> Vec, events: seq<Event>, hole: nat)
    ensures var s := After(Made(ground), events);
            && (s.cache.valid && s.cache.revision == s.revision ==>
                  && |s.cache.tees| == |s.cache.pins| == |s.course.holes| && |s.cache.collectibles| == |s.course.collectibles|
                  && (forall k | 0 <= k < |s.course.holes| :: s.cache.tees[k] == s.course.anchor(s.course.holes[k].tee))
                  && (forall k | 0 <= k < |s.course.holes| :: s.cache.pins[k] == s.course.anchor(s.course.holes[k].pin))
                  && (forall k | 0 <= k < |s.course.collectibles| :: s.cache.collectibles[k] == s.course.anchor(s.course.collectibles[k]))
                  && s.cache.trees == s.course.trees)
            && TeePosition(s, hole) == (if hole < |s.course.holes| then s.course.anchor(s.course.holes[hole].tee) else ORIGIN)
            && PinPosition(s, hole) == (if hole < |s.course.holes| then s.course.anchor(s.course.holes[hole].pin) else ORIGIN)
  {
    RunKeepsValid(ground, events);
  }

  /** Right after a frame, or once a course has loaded, the cache is current, so nothing is resampled until the next change. */
  lemma CurrentAfter(ground: Vec -> Vec, events: seq<Event>, e: Event)
    requires e.Frame? || Loads(e)
    ensures var s := After(Made(ground), events + [e]); s.cache.valid && s.cache.revision == s.revision
  {
    AfterConcat(Made(ground), events, e);
  }

  // ---- Revisions as keys ----

  /** A course has loaded, into this state or into the one that takes its place. */
  predicate Loads(e: Event) {
    !e.Frame? && e.loaded.Some?
  }

  /**
    The revision rises exactly when a course loads. It falls, against what is said of it,
    when the menu's course does not load: the new state then starts from nothing.
  */
  lemma RevisionRises(s: State, e: Event)
    ensures Apply(s, e).revision > s.revision <==> Loads(e)
    ensures Apply(s, e).revision < s.revision <==> e.Reset? && !Loads(e) && s.revision > 0
    ensures Loads(e) ==> Apply(s, e).revision == s.revision + 1 && Apply(s, e).course == e.loaded.value
    ensures !Loads(e) && !e.Reset? ==> Apply(s, e).course == s.course && Apply(s, e).revision == s.revision
  {}

  /** No menu was gone back to whose course did not load. */
  predicate NoneFailed(events: seq<Event>) {
    forall k | 0 <= k < |events| && events[k].Reset? :: Loads(events[k])
  }

  lemma AfterConcat(s: State, events: seq<Event>, e: Event)
    ensures After(s, events + [e]) == Apply(After(s, events), e)
  {
    assert (events + [e])[..|events|] == events;
  }

  /** From any state on, a revision met again still stands for the same course. */
  lemma {:induction false} KeysTell(s: State, events: seq<Event>)
    requires NoneFailed(events)
    ensures s.revision <= After(s, events).revision
    ensures After(s, events).revision == s.revision ==> After(s, events).course == s.course
  {
    if events != [] {
      hide Apply;
      var n := |events| - 1;
      KeysTell(s, events[..n]);
      RevisionRises(After(s, events[..n]), events[n]);
    }
  }

  /** Once the menu's course has failed to load, one revision has stood for two courses. */
  lemma StaleKey(ground: Vec -> Vec, a: Course, b: Course)
    requires a != b
    ensures var first := After(Made(ground), [Started(Some(a))]);
            var last := After(Made(ground), [Started(Some(a)), Reset(ground, None), Started(Some(b))]);
            first.revision == last.revision && first.course != last.course
  {
    hide After, Build;
    var s0 := Made(ground);
    var started, failed, again := Started(Some(a)), Reset(ground, None), Started(Some(b));
    AfterNone(s0);
    AfterConcat(s0, [], started);
    AfterConcat(s0, [started], failed);
    AfterConcat(s0, [started, failed], again);
    assert [] + [started] == [started];
    assert [started] + [failed] == [started, failed] && [started, failed] + [again] == [started, failed, again];
  }

  lemma AfterNone(s: State)
    ensures After(s, []) == s
  {}

  // ---- As it runs ----

  class GameState {
    var course: Course
    var revision: nat
    var cache: Cache

    function Now(): State
      reads this
    {
      State(course, revision, cache)
    }

    constructor (ground: Vec -> Vec)
      ensures Now() == Made(ground)
    {
      course, revision, cache := Course(ground, [], [], []), 0, NO_CACHE;
    }

    predicate Current()
      reads this
      ensures Current() == IsCurrent(Now())
    {
      cache.valid && cache.revision == revision
    }

    method BuildStaticAnchors() returns (built: Cache)
      ensures built == Build(course, revision)
    {
      var tees, pins, collectibles := [], [], [];
      for k := 0 to |course.holes|
        invariant tees == Build(course, revision).tees[..k] && pins == Build(course, revision).pins[..k]
      {
        tees := tees + [course.anchor(course.holes[k].tee)];
        pins := pins + [course.anchor(course.holes[k].pin)];
      }
      for k := 0 to |course.collectibles|
        invariant collectibles == Build(course, revision).collectibles[..k]
      {
        collectibles := collectibles + [course.anchor(course.collectibles[k])];
      }
      return Cache(true, revision, tees, pins, course.trees, collectibles);
    }

    method RefreshStaticAnchors()
      modifies this
      ensures Now() == Refresh(old(Now()))
    {
      if !Current() {
        cache := BuildStaticAnchors();
      }
    }

    method MarkTerrainDirty()
      modifies this
      ensures Now() == Refresh(old(Now()).(revision := old(revision) + 1))
    {
      revision := revision + 1;
      RefreshStaticAnchors();
    }

    method StartCourse(loaded: Option<Course>) returns (ok: bool)
      modifies this
      ensures Now() == Begun(old(Now()), loaded) && ok == loaded.Some?
    {
      if loaded.None? {
        return false;
      }
      course := loaded.value;
      MarkTerrainDirty();
      return true;
    }

    method ContinueRevision(previous: nat)
      modifies this
      ensures Now() == Continue(old(Now()), previous)
    {
      if revision > previous {
        return;
      }
      var current := Current();
      revision := previous + 1;
      if current {
        cache := cache.(revision := revision);
      } else {
        RefreshStaticAnchors();
      }
    }

    method TeeAnchor(hole: nat) returns (place: Vec)
      ensures place == TeePosition(Now(), hole)
      ensures Valid(Now()) && hole < |course.holes| ==> place == course.anchor(course.holes[hole].tee)
    {
      if Current() && hole < |cache.tees| {
        return cache.tees[hole];
      }
      return if hole < |course.holes| then course.anchor(course.holes[hole].tee) else ORIGIN;
    }

    method PinAnchor(hole: nat) returns (place: Vec)
      ensures place == PinPosition(Now(), hole)
      ensures Valid(Now()) && hole < |course.holes| ==> place == course.anchor(course.holes[hole].pin)
    {
      if Current() && hole < |cache.pins| {
        return cache.pins[hole];
      }
      return if hole < |course.holes| then course.anchor(course.holes[hole].pin) else ORIGIN;
    }
  }

  /** The game's state replaced by a new one for the menu. */
  method BackToMenu(game: GameState, ground: Vec -> Vec, loaded: Option<Course>) returns (next: GameState, ok: bool)
    ensures next.Now() == ResetToMenu(game.Now(), ground, loaded) && ok == loaded.Some?
  {
    var previous := game.revision;
    next := new GameState(ground);
    ok := next.StartCourse(loaded);
    if ok {
      next.ContinueRevision(previous);
    }
  }
}
