/**
  One golfer's ball through an offline course (`src/game/course_session.cpp`,
  `src/game/address_play.cpp`, `src/game/game_state.cpp`): teed up, addressed, struck,
  played out, holed or given up. What a frame does depends on the mode, on the input and
  on what is in reach; the shot physics and the places of things are any at all.
*/
module BallLife {
  import opened Options

  datatype Place = Teed | AtRest | InCup

  datatype Ball = Ball(hole: nat, strokes: nat, place: Place)

  /** What the shot simulation gives. */
  datatype Result = Result(duration: real, holed: bool, penalty: nat)

  datatype Shot = Shot(result: Result, elapsed: real, followSeconds: real)

  datatype Mode = Walking | Addressing | FollowingShot

  /** What happened to the ball and the card, in order. */
  datatype Note = TeedUp(hole: nat) | Struck | Penalty(strokes: nat) | Scored(hole: nat, strokes: nat) | RoundStarted

  datatype Game = Game(
    practice: bool, round: seq<Option<nat>>, ball: Option<Ball>, shot: Option<Shot>, mode: Mode,
    swing: Option<real>, meter: Option<real>, prompt: Option<nat>, log: seq<Note>)

  /** The nearest thing in reach. */
  datatype Near = NearBall | NearCupBall | NearTee(index: nat) | NearOther

  /** A frame's input, and what the rest of the game answers in it; busy is riding, picking a club or handling the bag. */
  datatype Input = Input(
    dt: real, cancel: bool, interact: bool, busy: bool, near: Near, promptTeeNear: bool, onFoot: bool, hasClub: bool, bagOnBack: bool,
    swings: bool, swingsBack: bool, backSeconds: real, impactSeconds: real, struck: Result, followSeconds: real)

  predicate InPlay(g: Game) {
    g.ball.Some? && g.ball.value.place != InCup
  }

  predicate Played(round: seq<Option<nat>>, hole: nat) {
    hole < |round| && round[hole].Some?
  }

  predicate RoundFinished(round: seq<Option<nat>>) {
    round != [] && forall h | 0 <= h < |round| :: round[h].Some?
  }

  function NewRound(holes: nat): seq<Option<nat>> {
    seq(holes, _ => None)
  }

  function Noted(g: Game, n: Note): Game {
    g.(log := g.log + [n])
  }

  // ---- The operations ----

  function EndBallPlay(g: Game): Game {
    g.(shot := None, mode := Walking, swing := None, meter := None, prompt := None)
  }

  function StartCourse(g: Game, practice: bool, holes: nat): Game {
    Noted(EndBallPlay(g).(practice := practice, round := NewRound(holes), ball := None), RoundStarted)
  }

  predicate MayTeeUp(g: Game, hole: nat, giveUp: bool) {
    hole < |g.round| &&
    (g.practice || (!Played(g.round, hole) &&
                    (g.ball.None? || (g.ball.value.place != InCup && g.ball.value.hole != hole && giveUp))))
  }

  function TeeUp(g: Game, hole: nat, giveUp: bool): Game {
    if MayTeeUp(g, hole, giveUp) then Noted(EndBallPlay(g).(ball := Some(Ball(hole, 0, Teed))), TeedUp(hole)) else g
  }

  function CompleteHole(g: Game): Game {
    if !InPlay(g) then g
    else
      var ball := g.ball.value;
      var scored := if g.practice || ball.hole >= |g.round| then g
                    else Noted(g.(round := g.round[ball.hole := Some(ball.strokes)]), Scored(ball.hole, ball.strokes));
      EndBallPlay(scored).(ball := Some(ball.(place := InCup)))
  }

  function GiveUpHole(g: Game): Game {
    if !InPlay(g) then g else EndBallPlay(g).(ball := None)
  }

  function StartNextRound(g: Game): Game {
    if |g.round| == 0 || !RoundFinished(g.round) then g else Noted(g.(round := NewRound(|g.round|)), RoundStarted)
  }

  function StepUp(g: Game, input: Input): Game {
    if !input.hasClub || g.ball.None? || input.bagOnBack then g else g.(swing := None, meter := None, mode := Addressing)
  }

  function Launch(g: Game, input: Input): Game
    requires g.ball.Some?
  {
    var ball := g.ball.value;
    Noted(g.(mode := FollowingShot, shot := Some(Shot(input.struck, 0.0, input.followSeconds)), swing := None,
             ball := Some(ball.(strokes := ball.strokes + 1, place := AtRest))), Struck)
  }

  /** Whether the thing said to be nearest can be, as the game stands. */
  predicate CanBeNear(g: Game, near: Near) {
    match near
    case NearBall => g.ball.Some? && g.shot.None? && g.ball.value.place != InCup
    case NearCupBall => g.ball.Some? && g.shot.None? && g.ball.value.place == InCup
    case NearTee(i) => TeeOpen(g, i)
    case NearOther => true
  }

  predicate TeeOpen(g: Game, tee: nat) {
    tee < |g.round| && g.shot.None? &&
    (g.practice || (!Played(g.round, tee) && !(g.ball.Some? && g.ball.value.hole == tee)))
  }

  function TeeUpAndStep(g: Game, tee: nat, giveUp: bool, input: Input): Game {
    if MayTeeUp(g, tee, giveUp) then StepUp(TeeUp(g, tee, giveUp), input) else g
  }

  function Interact(g: Game, input: Input): Game {
    if !CanBeNear(g, input.near) then g
    else
      match input.near
      case NearBall => StepUp(g, input)
      case NearCupBall => g.(ball := None)
      case NearTee(i) => if InPlay(g) && !g.practice then g.(prompt := Some(i)) else TeeUpAndStep(g, i, g.practice, input)
      case NearOther => g
  }

  function Walk(g: Game, input: Input): Game {
    if input.busy then g
    else if g.prompt.None? then if input.interact then Interact(g, input) else g
    else
      var tee := g.prompt.value;
      var asked := g.(prompt := None);
      if !(input.promptTeeNear && TeeOpen(g, tee)) || !InPlay(g) || !input.onFoot then
        if input.interact then Interact(asked, input) else asked
      else if !input.interact then g
      else TeeUpAndStep(asked, tee, true, input)
  }

  function Address(g: Game, input: Input): Game
    requires g.ball.Some?
  {
    if !input.hasClub then g.(mode := Walking)
    else if g.swing.Some? then
      var swinging := g.(swing := Some(g.swing.value + input.dt));
      if swinging.swing.value >= input.impactSeconds then Launch(swinging, input) else swinging
    else if g.meter.Some? then
      if input.cancel then g.(meter := None)
      else if input.swings then g.(meter := None, swing := Some(input.backSeconds))
      else g.(meter := Some(g.meter.value + input.dt))
    else if input.swingsBack then g.(meter := Some(0.0))
    else g
  }

  /** The shot over, its penalty counted, the ball still in play. */
  function Rested(g: Game): Game
    requires g.shot.Some? && g.ball.Some?
  {
    var ball, penalty := g.ball.value, g.shot.value.result.penalty;
    var penalised := if penalty == 0 then g else Noted(g, Penalty(penalty));
    penalised.(ball := Some(ball.(strokes := ball.strokes + penalty)), shot := None, mode := Walking)
  }

  function PlayShot(g: Game, dt: real): Game
    requires g.shot.Some? ==> g.ball.Some?
  {
    if g.shot.None? then g
    else
      var shot := g.shot.value.(elapsed := g.shot.value.elapsed + dt);
      if shot.elapsed < shot.result.duration then
        g.(shot := Some(shot), mode := if g.mode == FollowingShot && shot.elapsed >= shot.followSeconds then Walking else g.mode)
      else
        var rested := Rested(g);
        if shot.result.holed then CompleteHole(rested) else rested
  }

  /** One frame, as the mode and the input have it; nothing is played once the round is finished. */
  function Frame(g: Game, input: Input): Game
    requires Consistent(g)
  {
    if RoundFinished(g.round) then g
    else if input.cancel && g.prompt.Some? then g.(prompt := None)
    else if input.cancel && g.mode == Addressing && g.swing.None? && g.meter.None? then g.(mode := Walking)
    else
      var moved := match g.mode
        case Walking => Walk(g, input)
        case Addressing => Address(g, input)
        case FollowingShot => g;
      PlayShot(moved, input.dt)
  }

  // ---- What every state keeps ----

  /** Ball, shot, mode and card fit together. */
  predicate Consistent(g: Game) {
    && (g.shot.Some? ==> InPlay(g))
    && (g.mode == Addressing ==> InPlay(g) && g.shot.None?)
    && (g.mode == FollowingShot ==> g.shot.Some?)
    && (InPlay(g) ==> g.ball.value.hole < |g.round| && (!g.practice ==> g.round[g.ball.value.hole].None?))
  }

  // ---- What the log says ----

  /** Strokes since the last tee-up: shots struck and penalties. */
  function SinceTee(log: seq<Note>): nat {
    if log == [] then 0
    else
      var before := SinceTee(log[..|log| - 1]);
      match log[|log| - 1]
      case TeedUp(_) => 0
      case Struck => before + 1
      case Penalty(strokes) => before + strokes
      case _ => before
  }

  /** The hole last teed up on. */
  function LastTee(log: seq<Note>): Option<nat> {
    if log == [] then None
    else
      match log[|log| - 1]
      case TeedUp(hole) => Some(hole)
      case _ => LastTee(log[..|log| - 1])
  }

  /** The hole's score since the round started. */
  function CardOf(log: seq<Note>, hole: nat): Option<nat> {
    if log == [] then None
    else
      match log[|log| - 1]
      case RoundStarted => None
      case Scored(h, strokes) => if h == hole then Some(strokes) else CardOf(log[..|log| - 1], hole)
      case _ => CardOf(log[..|log| - 1], hole)
  }

  /** The score entered after `before`: its own hole's strokes since its tee-up, and not scored yet this round. */
  predicate ScoreTrue(before: seq<Note>, n: Note) {
    n.Scored? ==> n.strokes == SinceTee(before) && LastTee(before) == Some(n.hole) && CardOf(before, n.hole) == None
  }

  predicate LogTrue(log: seq<Note>) {
    forall k | 0 <= k < |log| :: ScoreTrue(log[..k], log[k])
  }

  /** The card and the ball are what the log says. */
  predicate LogKept(g: Game) {
    && LogTrue(g.log)
    && (forall h | 0 <= h < |g.round| :: g.round[h] == CardOf(g.log, h))
    && (InPlay(g) ==> g.ball.value.strokes == SinceTee(g.log) && LastTee(g.log) == Some(g.ball.value.hole))
  }

  predicate Valid(g: Game) {
    Consistent(g) && LogKept(g)
  }

  lemma LogSnoc(log: seq<Note>, n: Note)
    requires LogTrue(log) && ScoreTrue(log, n)
    ensures LogTrue(log + [n])
    ensures SinceTee(log + [n]) == match n
                                   case TeedUp(_) => 0
                                   case Struck => SinceTee(log) + 1
                                   case Penalty(strokes) => SinceTee(log) + strokes
                                   case _ => SinceTee(log)
    ensures LastTee(log + [n]) == if n.TeedUp? then Some(n.hole) else LastTee(log)
    ensures forall h :: CardOf(log + [n], h) == match n
                                                case RoundStarted => None
                                                case Scored(hole, strokes) => if hole == h then Some(strokes) else CardOf(log, h)
                                                case _ => CardOf(log, h)
  {
    var all := log + [n];
    assert all[..|log|] == log;
    forall k | 0 <= k < |all| ensures ScoreTrue(all[..k], all[k]) {
      if k < |log| {
        assert all[..k] == log[..k] && ScoreTrue(log[..k], log[k]);
      }
    }
  }

  // ---- Every operation keeps it ----

  lemma TeeUpKeepsValid(g: Game, hole: nat, giveUp: bool)
    requires Valid(g)
    ensures Valid(TeeUp(g, hole, giveUp))
    ensures MayTeeUp(g, hole, giveUp) ==> InPlay(TeeUp(g, hole, giveUp)) && TeeUp(g, hole, giveUp).shot.None?
  {
    LogSnoc(g.log, TeedUp(hole));
  }

  lemma CompleteKeepsValid(g: Game)
    requires Valid(g)
    ensures Valid(CompleteHole(g))
    ensures InPlay(g) && !g.practice ==>
              CompleteHole(g).round == g.round[g.ball.value.hole := Some(SinceTee(g.log))] && !InPlay(CompleteHole(g))
  {
    if InPlay(g) && !g.practice {
      LogSnoc(g.log, Scored(g.ball.value.hole, g.ball.value.strokes));
    }
  }

  lemma GiveUpKeepsValid(g: Game)
    requires Valid(g)
    ensures Valid(GiveUpHole(g))
  {}

  lemma NextRoundKeepsValid(g: Game)
    requires Valid(g)
    ensures Valid(StartNextRound(g))
  {
    LogSnoc(g.log, RoundStarted);
  }

  lemma CourseKeepsValid(g: Game, practice: bool, holes: nat)
    requires Valid(g)
    ensures Valid(StartCourse(g, practice, holes))
  {
    LogSnoc(g.log, RoundStarted);
  }

  lemma StepUpKeepsValid(g: Game, input: Input)
    requires Valid(g) && InPlay(g) && g.shot.None?
    ensures Valid(StepUp(g, input))
  {}

  lemma TeeUpAndStepKeepsValid(g: Game, tee: nat, giveUp: bool, input: Input)
    requires Valid(g)
    ensures Valid(TeeUpAndStep(g, tee, giveUp, input))
  {
    hide Valid;
    TeeUpKeepsValid(g, tee, giveUp);
    if MayTeeUp(g, tee, giveUp) {
      StepUpKeepsValid(TeeUp(g, tee, giveUp), input);
    }
  }

  lemma InteractKeepsValid(g: Game, input: Input)
    requires Valid(g) && g.mode == Walking
    ensures Valid(Interact(g, input))
  {
    hide LogKept;
    match input.near
    case NearBall =>
      if CanBeNear(g, input.near) {
        StepUpKeepsValid(g, input);
      }
    case NearCupBall => PickUpKeepsLog(g);
    case NearTee(i) =>
      TeeUpAndStepKeepsValid(g, i, g.practice, input);
      PromptKeepsLog(g, Some(i));
    case NearOther =>
  }

  lemma PickUpKeepsLog(g: Game)
    requires LogKept(g)
    ensures LogKept(g.(ball := None))
  {}

  lemma PromptKeepsLog(g: Game, prompt: Option<nat>)
    requires LogKept(g)
    ensures LogKept(g.(prompt := prompt))
  {}

  lemma WalkKeepsValid(g: Game, input: Input)
    requires Valid(g) && g.mode == Walking
    ensures Valid(Walk(g, input))
  {
    hide LogKept, Interact, TeeUpAndStep;
    var asked := g.(prompt := None);
    PromptKeepsLog(g, None);
    InteractKeepsValid(g, input);
    InteractKeepsValid(asked, input);
    if g.prompt.Some? {
      TeeUpAndStepKeepsValid(asked, g.prompt.value, true, input);
    }
  }

  lemma LaunchKeepsValid(g: Game, input: Input)
    requires Valid(g) && g.mode == Addressing
    ensures Valid(Launch(g, input)) && InPlay(Launch(g, input))
  {
    LogSnoc(g.log, Struck);
  }

  lemma SwingKeepsLog(g: Game, mode: Mode, swing: Option<real>, meter: Option<real>)
    requires LogKept(g)
    ensures LogKept(g.(mode := mode, swing := swing, meter := meter))
  {}

  lemma AddressKeepsValid(g: Game, input: Input)
    requires Valid(g) && g.mode == Addressing
    ensures Valid(Address(g, input))
  {
    hide LogKept, Launch;
    var g' := Address(g, input);
    if g.swing.Some? && input.hasClub {
      var swinging := g.(swing := Some(g.swing.value + input.dt));
      SwingKeepsLog(g, g.mode, swinging.swing, g.meter);
      LaunchKeepsValid(swinging, input);
    } else {
      SwingKeepsLog(g, g'.mode, g'.swing, g'.meter);
    }
  }

  lemma RestedIsValid(g: Game)
    requires Valid(g) && g.shot.Some?
    ensures Valid(Rested(g))
  {
    LogSnoc(g.log, Penalty(g.shot.value.result.penalty));
  }

  lemma ShotKeepsLog(g: Game, shot: Option<Shot>, mode: Mode)
    requires LogKept(g)
    ensures LogKept(g.(shot := shot, mode := mode))
  {}

  lemma PlayShotKeepsValid(g: Game, dt: real)
    requires Valid(g)
    ensures Valid(PlayShot(g, dt))
  {
    hide LogKept, CompleteHole, Rested;
    if g.shot.Some? {
      var g' := PlayShot(g, dt);
      if g.shot.value.elapsed + dt < g.shot.value.result.duration {
        ShotKeepsLog(g, g'.shot, g'.mode);
      } else {
        RestedIsValid(g);
        CompleteKeepsValid(Rested(g));
      }
    }
  }

  lemma FrameKeepsValid(g: Game, input: Input)
    requires Valid(g)
    ensures Valid(Frame(g, input))
  {
    hide LogKept, Walk, Address, PlayShot;
    PromptKeepsLog(g, None);
    ModeKeepsLog(g, Walking);
    if g.mode == Walking {
      WalkKeepsValid(g, input);
      PlayShotKeepsValid(Walk(g, input), input.dt);
    } else if g.mode == Addressing {
      AddressKeepsValid(g, input);
      PlayShotKeepsValid(Address(g, input), input.dt);
    } else {
      PlayShotKeepsValid(g, input.dt);
    }
  }

  /** The same ball on the same hole, no stroke taken off. */
  predicate SameBall(g: Game, now: Game) {
    g.ball.Some? && now.ball.Some? && now.ball.value.hole == g.ball.value.hole && now.ball.value.strokes >= g.ball.value.strokes
  }

  /** The question asked at another tee answered: teed up there. */
  predicate AnsweredAtTee(g: Game, input: Input, now: Game) {
    g.mode == Walking && input.interact && input.promptTeeNear && g.prompt.Some? && now.ball == Some(Ball(g.prompt.value, 0, Teed))
    && now.shot.None? && (InPlay(g) ==> g.prompt.value != g.ball.value.hole)
  }

  lemma PlayShotStays(g: Game, dt: real)
    requires g.shot.Some? ==> InPlay(g)
    ensures g.ball.Some? ==> SameBall(g, PlayShot(g, dt))
    ensures g.shot.None? ==> PlayShot(g, dt) == g
  {}

  lemma InteractStays(g: Game, input: Input)
    requires InPlay(g) && !g.practice
    ensures Interact(g, input).ball == g.ball
  {}

  lemma WalkStays(g: Game, input: Input)
    requires InPlay(g) && !g.practice && g.mode == Walking
    ensures Walk(g, input).ball == g.ball || AnsweredAtTee(g, input, Walk(g, input))
  {
    hide Interact;
    InteractStays(g, input);
    InteractStays(g.(prompt := None), input);
  }

  /**
    No frame of a scored round takes a ball in play off its hole, or a stroke off its score,
    but the answer to the question asked at another tee.
  */
  lemma BallStays(g: Game, input: Input)
    requires Valid(g) && InPlay(g) && !g.practice
    ensures SameBall(g, Frame(g, input)) || AnsweredAtTee(g, input, Frame(g, input))
  {
    hide LogKept, Walk, Address, PlayShot;
    if g.mode == Walking {
      WalkStays(g, input);
      WalkKeepsValid(g, input);
      PlayShotStays(Walk(g, input), input.dt);
    } else if g.mode == Addressing {
      AddressStays(g, input);
      AddressKeepsValid(g, input);
      PlayShotStays(Address(g, input), input.dt);
    } else {
      PlayShotStays(g, input.dt);
    }
  }

  lemma AddressStays(g: Game, input: Input)
    requires g.ball.Some?
    ensures SameBall(g, Address(g, input))
  {}

  lemma ModeKeepsLog(g: Game, mode: Mode)
    requires LogKept(g)
    ensures LogKept(g.(mode := mode))
  {}

  lemma ValidShot(g: Game)
    requires Valid(g)
    ensures (g.shot.Some? ==> g.ball.Some?) && (g.mode == Addressing ==> g.ball.Some?)
  {}

  // ---- Runs ----

  datatype Event = InFrame(input: Input) | GaveUp | NextRound | Course(practice: bool, holes: nat)

  /** Before any course: nothing teed up, nothing scored. */
  const NOWHERE := Game(false, [], None, None, Walking, None, None, None, [])

  function Apply(g: Game, e: Event): Game
    requires Valid(g)
  {
    match e
    case InFrame(input) => Frame(g, input)
    case GaveUp => GiveUpHole(g)
    case NextRound => StartNextRound(g)
    case Course(practice, holes) => StartCourse(g, practice, holes)
  }

  lemma ApplyKeepsValid(g: Game, e: Event)
    requires Valid(g)
    ensures Valid(Apply(g, e))
  {
    hide Valid, Frame;
    match e
    case InFrame(input) => FrameKeepsValid(g, input);
    case GaveUp => GiveUpKeepsValid(g);
    case NextRound => NextRoundKeepsValid(g);
    case Course(practice, holes) => CourseKeepsValid(g, practice, holes);
  }

  function After(events: seq<Event>): (g: Game)
    ensures Valid(g)
  {
    if events == [] then NOWHERE
    else
      var before := After(events[..|events| - 1]);
      ApplyKeepsValid(before, events[|events| - 1]);
      Apply(before, events[|events| - 1])
  }

  /** In every reachable state, ball, shot, mode and card fit together. */
  lemma StateFits(events: seq<Event>)
    ensures var g := After(events);
            && (g.shot.Some? ==> InPlay(g))
            && (g.mode == Addressing ==> InPlay(g) && g.shot.None?)
            && (g.mode == FollowingShot ==> g.shot.Some?)
            && (InPlay(g) && !g.practice ==> !Played(g.round, g.ball.value.hole))
            && (InPlay(g) ==> g.ball.value.strokes == SinceTee(g.log) && LastTee(g.log) == Some(g.ball.value.hole))
  {
    var g := After(events);
    assert Consistent(g) && LogKept(g);
  }

  /** Every score is its hole's shots struck since that tee-up and their penalties, once a round; the card shows it. */
  lemma ScoresAreTrue(events: seq<Event>, k: nat)
    requires k < |After(events).log| && After(events).log[k].Scored?
    ensures var log := After(events).log;
            var hole := log[k].hole;
            && log[k].strokes == SinceTee(log[..k])
            && LastTee(log[..k]) == Some(hole)
            && (forall j | 0 <= j < k && log[j].Scored? && log[j].hole == hole :: exists m :: j < m < k && log[m].RoundStarted?)
            && (forall h | 0 <= h < |After(events).round| :: After(events).round[h] == CardOf(log, h))
  {
    var g := After(events);
    assert LogKept(g) && ScoreTrue(g.log[..k], g.log[k]);
    forall j | 0 <= j < k && g.log[j].Scored? && g.log[j].hole == g.log[k].hole
      ensures exists m :: j < m < k && g.log[m].RoundStarted?
    {
      CardCleared(g.log, j, k);
    }
  }

  /** A score is gone from the card only when a round has started since. */
  lemma {:induction false} CardCleared(log: seq<Note>, j: nat, k: nat)
    requires j < k <= |log| && log[j].Scored? && CardOf(log[..k], log[j].hole) == None
    ensures exists m :: j < m < k && log[m].RoundStarted?
    decreases k
  {
    var last := log[..k][k - 1];
    assert last == log[k - 1] && log[..k][..k - 1] == log[..k - 1];
    if !last.RoundStarted? {
      assert j < k - 1;
      CardCleared(log, j, k - 1);
    }
  }
}
