/**
  A golfer's ball, shot and card as the game holds them, updated in place frame by frame.
  Each method does what the function of its name in `BallLife` says; the log of what
  happened is kept for the proofs alone.
*/
module CourseState {
  import opened Options
  import B = BallLife

  class GameState {
    var practice: bool
    var round: seq<Option<nat>>
    var ball: Option<B.Ball>
    var shot: Option<B.Shot>
    var mode: B.Mode
    var swing: Option<real>
    var meter: Option<real>
    var prompt: Option<nat>
    ghost var log: seq<B.Note>

    ghost function State(): B.Game
      reads this
    {
      B.Game(practice, round, ball, shot, mode, swing, meter, prompt, log)
    }

    predicate BallInPlay()
      reads this
    {
      ball.Some? && ball.value.place != B.InCup
    }

    predicate TeeOpen(tee: nat)
      reads this
      ensures TeeOpen(tee) == B.TeeOpen(State(), tee)
    {
      tee < |round| && shot.None? && (practice || (round[tee].None? && !(ball.Some? && ball.value.hole == tee)))
    }

    predicate CanBeNear(near: B.Near)
      reads this
      ensures CanBeNear(near) == B.CanBeNear(State(), near)
    {
      match near
      case NearBall => BallInPlay() && shot.None?
      case NearCupBall => ball.Some? && shot.None? && ball.value.place == B.InCup
      case NearTee(tee) => TeeOpen(tee)
      case NearOther => true
    }

    constructor ()
      ensures State() == B.NOWHERE
    {
      practice, round, ball, shot, mode := false, [], None, None, B.Walking;
      swing, meter, prompt, log := None, None, None, [];
    }

    method EndBallPlay()
      modifies this
      ensures State() == B.EndBallPlay(old(State()))
    {
      shot := None;
      mode := B.Walking;
      swing, meter := None, None;
      prompt := None;
    }

    method StartCourse(practice: bool, holes: nat)
      modifies this
      ensures State() == B.StartCourse(old(State()), practice, holes)
    {
      this.practice := practice;
      round := seq(holes, _ => None);
      log := log + [B.RoundStarted];
      ball := None;
      EndBallPlay();
    }

    /** Refused for a hole not on the course or already scored, a ball in its cup, or a ball in play not given up. */
    method TeeUp(hole: nat, giveUp: bool) returns (ok: bool)
      modifies this
      ensures State() == B.TeeUp(old(State()), hole, giveUp)
      ensures ok == B.MayTeeUp(old(State()), hole, giveUp)
    {
      if hole >= |round| || (!practice && round[hole].Some?) {
        return false;
      }
      if !practice && ball.Some? && ball.value.place == B.InCup {
        return false;
      }
      if !practice && ball.Some? && ball.value.hole == hole {
        return false;
      }
      if !practice && ball.Some? && !giveUp {
        return false;
      }
      EndBallPlay();
      ball := Some(B.Ball(hole, 0, B.Teed));
      log := log + [B.TeedUp(hole)];
      return true;
    }

    method CompleteCurrentHole()
      modifies this
      ensures State() == B.CompleteHole(old(State()))
    {
      if !BallInPlay() {
        return;
      }
      var hole, strokes := ball.value.hole, ball.value.strokes;
      if !practice && hole < |round| {
        round := round[hole := Some(strokes)];
        log := log + [B.Scored(hole, strokes)];
      }
      EndBallPlay();
      ball := Some(ball.value.(place := B.InCup));
    }

    method GiveUpHole()
      modifies this
      ensures State() == B.GiveUpHole(old(State()))
    {
      if !BallInPlay() {
        return;
      }
      EndBallPlay();
      ball := None;
    }

    method StartNextRound()
      modifies this
      ensures State() == B.StartNextRound(old(State()))
    {
      if |round| == 0 || !B.RoundFinished(round) {
        return;
      }
      round := B.NewRound(|round|);
      log := log + [B.RoundStarted];
    }

    method StepUpToBall(input: B.Input)
      modifies this
      ensures State() == B.StepUp(old(State()), input)
    {
      if !input.hasClub || ball.None? {
        return;
      }
      if input.bagOnBack {
        return;
      }
      swing, meter := None, None;
      mode := B.Addressing;
    }

    method LaunchShot(input: B.Input)
      requires ball.Some?
      modifies this
      ensures State() == B.Launch(old(State()), input)
    {
      mode := B.FollowingShot;
      shot := Some(B.Shot(input.struck, 0.0, input.followSeconds));
      swing := None;
      ball := Some(ball.value.(strokes := ball.value.strokes + 1, place := B.AtRest));
      log := log + [B.Struck];
    }

    method TeeUpAndStep(tee: nat, giveUp: bool, input: B.Input)
      modifies this
      ensures State() == B.TeeUpAndStep(old(State()), tee, giveUp, input)
    {
      var ok := TeeUp(tee, giveUp);
      if ok {
        StepUpToBall(input);
      }
    }

    /** F with the nearest thing in reach. */
    method Interact(input: B.Input)
      modifies this
      ensures State() == B.Interact(old(State()), input)
    {
      if !CanBeNear(input.near) {
        return;
      }
      match input.near
      case NearBall => StepUpToBall(input);
      case NearCupBall => ball := None;
      case NearTee(tee) =>
        if BallInPlay() && !practice {
          prompt := Some(tee);
          return;
        }
        TeeUpAndStep(tee, practice, input);
      case NearOther =>
    }

    /** One frame with the question open: answered, withdrawn or left standing. */
    method AnswerGiveUpPrompt(input: B.Input) returns (answered: bool)
      modifies this
      ensures answered ==> old(prompt).Some? && State() == B.TeeUpAndStep(old(State()).(prompt := None), old(prompt).value, true, input)
      ensures answered <==> input.interact && input.onFoot && old(prompt).Some? && B.InPlay(old(State()))
                            && input.promptTeeNear && B.TeeOpen(old(State()), old(prompt).value)
      ensures !answered ==> State() == old(State()) || (State() == old(State()).(prompt := None))
      ensures !answered && input.interact ==> prompt.None?
      ensures !answered && !input.interact ==>
                (prompt.None? <==> old(prompt).None? || !(input.promptTeeNear && B.TeeOpen(old(State()), old(prompt).value))
                                   || !B.InPlay(old(State())) || !input.onFoot)
    {
      if prompt.None? {
        return false;
      }
      var tee := prompt.value;
      if !(input.promptTeeNear && TeeOpen(tee)) || !BallInPlay() || !input.onFoot {
        prompt := None;
        return false;
      }
      if !input.interact {
        return false;
      }
      prompt := None;
      TeeUpAndStep(tee, true, input);
      return true;
    }

    method UpdateWalking(input: B.Input)
      modifies this
      ensures State() == B.Walk(old(State()), input)
    {
      hide B.TeeUpAndStep, B.Interact;
      if input.busy {
        return;
      }
      var answered := AnswerGiveUpPrompt(input);
      if !answered && input.interact {
        Interact(input);
      }
    }

    method UpdateAddressing(input: B.Input)
      requires ball.Some?
      modifies this
      ensures State() == B.Address(old(State()), input)
    {
      if !input.hasClub {
        mode := B.Walking;
        return;
      }
      if swing.Some? {
        swing := Some(swing.value + input.dt);
        if swing.value >= input.impactSeconds {
          LaunchShot(input);
        }
        return;
      }
      if meter.Some? {
        meter := Some(meter.value + input.dt);
        if input.cancel {
          meter := None;
        } else if input.swings {
          meter := None;
          swing := Some(input.backSeconds);
        }
        return;
      }
      if input.swingsBack {
        meter := Some(0.0);
      }
    }

    /** One frame of a shot: it plays on, or comes to rest with its penalty and perhaps in the cup. */
    method UpdateShotPlayback(dt: real)
      requires shot.Some? ==> ball.Some?
      modifies this
      ensures State() == B.PlayShot(old(State()), dt)
    {
      if shot.None? {
        return;
      }
      shot := Some(shot.value.(elapsed := shot.value.elapsed + dt));
      var result, elapsed := shot.value.result, shot.value.elapsed;
      if mode == B.FollowingShot && elapsed >= shot.value.followSeconds && elapsed < result.duration {
        mode := B.Walking;
      }
      if elapsed < result.duration {
        return;
      }
      ball := Some(ball.value.(strokes := ball.value.strokes + result.penalty));
      if result.penalty > 0 {
        log := log + [B.Penalty(result.penalty)];
      }
      shot := None;
      mode := B.Walking;
      if result.holed {
        CompleteCurrentHole();
      }
    }

    method UpdateGame(input: B.Input)
      requires B.Valid(State())
      modifies this
      ensures State() == B.Frame(old(State()), input) && B.Valid(State())
    {
      B.FrameKeepsValid(State(), input);
      hide B.Valid, B.LogKept, B.Walk, B.Address, B.PlayShot;
      ghost var before := State();
      if B.RoundFinished(round) {
        return;
      }
      if input.cancel && prompt.Some? {
        prompt := None;
      } else if input.cancel && mode == B.Addressing && swing.None? && meter.None? {
        mode := B.Walking;
      } else {
        match mode {
          case Walking =>
            B.WalkKeepsValid(before, input);
            UpdateWalking(input);
          case Addressing =>
            B.AddressKeepsValid(before, input);
            UpdateAddressing(input);
          case FollowingShot =>
        }
        B.ValidShot(State());
        UpdateShotPlayback(input.dt);
      }
    }
  }
}
