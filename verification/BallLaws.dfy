/**
  What each moment of a golfer's round does, told by the ball, the shot, the mode and the
  card alone: which frames tee up, step up, strike, end a shot and score, in every
  reachable state (`src/game/game_state.cpp`, `src/game/course_session.cpp`,
  `src/game/address_play.cpp`).
*/
module BallLaws {
  import opened Options
  import opened BallLife

  /** A question is open only walking with no shot playing, and practice is never scored. */
  predicate Settled(g: Game) {
    && (g.prompt.Some? ==> g.shot.None? && g.mode == Walking)
    && (g.practice ==> forall h | 0 <= h < |g.round| :: g.round[h].None?)
  }

  lemma WalkSettled(g: Game, input: Input)
    requires Valid(g) && Settled(g) && g.mode == Walking
    ensures Settled(Walk(g, input)) && (g.shot.Some? ==> Walk(g, input) == g)
  {
    hide LogKept;
  }

  lemma AddressSettled(g: Game, input: Input)
    requires Valid(g) && Settled(g) && g.mode == Addressing
    ensures Settled(Address(g, input))
  {
    hide LogKept;
  }

  lemma PlaySettled(g: Game, dt: real)
    requires (g.shot.Some? ==> g.ball.Some?) && Settled(g)
    ensures Settled(PlayShot(g, dt))
  {}

  lemma FrameSettled(g: Game, input: Input)
    requires Valid(g) && Settled(g)
    ensures Settled(Frame(g, input))
  {
    hide LogKept, Walk, Address, PlayShot;
    if g.mode == Walking {
      WalkSettled(g, input);
      WalkKeepsValid(g, input);
      PlaySettled(Walk(g, input), input.dt);
    } else if g.mode == Addressing {
      AddressSettled(g, input);
      AddressKeepsValid(g, input);
      PlaySettled(Address(g, input), input.dt);
    } else {
      PlaySettled(g, input.dt);
    }
  }

  lemma ApplySettled(g: Game, e: Event)
    requires Valid(g) && Settled(g)
    ensures Settled(Apply(g, e))
  {
    hide Frame, Valid;
    if e.InFrame? {
      FrameSettled(g, e.input);
    }
  }

  lemma {:induction false} RunSettled(events: seq<Event>)
    ensures Settled(After(events))
  {
    if events != [] {
      hide Apply, Valid, Settled;
      RunSettled(events[..|events| - 1]);
      ApplySettled(After(events[..|events| - 1]), events[|events| - 1]);
    } else {
      NowhereSettled();
    }
  }

  lemma NowhereSettled()
    ensures Settled(NOWHERE)
  {}

  lemma NotFinished(g: Game)
    requires Valid(g) && Settled(g) && InPlay(g)
    ensures !RoundFinished(g.round)
  {
    hide LogKept;
    assert g.round[g.ball.value.hole].None?;
  }

  // ---- A shot playing ----

  /** What a shot that is over leaves, from the state and the shot as they were. */
  predicate Ended(g: Game, result: Result, now: Game) {
    g.ball.Some? && now.ball.Some? &&
    var strokes := g.ball.value.strokes + result.penalty;
    && now.shot.None? && now.mode == Walking
    && (result.holed ==> now.swing.None? && now.meter.None? && now.prompt.None?)
    && now.ball.value.hole == g.ball.value.hole && now.ball.value.strokes == strokes
    && now.ball.value.place == (if result.holed then InCup else g.ball.value.place)
    && now.round == (if result.holed && !g.practice && g.ball.value.hole < |g.round| then g.round[g.ball.value.hole := Some(strokes)] else g.round)
    && now.log == g.log + (if result.penalty > 0 then [Penalty(result.penalty)] else [])
                  + (if result.holed && !g.practice && g.ball.value.hole < |g.round| then [Scored(g.ball.value.hole, strokes)] else [])
  }

  lemma PlayEnds(g: Game, dt: real)
    requires g.shot.Some? && InPlay(g)
    ensures var shot := g.shot.value;
            if shot.elapsed + dt < shot.result.duration then
              PlayShot(g, dt) == g.(shot := Some(shot.(elapsed := shot.elapsed + dt)),
                                    mode := if g.mode == FollowingShot && shot.elapsed + dt >= shot.followSeconds then Walking else g.mode)
            else Ended(g, shot.result, PlayShot(g, dt))
  {
    assert g.log + [] == g.log;
  }

  /**
    In every reachable state with a shot playing: a frame before its time is up only plays
    it on; the frame that ends it takes the ball into its cup exactly when the shot is
    holed, scores the hole exactly then on a scored course, and counts its penalty.
  */
  lemma ShotFrame(events: seq<Event>, input: Input)
    requires After(events).shot.Some?
    ensures var g, now := After(events), Frame(After(events), input);
            var shot := g.shot.value;
            && g.ball.Some? && g.ball.value.place != InCup && g.ball.value.hole < |g.round|
            && if shot.elapsed + input.dt < shot.result.duration then
                 && now.ball == g.ball && now.round == g.round && now.log == g.log && now.prompt == g.prompt
                 && now.shot == Some(shot.(elapsed := shot.elapsed + input.dt))
                 && now.mode == (if g.mode == FollowingShot && shot.elapsed + input.dt < shot.followSeconds then FollowingShot else Walking)
               else
                 && now.shot.None? && now.mode == Walking && now.ball.Some?
                 && (now.ball.value.place == InCup <==> shot.result.holed)
                 && now.ball.value.hole == g.ball.value.hole
                 && now.ball.value.strokes == g.ball.value.strokes + shot.result.penalty
                 && now.round == (if shot.result.holed && !g.practice then g.round[g.ball.value.hole := Some(now.ball.value.strokes)] else g.round)
  {
    hide LogKept, Walk, PlayShot;
    var g := After(events);
    RunSettled(events);
    NotFinished(g);
    PlayEnds(g, input.dt);
    if g.mode == Walking {
      WalkSettled(g, input);
    }
  }

  // ---- Addressing ----

  lemma AddressDoes(g: Game, input: Input)
    requires g.ball.Some? && g.mode == Addressing
    ensures var now := Address(g, input);
            if input.hasClub && g.swing.Some? && g.swing.value + input.dt >= input.impactSeconds then
              && now.shot == Some(Shot(input.struck, 0.0, input.followSeconds)) && now.mode == FollowingShot
              && now.ball == Some(Ball(g.ball.value.hole, g.ball.value.strokes + 1, AtRest))
              && now.log == g.log + [Struck] && now.round == g.round && now.practice == g.practice && now.swing.None?
            else
              && now.ball == g.ball && now.shot == g.shot && now.log == g.log && now.round == g.round
              && now.mode == (if input.hasClub then Addressing else Walking)
              && (input.hasClub ==>
                    && (g.swing.Some? ==> now.swing == Some(g.swing.value + input.dt))
                    && (g.swing.None? && g.meter.Some? && !input.cancel && input.swings ==> now.swing == Some(input.backSeconds))
                    && (g.swing.None? && !(g.meter.Some? && !input.cancel && input.swings) ==> now.swing.None?)
                    && (g.swing.None? && g.meter.None? ==> (now.meter == if input.swingsBack then Some(0.0) else None))
                    && (g.swing.None? && g.meter.Some? ==>
                          now.meter == if input.cancel || input.swings then None else Some(g.meter.value + input.dt)))
  {}

  /**
    In every reachable state over the ball: a frame strikes exactly when a swing under way
    reaches the ball, one stroke and the shot begun, the frame's time already played of it;
    otherwise it strikes nothing, and leaves the ball without a club or by cancelling
    before the club goes back. A swing begins from the club held back.
  */
  lemma AddressFrame(events: seq<Event>, input: Input)
    requires After(events).mode == Addressing
    ensures var g, now := After(events), Frame(After(events), input);
            && g.ball.Some? && g.ball.value.place != InCup && g.shot.None?
            && if input.hasClub && g.swing.Some? && g.swing.value + input.dt >= input.impactSeconds then
                 && g.log + [Struck] <= now.log
                 && (input.dt < input.struck.duration ==>
                       && now.shot == Some(Shot(input.struck, input.dt, input.followSeconds))
                       && now.ball == Some(Ball(g.ball.value.hole, g.ball.value.strokes + 1, AtRest))
                       && now.round == g.round
                       && now.mode == (if input.dt < input.followSeconds then FollowingShot else Walking))
                 && (input.dt >= input.struck.duration ==>
                       Ended(g.(ball := Some(Ball(g.ball.value.hole, g.ball.value.strokes + 1, AtRest)), log := g.log + [Struck]),
                             input.struck, now))
               else
                 && now.ball == g.ball && now.shot.None? && now.log == g.log && now.round == g.round
                 && now.mode == (if input.hasClub && !(input.cancel && g.swing.None? && g.meter.None?) then Addressing else Walking)
                 && (now.mode == Addressing ==>
                       (now.swing.Some? <==> g.swing.Some? || (g.meter.Some? && !input.cancel && input.swings))
                       && (g.swing.None? && now.swing.Some? ==> now.swing == Some(input.backSeconds))
                       && (g.swing.Some? ==> now.swing == Some(g.swing.value + input.dt)))
  {
    hide LogKept, Address, PlayShot;
    var g := After(events);
    RunSettled(events);
    NotFinished(g);
    AddressDoes(g, input);
    AddressKeepsValid(g, input);
    var moved := Address(g, input);
    if moved.shot.Some? {
      PlayEnds(moved, input.dt);
      Prefixed(g.log, moved.log, PlayShot(moved, input.dt).log);
    } else {
      PlayNothing(moved, input.dt);
    }
  }

  lemma PlayNothing(g: Game, dt: real)
    requires g.shot.None?
    ensures PlayShot(g, dt) == g
  {}

  lemma Prefixed(a: seq<Note>, b: seq<Note>, c: seq<Note>)
    requires b == a + [Struck]
    ensures b <= c ==> a + [Struck] <= c
  {}

  // ---- Walking, no shot playing ----

  /** A tee that can be played from: on the course, and in a round its hole neither scored nor my ball's. */
  predicate MayPlay(g: Game, tee: nat) {
    tee < |g.round| && (g.practice || (g.round[tee].None? && (g.ball.Some? ==> g.ball.value.hole != tee)))
  }

  predicate Unfinished(g: Game) {
    |g.round| == 0 || exists h :: 0 <= h < |g.round| && g.round[h].None?
  }

  /** I press for something, and the round is not over, and I neither cancel a question nor am busy. */
  predicate Presses(g: Game, input: Input) {
    input.interact && !input.busy && !(input.cancel && g.prompt.Some?) && Unfinished(g)
  }

  /** The open question still stands: its tee near and playable, my ball still in play, on foot. */
  predicate QuestionStands(g: Game, input: Input) {
    g.prompt.Some? && input.promptTeeNear && MayPlay(g, g.prompt.value) && input.onFoot && g.ball.Some? && g.ball.value.place != InCup
  }

  /**
    In every reachable state on foot with no shot playing, pressing does exactly one thing.
    With the question standing it tees up there. Else at a playable tee it tees up when I
    have no ball (or practise), and asks when my ball is in play; beside my ball in play it
    steps up to it; beside my ball in its cup it picks it up. All else changes nothing but
    the question, and the frame after a tee-up or a step up addresses the ball exactly with
    a club in hand and the bag off my back.
  */
  lemma WalkFrame(events: seq<Event>, input: Input)
    requires After(events).mode == Walking && After(events).shot.None?
    ensures Walked(After(events), input, Frame(After(events), input))
  {
    hide Valid, Walk, PlayShot, RoundFinished, Walked, Settled;
    var g := After(events);
    RunSettled(events);
    Finishing(g.round);
    WalkKeepsValid(g, input);
    if RoundFinished(g.round) || (input.cancel && g.prompt.Some?) {
      NotPressed(g, input);
    } else {
      WalkDoes(g, input);
      WalkedShot(g, input, Walk(g, input));
      PlayNothing(Walk(g, input), input.dt);
    }
  }

  /** What a frame on foot leaves. */
  predicate Walked(g: Game, input: Input, now: Game) {
    var addresses := if input.hasClub && !input.bagOnBack then Addressing else Walking;
    var stands := QuestionStands(g, input);
    var tee := if stands then g.prompt.value else if input.near.NearTee? then input.near.index else 0;
    var atTee := stands || (input.near.NearTee? && MayPlay(g, tee));
    var inPlay := g.ball.Some? && g.ball.value.place != InCup;
    && now.shot.None? && now.round == g.round
    && if Presses(g, input) && atTee && (stands || g.practice || g.ball.None?) then
         && now.ball == Some(Ball(tee, 0, Teed)) && now.log == g.log + [TeedUp(tee)]
         && now.mode == addresses && now.prompt.None? && now.swing.None? && now.meter.None?
       else
         && now.log == g.log
         && now.ball == (if Presses(g, input) && !stands && input.near.NearCupBall? && g.ball.Some? && !inPlay then None else g.ball)
         && now.mode == (if Presses(g, input) && !stands && input.near.NearBall? && inPlay then addresses else Walking)
         && (if now.mode == Addressing then now.swing.None? && now.meter.None? else now.swing == g.swing && now.meter == g.meter)
         && now.prompt == (if Presses(g, input) && !stands && input.near.NearTee? && atTee && inPlay then Some(tee)
                           else if Unfinished(g) && (input.cancel || (!stands && !input.busy)) then None
                           else g.prompt)
  }

  lemma NotPressed(g: Game, input: Input)
    requires g.mode == Walking && g.shot.None? && !Presses(g, input)
    ensures !Unfinished(g) ==> Walked(g, input, g)
    ensures Unfinished(g) && input.cancel ==> Walked(g, input, g.(prompt := None))
  {}

  lemma WalkedShot(g: Game, input: Input, now: Game)
    requires Walked(g, input, now)
    ensures now.shot.None?
  {}

  lemma TeesUp(g: Game, tee: nat, giveUp: bool, input: Input)
    requires MayTeeUp(g, tee, giveUp)
    ensures var now := TeeUpAndStep(g, tee, giveUp, input);
            && now.ball == Some(Ball(tee, 0, Teed)) && now.log == g.log + [TeedUp(tee)] && now.shot.None? && now.round == g.round
            && now.mode == (if input.hasClub && !input.bagOnBack then Addressing else Walking)
            && now.prompt.None? && now.swing.None? && now.meter.None?
  {}

  lemma WalkDoes(g: Game, input: Input)
    requires g.mode == Walking && g.shot.None? && !RoundFinished(g.round) && !(input.cancel && g.prompt.Some?)
    ensures Walked(g, input, Walk(g, input))
  {
    hide TeeUpAndStep, Interact, RoundFinished;
    Finishing(g.round);
    var asked := g.(prompt := None);
    if !input.busy && input.interact {
      if QuestionStands(g, input) {
        TeesUp(asked, g.prompt.value, true, input);
      } else {
        InteractDoes(asked, input);
        assert g.prompt.None? ==> asked == g;
      }
    }
  }

  lemma InteractDoes(g: Game, input: Input)
    requires g.mode == Walking && g.shot.None? && g.prompt.None?
    ensures var now, near := Interact(g, input), input.near;
            var addresses := if input.hasClub && !input.bagOnBack then Addressing else Walking;
            var inPlay := g.ball.Some? && g.ball.value.place != InCup;
            && now.shot.None? && now.round == g.round
            && if near.NearTee? && MayPlay(g, near.index) && (g.practice || g.ball.None?) then
                 && now.ball == Some(Ball(near.index, 0, Teed)) && now.log == g.log + [TeedUp(near.index)]
                 && now.mode == addresses && now.prompt.None? && now.swing.None? && now.meter.None?
               else
                 && now.log == g.log && now.ball == (if near.NearCupBall? && g.ball.Some? && !inPlay then None else g.ball)
                 && now.mode == (if near.NearBall? && inPlay then addresses else Walking)
                 && (if now.mode == Addressing then now.swing.None? && now.meter.None? else now.swing == g.swing && now.meter == g.meter)
                 && now.prompt == (if near.NearTee? && MayPlay(g, near.index) && inPlay then Some(near.index) else None)
  {
    hide TeeUpAndStep;
    if input.near.NearTee? && TeeOpen(g, input.near.index) && !(InPlay(g) && !g.practice) {
      if MayTeeUp(g, input.near.index, g.practice) {
        TeesUp(g, input.near.index, g.practice, input);
      } else {
        TeesNot(g, input.near.index, g.practice, input);
      }
    }
  }

  lemma TeesNot(g: Game, tee: nat, giveUp: bool, input: Input)
    requires !MayTeeUp(g, tee, giveUp)
    ensures TeeUpAndStep(g, tee, giveUp, input) == g
  {}

  lemma Finishing(round: seq<Option<nat>>)
    ensures RoundFinished(round) <==> !(|round| == 0 || exists h :: 0 <= h < |round| && round[h].None?)
  {}

  /** A tee-up is refused exactly off the course and, in a round, for a hole scored, for the ball's own hole, with the ball in its cup, or with it in play and not given up. */
  lemma TeeUpRefused(g: Game, hole: nat, giveUp: bool)
    ensures var refused := hole >= |g.round|
                           || (!g.practice && (g.round[hole].Some?
                                               || (g.ball.Some? && (g.ball.value.place == InCup || g.ball.value.hole == hole || !giveUp))));
            && (refused ==> TeeUp(g, hole, giveUp) == g)
            && (!refused ==> TeeUp(g, hole, giveUp).log == g.log + [TeedUp(hole)] && TeeUp(g, hole, giveUp).ball == Some(Ball(hole, 0, Teed)))
  {}

  /** Stepping up addresses the ball exactly with a club in hand, a ball, and the bag off my back; a swing half made is forgotten. */
  lemma StepUpAddresses(g: Game, input: Input)
    ensures var now := StepUp(g, input);
            if input.hasClub && g.ball.Some? && !input.bagOnBack
            then now.mode == Addressing && now.swing.None? && now.meter.None? && now.ball == g.ball && now.log == g.log && now.round == g.round
            else now == g
  {}

  // ---- Between frames ----

  /** Giving up takes the ball in play away and scores nothing; a finished round, and only that, starts over; a course starts afresh. */
  lemma BetweenFrames(events: seq<Event>, practice: bool, holes: nat)
    ensures var g := After(events);
            var gaveUp, nextRound, course := After(events + [GaveUp]), After(events + [NextRound]), After(events + [Course(practice, holes)]);
            && (if g.ball.Some? && g.ball.value.place != InCup
                then gaveUp.ball.None? && gaveUp.shot.None? && gaveUp.swing.None? && gaveUp.meter.None? && gaveUp.prompt.None? && gaveUp.mode == Walking && gaveUp.round == g.round && gaveUp.log == g.log
                else gaveUp == g)
            && (if |g.round| > 0 && forall h | 0 <= h < |g.round| :: g.round[h].Some?
                then |nextRound.round| == |g.round| && (forall h | 0 <= h < |g.round| :: nextRound.round[h].None?)
                     && nextRound.ball == g.ball && nextRound.log == g.log + [RoundStarted]
                else nextRound == g)
            && |course.round| == holes && (forall h | 0 <= h < holes :: course.round[h].None?)
            && course.ball.None? && course.shot.None? && course.swing.None? && course.meter.None? && course.mode == Walking && course.practice == practice && course.prompt.None?
  {
    hide Frame;
    AfterSnoc(events, GaveUp);
    AfterSnoc(events, NextRound);
    AfterSnoc(events, Course(practice, holes));
  }

  lemma AfterSnoc(events: seq<Event>, e: Event)
    ensures After(events + [e]) == Apply(After(events), e)
  {
    hide Apply;
    assert (events + [e])[..|events|] == events;
  }

  // ---- Scores come of holed shots ----

  /** The frame ends a holed shot on a scored course: one playing, or one struck in it that is over at once. */
  predicate Holes(g: Game, input: Input) {
    !g.practice &&
    if g.shot.Some? then g.shot.value.result.holed && g.shot.value.elapsed + input.dt >= g.shot.value.result.duration
    else && g.mode == Addressing && input.hasClub && g.swing.Some? && g.swing.value + input.dt >= input.impactSeconds
         && input.struck.holed && input.dt >= input.struck.duration
  }

  predicate Scores(was: seq<Note>, now: seq<Note>) {
    exists k :: |was| <= k < |now| && now[k].Scored?
  }

  lemma NoteEnds(g: Game, result: Result, now: Game)
    requires Ended(g, result, now) && g.ball.value.hole < |g.round|
    ensures g.log <= now.log && (Scores(g.log, now.log) <==> result.holed && !g.practice)
  {
    var n := |now.log| - 1;
    if result.holed && !g.practice {
      assert now.log[n].Scored?;
    }
  }

  lemma ScoresOf(was: seq<Note>, now: seq<Note>, more: seq<Note>)
    requires now == was + more
    ensures Scores(was, now) <==> exists k :: 0 <= k < |more| && more[k].Scored?
  {
    if k :| 0 <= k < |more| && more[k].Scored? {
      assert now[|was| + k].Scored?;
    }
    if k :| |was| <= k < |now| && now[k].Scored? {
      assert more[k - |was|].Scored?;
    }
  }

  /** In every run an event scores a hole exactly when it is a frame that ends a holed shot; no event takes a note back. */
  lemma ScoresAreHoled(events: seq<Event>, e: Event)
    ensures var g, now := After(events), After(events + [e]);
            && g.log <= now.log
            && (Scores(g.log, now.log) <==> e.InFrame? && Holes(g, e.input))
  {
    hide Frame, Valid;
    AfterSnoc(events, e);
    var g, now := After(events), After(events + [e]);
    match e
    case InFrame(input) => FrameScores(events, input);
    case GaveUp => ScoresOf(g.log, now.log, []);
    case NextRound => ScoresOf(g.log, now.log, now.log[|g.log|..]);
    case Course(_, _) => ScoresOf(g.log, now.log, now.log[|g.log|..]);
  }

  lemma FrameScores(events: seq<Event>, input: Input)
    ensures var g, now := After(events), Frame(After(events), input);
            g.log <= now.log && (Scores(g.log, now.log) <==> Holes(g, input))
  {
    hide Frame, LogKept, Walked, Ended;
    var g, now := After(events), Frame(After(events), input);
    if g.shot.Some? {
      ShotNotes(events, input);
    } else if g.mode == Addressing {
      AddressNotes(events, input);
    } else {
      WalkNotes(events, input);
    }
  }

  lemma ShotNotes(events: seq<Event>, input: Input)
    requires After(events).shot.Some?
    ensures var g, now := After(events), Frame(After(events), input);
            g.log <= now.log && (Scores(g.log, now.log) <==> Holes(g, input))
  {
    hide LogKept, Walk, PlayShot, Ended;
    var g := After(events);
    RunSettled(events);
    NotFinished(g);
    PlayEnds(g, input.dt);
    if g.mode == Walking {
      WalkSettled(g, input);
    }
    if g.shot.value.elapsed + input.dt >= g.shot.value.result.duration {
      NoteEnds(g, g.shot.value.result, PlayShot(g, input.dt));
    }
  }

  lemma AddressNotes(events: seq<Event>, input: Input)
    requires After(events).mode == Addressing
    ensures var g, now := After(events), Frame(After(events), input);
            g.log <= now.log && (Scores(g.log, now.log) <==> Holes(g, input))
  {
    hide LogKept, Address, PlayShot, Ended;
    var g := After(events);
    RunSettled(events);
    NotFinished(g);
    AddressDoes(g, input);
    AddressKeepsValid(g, input);
    var moved := Address(g, input);
    if moved.shot.Some? {
      PlayEnds(moved, input.dt);
      assert moved.log[|g.log|] == Struck;
      if input.dt >= input.struck.duration {
        NoteEnds(moved, input.struck, PlayShot(moved, input.dt));
        OneOn(g.log, moved.log, PlayShot(moved, input.dt).log);
      }
    } else {
      PlayNothing(moved, input.dt);
    }
  }

  lemma OneOn(a: seq<Note>, b: seq<Note>, c: seq<Note>)
    requires b == a + [Struck] && b <= c
    ensures a <= c && (Scores(a, c) <==> Scores(b, c))
  {
    assert c[|a|] == Struck;
  }

  lemma WalkNotes(events: seq<Event>, input: Input)
    requires After(events).shot.None? && After(events).mode != Addressing
    ensures var g, now := After(events), Frame(After(events), input);
            g.log <= now.log && !Scores(g.log, now.log)
  {
    hide Frame, After, QuestionStands, MayPlay, Presses;
    FollowingHasShot(After(events));
    WalkFrame(events, input);
  }

  lemma FollowingHasShot(g: Game)
    requires Valid(g)
    ensures g.mode == FollowingShot ==> g.shot.Some?
  {}

  /** So in every run each score has the frame that ended its holed shot. */
  lemma {:induction false} EveryScoreWasHoled(events: seq<Event>, k: nat) returns (m: nat)
    requires k < |After(events).log| && After(events).log[k].Scored?
    ensures m < |events| && events[m].InFrame? && Holes(After(events[..m]), events[m].input)
  {
    if events == [] {
      assert false;
    } else {
      var n := |events| - 1;
      var init, e := events[..n], events[n];
      assert events == init + [e];
      ScoresAreHoled(init, e);
      hide Holes;
      if k < |After(init).log| {
        m := EveryScoreWasHoled(init, k);
        assert events[..m] == init[..m] && events[m] == init[m];
      } else {
        m := n;
        assert Scores(After(init).log, After(events).log);
      }
    }
  }

  // ---- A round played ----

  /** A frame of a run is what a frame does. */
  lemma FramesRun(events: seq<Event>, input: Input)
    ensures After(events + [InFrame(input)]) == Frame(After(events), input)
  {
    AfterSnoc(events, InFrame(input));
  }

  /** One hole and a shot from its tee: pressed at the tee, the club taken back, swung, struck, and holed. */
  ghost predicate IsAce(press: Input, back: Input, swing: Input, hit: Input, roll: Input) {
    && press.interact && !press.busy && !press.cancel && press.near == NearTee(0) && press.hasClub && !press.bagOnBack
    && !back.cancel && back.hasClub && back.swingsBack
    && !swing.cancel && swing.hasClub && swing.swings
    && !hit.cancel && hit.hasClub && swing.backSeconds + hit.dt >= hit.impactSeconds && hit.dt < hit.struck.duration
    && hit.struck.holed && hit.struck.penalty == 0
    && !roll.cancel && hit.dt + roll.dt >= hit.struck.duration
  }

  /** A run that scores: such a shot puts a one on the card, and that finishes the round. */
  lemma AceScores(press: Input, back: Input, swing: Input, hit: Input, roll: Input)
    requires IsAce(press, back, swing, hit, roll)
    ensures var g := After([Course(false, 1), InFrame(press), InFrame(back), InFrame(swing), InFrame(hit), InFrame(roll)]);
            g.round == [Some(1)] && g.ball == Some(Ball(0, 1, InCup)) && g.shot.None? && g.mode == Walking
            && g.log == [RoundStarted, TeedUp(0), Struck, Scored(0, 1)]
  {
    hide After, Frame, Apply, Valid, NewRound;
    var start := [Course(false, 1)];
    AceBegins(press, back);
    var ready := start + [InFrame(press)] + [InFrame(back)];
    FramesRun(ready, swing);
    Swung(After(ready), swing);
    FramesRun(ready + [InFrame(swing)], hit);
    StruckIn(After(ready + [InFrame(swing)]), hit);
    FramesRun(ready + [InFrame(swing)] + [InFrame(hit)], roll);
    HoledIn(After(ready + [InFrame(swing)] + [InFrame(hit)]), roll);
    assert ready + [InFrame(swing)] + [InFrame(hit)] + [InFrame(roll)]
        == [Course(false, 1), InFrame(press), InFrame(back), InFrame(swing), InFrame(hit), InFrame(roll)];
  }

  lemma AceBegins(press: Input, back: Input)
    requires press.interact && !press.busy && !press.cancel && press.near == NearTee(0) && press.hasClub && !press.bagOnBack
    requires !back.cancel && back.hasClub && back.swingsBack
    ensures After([Course(false, 1)] + [InFrame(press)] + [InFrame(back)])
            == Game(false, [None], Some(Ball(0, 0, Teed)), None, Addressing, None, Some(0.0), None, [RoundStarted, TeedUp(0)])
  {
    hide After, Frame, Apply, Valid, NewRound;
    var start := [Course(false, 1)];
    StartsAfresh();
    AfterSnoc([], Course(false, 1));
    assert [] + start == start;
    FramesRun(start, press);
    AtTee(After(start), press);
    FramesRun(start + [InFrame(press)], back);
    TakenBack(After(start + [InFrame(press)]), back);
  }

  lemma StartsAfresh()
    ensures After([]) == NOWHERE
    ensures Apply(NOWHERE, Course(false, 1)) == Game(false, [None], None, None, Walking, None, None, None, [RoundStarted])
  {
    assert NewRound(1) == [None];
  }

  lemma AtTee(g: Game, press: Input)
    requires g == Game(false, [None], None, None, Walking, None, None, None, [RoundStarted]) && Valid(g)
    requires press.interact && !press.busy && !press.cancel && press.near == NearTee(0) && press.hasClub && !press.bagOnBack
    ensures Frame(g, press) == Game(false, [None], Some(Ball(0, 0, Teed)), None, Addressing, None, None, None, [RoundStarted, TeedUp(0)])
  {
    assert g.round[0].None?;
  }

  lemma TakenBack(g: Game, back: Input)
    requires g == Game(false, [None], Some(Ball(0, 0, Teed)), None, Addressing, None, None, None, [RoundStarted, TeedUp(0)]) && Valid(g)
    requires !back.cancel && back.hasClub && back.swingsBack
    ensures Frame(g, back) == g.(meter := Some(0.0))
  {
    assert g.round[0].None?;
  }

  lemma Swung(g: Game, swing: Input)
    requires Valid(g) && g.round == [None] && g.shot.None? && g.mode == Addressing && g.swing.None? && g.meter.Some?
    requires !swing.cancel && swing.hasClub && swing.swings
    ensures Frame(g, swing) == g.(meter := None, swing := Some(swing.backSeconds))
  {
    assert g.round[0].None?;
  }

  lemma StruckIn(g: Game, hit: Input)
    requires Valid(g) && g.round == [None] && g.shot.None? && g.mode == Addressing && g.swing.Some? && g.prompt.None?
    requires !hit.cancel && hit.hasClub && g.swing.value + hit.dt >= hit.impactSeconds && hit.dt < hit.struck.duration
    ensures var now := Frame(g, hit);
            && g.ball.Some? && now.shot == Some(Shot(hit.struck, hit.dt, hit.followSeconds)) && now.mode != Addressing
            && now.ball == Some(Ball(g.ball.value.hole, g.ball.value.strokes + 1, AtRest)) && now.round == g.round
            && now.log == g.log + [Struck] && now.practice == g.practice && now.prompt == g.prompt
  {
    assert g.round[0].None?;
  }

  lemma HoledIn(g: Game, roll: Input)
    requires Valid(g) && g.round == [None] && !g.practice && g.shot.Some? && g.prompt.None? && g.mode != Addressing && !roll.cancel
    requires g.shot.value.result.holed && g.shot.value.result.penalty == 0
    requires g.shot.value.elapsed + roll.dt >= g.shot.value.result.duration
    ensures var now := Frame(g, roll);
            && g.ball.Some? && g.ball.value.hole == 0 && now.round == [Some(g.ball.value.strokes)] && now.shot.None? && now.mode == Walking
            && now.ball == Some(g.ball.value.(place := InCup)) && now.log == g.log + [Scored(0, g.ball.value.strokes)]
  {
    hide LogKept, Walk;
    assert g.round[0].None?;
    if g.mode == Walking {
      WalkSettledShot(g, roll);
    }
    PlayEnds(g, roll.dt);
  }

  lemma WalkSettledShot(g: Game, input: Input)
    requires g.mode == Walking && g.shot.Some? && g.prompt.None?
    ensures Walk(g, input) == g
  {}
}
