/**
  When motion goes out (`src/game/motion_sync.cpp`): for each way of sending, in every run,
  exactly the moments at which it pushes a batch, in terms of the round, the ride, the
  camera and the ball; and what the push leaves.
*/
module MotionOpen {
  import opened Options
  import opened RunLength
  import opened MotionProtocol

  /** One batch more, told after all before it, and nothing left pending; by an action too, stood after it. */
  ghost predicate Pushes(online: bool, events: seq<Event>, now: Sync, after: seq<Command>) {
    var was := After(Start(online), events);
    && |now.commands| == |was.commands| + 1 + |after|
    && now.commands[..|was.commands|] == was.commands
    && now.commands[|was.commands|].Batch? && now.commands[|was.commands| + 1..] == after
    && now.unsent == []
    && Delivered(now.commands) == Tell(Kept(Start(online), events))
  }

  lemma PushPushes(online: bool, events: seq<Event>, w: World, after: seq<Command>)
    requires forall k | 0 <= k < |after| :: after[k].Action?
    requires |after| <= 1
    ensures var s := PushMotion(After(Start(online), events), w);
            Pushes(online, events, s.(commands := s.commands + after), after)
  {
    hide After, Kept, Delivered, Tell, Beside;
    StartIsValid(online);
    RunKeepsValid(Start(online), events);
    var was := After(Start(online), events);
    PushKeepsValid(was, w, Kept(Start(online), events));
    var s := PushMotion(was, w);
    if after == [] {
      assert s.commands + after == s.commands;
    } else {
      assert after == [after[0]];
      DeliveredSnoc(s.commands, after[0]);
      assert Delivered(s.commands) + [] == Delivered(s.commands);
    }
  }

  /**
    In every run: online, with the round unfinished or its group still waited for, motion may
    be sent; it is held while I get into my own cart or wait for its seat, while the camera
    follows my shot, and while my ball is corrected. A tick pushes when it may, is not held
    and is due; a flush when steps are pending, it may and is not held; a send when it may,
    held or not; an action flushes first and is queued either way.
  */
  lemma WhenMotionGoes(online: bool, events: seq<Event>, w: World, what: nat)
    ensures var s := After(Start(online), events);
            var may := s.online && (w.roundFinished ==> w.waitingForGroup);
            var boarding := w.ride.Some? && w.ride.value.owner == 0
                            && (w.ride.value.confirmed ==> w.ride.value.step.Some? && w.ride.value.step.value);
            var free := !boarding && w.mode != FollowingShot && !w.ballCorrection;
            var ticked, sent := After(Start(online), events + [Tick(w)]), After(Start(online), events + [SendNow(w)]);
            var flushed, acted := After(Start(online), events + [Flush(w)]), After(Start(online), events + [Act(what, w)]);
            && (if may && free && w.due then Pushes(online, events, ticked, []) else ticked == s)
            && (if may then Pushes(online, events, sent, []) else sent == s)
            && (if may && free && s.unsent != [] then Pushes(online, events, flushed, []) else flushed == s)
            && (if may && free && s.unsent != [] then Pushes(online, events, acted, [Action(what)])
                else acted == s.(commands := s.commands + [Action(what)]))
  {
    hide After, Kept, Delivered, Tell, Pushes, PushMotion;
    var s := After(Start(online), events);
    AfterSnoc(Start(online), events, Tick(w));
    AfterSnoc(Start(online), events, SendNow(w));
    AfterSnoc(Start(online), events, Flush(w));
    AfterSnoc(Start(online), events, Act(what, w));
    PushPushes(online, events, w, []);
    PushPushes(online, events, w, [Action(what)]);
    var p := PushMotion(s, w);
    assert p.(commands := p.commands + []) == p;
  }

  /**
    In every run a step pushes a batch exactly when there are steps pending that it may not
    join (of the other kind, or on foot from elsewhere than the last one ended) and motion
    may be sent and is not held. It is then pending alone, from where I stand; otherwise it
    joins what is pending.
  */
  lemma WhenStepsGo(online: bool, events: seq<Event>, input: Input, w: World)
    ensures var s := After(Start(online), events);
            var now := After(Start(online), events + [Step(input, w)]);
            var may := s.online && (w.roundFinished ==> w.waitingForGroup);
            var boarding := w.ride.Some? && w.ride.value.owner == 0
                            && (w.ride.value.confirmed ==> w.ride.value.step.Some? && w.ride.value.step.value);
            var free := !boarding && w.mode != FollowingShot && !w.ballCorrection;
            var other := s.unsent != [] && Last(s.unsent).input.kind != input.kind;
            var elsewhere := input.kind == Walk && s.stepped.Some? && s.stepped.value.position != w.position;
            if may && free && s.unsent != [] && (other || elsewhere)
            then && |now.commands| == |s.commands| + 1 && now.commands[..|s.commands|] == s.commands
                 && Delivered(now.commands) == Tell(Kept(Start(online), events))
                 && Expand(now.unsent) == [input] && now.unsentFirst == s.step + 1 && now.unsentStart == w.position
            else && now.commands == s.commands
                 && Expand(now.unsent) == (if s.online then Expand(s.unsent) + [input] else Expand(s.unsent))
  {
    hide After, Kept, Delivered, Tell, Expand, Beside;
    var s := After(Start(online), events);
    AfterSnoc(Start(online), events, Step(input, w));
    StartIsValid(online);
    RunKeepsValid(Start(online), events);
    PushKeepsValid(s, w, Kept(Start(online), events));
    var afoot := s.(stepped := None);
    PlacementKeepsValid(s, None, Kept(Start(online), events));
    PushKeepsValid(afoot, w, Kept(Start(online), events));
    if s.online {
      SentBefore(s, input, w);
      AppendExpands(SendBefore(s, input, w).unsent, input);
      ExpandNone();
    }
  }

  lemma ExpandNone()
    ensures Expand([]) == [] && forall input: Input :: [] + [input] == [input]
  {}

  lemma SentBefore(s: Sync, input: Input, w: World)
    requires s.online
    ensures var sent := SendBefore(s, input, w);
            var may := s.online && (w.roundFinished ==> w.waitingForGroup);
            var boarding := w.ride.Some? && w.ride.value.owner == 0
                            && (w.ride.value.confirmed ==> w.ride.value.step.Some? && w.ride.value.step.value);
            var free := !boarding && w.mode != FollowingShot && !w.ballCorrection;
            var other := s.unsent != [] && Last(s.unsent).input.kind != input.kind;
            var elsewhere := input.kind == Walk && s.stepped.Some? && s.stepped.value.position != w.position;
            && sent.step == s.step
            && (if may && free && s.unsent != [] && (other || elsewhere)
                then sent.unsent == [] && sent.commands == PushMotion(if input.kind == Cart then s.(stepped := None) else s, w).commands
                else sent.unsent == s.unsent && sent.commands == s.commands)
  {
    hide PushMotion;
    PushedUnsent(s, w);
    PushedUnsent(s.(stepped := None), w);
  }

  lemma PushedUnsent(s: Sync, w: World)
    ensures PushMotion(s, w).unsent == [] && PushMotion(s, w).step == s.step
    ensures PushMotion(s, w).(stepped := None).commands == PushMotion(s, w).commands
  {}

  /** The last event that says how the game is played from then on. */
  predicate LastMode(events: seq<Event>, k: nat) {
    k < |events| && (events[k].Restart? || events[k].NewGame?) && forall m | k < m < |events| :: !(events[m].Restart? || events[m].NewGame?)
  }

  /** In every run: online exactly when the last course was started so and no new state has come since. */
  lemma {:induction false} OnlineSince(online: bool, events: seq<Event>)
    ensures forall k | 0 <= k < |events| && LastMode(events, k) ::
              After(Start(online), events).online == (events[k].Restart? && events[k].online)
    ensures (forall k | 0 <= k < |events| :: !LastMode(events, k)) ==> After(Start(online), events).online == online
  {
    if events != [] {
      var n := |events| - 1;
      var init, e := events[..n], events[n];
      OnlineSince(online, init);
      OnlineOn(After(Start(online), init), e);
      forall k | 0 <= k < n ensures LastMode(events, k) <==> LastMode(init, k) && !(e.Restart? || e.NewGame?) {}
      assert LastMode(events, n) <==> e.Restart? || e.NewGame?;
    }
  }

  lemma OnlineOn(s: Sync, e: Event)
    ensures Apply(s, e).online == (if e.Restart? then e.online else if e.NewGame? then false else s.online)
  {
    hide AppendStep, Holds;
  }

  /** The counts a batch is told with: each of 1 to 65535 steps, a jump alone, and only after 65535 the same input again. */
  lemma RunsAreSmall(inputs: seq<Input>)
    ensures var runs := Encode(inputs);
            && Expand(runs) == inputs
            && (forall k | 0 <= k < |runs| :: 1 <= runs[k].steps <= 65535 && (runs[k].input.jump ==> runs[k].steps == 1))
            && (forall k | 0 < k < |runs| :: runs[k].input == runs[k - 1].input && !runs[k].input.jump ==> runs[k - 1].steps == 65535)
  {
    hide Encode, Expand;
    EncodeLossless(inputs);
  }
}
