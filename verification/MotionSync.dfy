/**
  The movement protocol as the game runs it: the fields of the game state it updates in
  place, its queue of commands among them, and the functions that update them. Each is
  proved to do what the function of its name in `MotionProtocol` says, so every promise
  made there and in `MotionWire` holds of the fields.
*/
module MotionSync {
  import opened Options
  import opened RunLength
  import P = MotionProtocol
  import W = MotionWire

  class MotionState {
    var online: bool
    var step: nat
    var unsent: seq<Run>
    var unsentFirst: nat
    var unsentStart: P.Vec
    var stepped: Option<P.Motion>
    var commands: seq<P.Command>

    function State(): P.Sync
      reads this
    {
      P.Sync(online, step, unsent, unsentFirst, unsentStart, stepped, commands)
    }

    constructor (online: bool)
      ensures State() == P.Start(online)
    {
      this.online := online;
      step, unsent, unsentFirst, unsentStart, stepped, commands := 0, [], 0, P.ORIGIN, None, [];
    }

    /** One step of `input` onto the runs not yet sent. */
    method Append(input: Input)
      modifies this
      ensures State() == old(State()).(unsent := AppendStep(old(unsent), input))
      ensures Expand(unsent) == old(Expand(unsent)) + [input]
    {
      AppendExpands(unsent, input);
      if unsent != [] && !input.jump && !Last(unsent).input.jump && Last(unsent).input == input && Last(unsent).steps < MAX_STEPS {
        unsent := unsent[|unsent| - 1 := Run(input, Last(unsent).steps + 1)];
        return;
      }
      unsent := unsent + [Run(input, 1)];
    }

    method PushMotion(w: P.World)
      modifies this
      ensures State() == P.PushMotion(old(State()), w)
    {
      var runs := unsent;
      unsent := [];
      var now := w.motion;
      var walked := runs != [] && Last(runs).input.kind == Walk;
      if walked && P.OnFootMode(now.mode) && stepped.Some? {
        now := now.(position := stepped.value.position, yaw := stepped.value.yaw, speed := stepped.value.speed);
      }
      commands := commands + [P.Batch(runs, unsentFirst, step, unsentStart, now)];
    }

    method SyncMotion(w: P.World)
      modifies this
      ensures State() == P.SyncMotion(old(State()), w)
    {
      if !P.Sends(State(), w) {
        return;
      }
      if P.Holds(w) || !w.due {
        return;
      }
      PushMotion(w);
    }

    method SendMotionNow(w: P.World)
      modifies this
      ensures State() == P.SendMotionNow(old(State()), w)
    {
      if P.Sends(State(), w) {
        PushMotion(w);
      }
    }

    method SendSteps(w: P.World)
      modifies this
      ensures State() == P.SendSteps(old(State()), w)
    {
      if unsent != [] && P.Sends(State(), w) && !P.Holds(w) {
        PushMotion(w);
      }
    }

    /** What is pending is flushed if it may be, then the action is queued. */
    method PushCommand(what: nat, w: P.World)
      modifies this
      ensures State() == P.PushCommand(old(State()), what, w)
    {
      SendSteps(w);
      commands := commands + [P.Action(what)];
    }

    /** Before a step that already has its number: what came before goes out, numbered without it. */
    method SendBefore(input: Input, w: P.World)
      requires step > 0
      modifies this
      ensures State() == P.SendBefore(old(State()).(step := old(step) - 1), input, w).(step := old(step))
    {
      hide P.Holds;
      var otherKind := unsent != [] && Last(unsent).input.kind != input.kind;
      var moved := false;
      if input.kind == Walk && stepped.Some? {
        moved := w.position != stepped.value.position;
      } else if input.kind == Cart {
        stepped := None;
      }
      if (otherKind || (moved && unsent != [])) && P.Sends(State(), w) && !P.Holds(w) {
        step := step - 1;
        PushMotion(w);
        step := step + 1;
      }
      if moved {
        stepped := None;
      }
    }

    /** One step: it gets the next number and, when online, a place among the pending runs. */
    method RecordStep(input: Input, w: P.World) returns (number: nat)
      modifies this
      ensures State() == P.RecordStep(old(State()), input, w)
      ensures number == step == old(step) + 1
    {
      hide AppendStep, Expand, P.SendBefore;
      step := step + 1;
      if !online {
        return step;
      }
      SendBefore(input, w);
      if unsent == [] {
        unsentFirst, unsentStart := step, w.position;
      }
      Append(input);
      return step;
    }

    method SteppedOnFoot(motion: P.Motion)
      modifies this
      ensures State() == P.Apply(old(State()), P.Stepped(motion))
    {
      stepped := Some(motion);
    }

    /** Moved by the server: where the pending steps started and where the last one ended move too. */
    method Correct(shift: P.Vec, place: P.Vec)
      modifies this
      ensures State() == W.ApplyQueued(old(State()), P.Corrected(shift, place))
    {
      if stepped.Some? {
        stepped := Some(stepped.value.(position := place));
      }
      unsentStart := P.Plus(unsentStart, shift);
    }

    /** Refused: the steps not yet out are given up, those queued included, but not the actions. */
    method DiscardPending()
      modifies this
      ensures State() == W.ApplyQueued(old(State()), P.Refused)
    {
      unsent := [];
      stepped := None;
      var kept := [];
      for k := 0 to |commands|
        invariant unsent == [] && stepped == None && commands == old(commands)
        invariant State() == P.Discard(old(State())) && kept == W.Actions(commands[..k])
      {
        assert commands[..k + 1][..k] == commands[..k];
        if commands[k].Action? {
          kept := kept + [commands[k]];
        }
      }
      assert commands[..|commands|] == commands;
      commands := kept;
    }

    /** Into another room: pending motion is forgotten and nothing stays queued. */
    method ChangeRoom()
      modifies this
      ensures State() == W.ApplyQueued(old(State()), P.RoomChanged)
    {
      Reset(online);
      commands := [];
    }

    /** A course started offline or online forgets all pending motion, but not the number. */
    method Reset(online: bool)
      modifies this
      ensures State() == P.Reset(old(State()), online)
    {
      this.online := online;
      unsent, unsentFirst, unsentStart, stepped := [], 0, P.ORIGIN, None;
    }
  }
}
