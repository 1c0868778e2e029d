/**
  Movement by input (`src/game/motion_sync.cpp`): every fixed step is numbered, kept in
  runs, sent in batches before the actions that follow it, held back in some states,
  corrected or refused by the server, and dropped at a reset. The operations are functions
  on the state they update; what they promise is proved over every run of them. The
  commands of a state are all it pushed since it was made; `MotionWire` tells which of
  them are still queued and which went out.
*/
module MotionProtocol {
  import opened Options
  import opened RunLength

  datatype Vec = Vec(x: real, y: real, z: real)

  datatype MotionMode = Walking | Idle | Driving | Riding | Addressing | Swinging

  datatype Motion = Motion(mode: MotionMode, position: Vec, yaw: real, speed: real)

  datatype GameMode = OnFoot | AtBall | FollowingShot

  /** `step` is the step in or out being played, true while getting in. */
  datatype Ride = Ride(owner: nat, confirmed: bool, step: Option<bool>)

  /** What the functions read of the rest of the game: anything, at any call. */
  datatype World = World(
    roundFinished: bool, waitingForGroup: bool, mode: GameMode, ride: Option<Ride>, ballCorrection: bool,
    position: Vec, motion: Motion, due: bool)

  datatype Command =
    | Batch(runs: seq<Run>, first: nat, last: nat, start: Vec, motion: Motion)
    | Action(what: nat)

  datatype Sync = Sync(
    online: bool, step: nat, unsent: seq<Run>, unsentFirst: nat, unsentStart: Vec,
    stepped: Option<Motion>, commands: seq<Command>)

  const ORIGIN := Vec(0.0, 0.0, 0.0)

  predicate OnFootMode(mode: MotionMode) {
    mode == Walking || mode == Idle
  }

  predicate Sends(s: Sync, w: World) {
    s.online && (!w.roundFinished || w.waitingForGroup)
  }

  predicate Holds(w: World) {
    || (w.ride.Some? && w.ride.value.owner == 0 && (!w.ride.value.confirmed || w.ride.value.step == Some(true)))
    || w.mode == FollowingShot
    || w.ballCorrection
  }

  /** Motion may go out now, and is not held back. */
  predicate Open(s: Sync, w: World) {
    Sends(s, w) && !Holds(w)
  }

  /** The motion beside a batch: after steps on foot, where my last step left me. */
  function Beside(s: Sync, now: Motion): Motion {
    if s.unsent != [] && Last(s.unsent).input.kind == Walk && OnFootMode(now.mode) && s.stepped.Some?
    then now.(position := s.stepped.value.position, yaw := s.stepped.value.yaw, speed := s.stepped.value.speed)
    else now
  }

  function PushMotion(s: Sync, w: World): Sync {
    s.(unsent := [], commands := s.commands + [Batch(s.unsent, s.unsentFirst, s.step, s.unsentStart, Beside(s, w.motion))])
  }

  function SyncMotion(s: Sync, w: World): Sync {
    if Open(s, w) && w.due then PushMotion(s, w) else s
  }

  function SendMotionNow(s: Sync, w: World): Sync {
    if Sends(s, w) then PushMotion(s, w) else s
  }

  function SendSteps(s: Sync, w: World): Sync {
    if s.unsent != [] && Open(s, w) then PushMotion(s, w) else s
  }

  function PushCommand(s: Sync, what: nat, w: World): Sync {
    var sent := SendSteps(s, w);
    sent.(commands := sent.commands + [Action(what)])
  }

  /** I was put elsewhere since my last step on foot ended. */
  predicate Moved(s: Sync, input: Input, w: World) {
    input.kind == Walk && s.stepped.Some? && w.position != s.stepped.value.position
  }

  /** Before a step of another kind, or from elsewhere, what came before goes out if it may. */
  function SendBefore(s: Sync, input: Input, w: World): Sync {
    var otherKind := s.unsent != [] && Last(s.unsent).input.kind != input.kind;
    var moved := Moved(s, input, w);
    var afoot := if input.kind == Cart then s.(stepped := None) else s;
    var sent := if (otherKind || (moved && s.unsent != [])) && Open(s, w) then PushMotion(afoot, w) else afoot;
    if moved then sent.(stepped := None) else sent
  }

  function RecordStep(s: Sync, input: Input, w: World): Sync {
    var number := s.step + 1;
    if !s.online then s.(step := number)
    else
      var sent := SendBefore(s, input, w);
      var started := if sent.unsent == [] then sent.(unsentFirst := number, unsentStart := w.position) else sent;
      started.(step := number, unsent := AppendStep(started.unsent, input))
  }

  /** A new course, played offline or online: all pending motion is forgotten, the number kept. */
  function Reset(s: Sync, online: bool): Sync {
    Sync(online, s.step, [], 0, ORIGIN, None, s.commands)
  }

  /** What is pending is given up (`src/game/sync_reconciliation.cpp`). */
  function Discard(s: Sync): Sync {
    s.(unsent := [], stepped := None)
  }

  function Plus(a: Vec, b: Vec): Vec {
    Vec(a.x + b.x, a.y + b.y, a.z + b.z)
  }

  /** The server moves me by `shift`, to `place`. */
  function Correct(s: Sync, shift: Vec, place: Vec): Sync {
    s.(unsentStart := Plus(s.unsentStart, shift),
       stepped := if s.stepped.Some? then Some(s.stepped.value.(position := place)) else None)
  }

  // ---- Runs of the protocol ----

  /**
    Transmit: the connection empties the queue, each command sent or lost. RoomChanged:
    a reset that empties it too. NewGame: a new state takes this one's place, offline.
  */
  datatype Event =
    | Step(input: Input, w: World)
    | Tick(w: World)
    | SendNow(w: World)
    | Flush(w: World)
    | Act(what: nat, w: World)
    | Stepped(motion: Motion)
    | Corrected(shift: Vec, place: Vec)
    | Refused
    | Restart(online: bool)
    | RoomChanged
    | Transmit(accepted: seq<bool>)
    | NewGame

  function Apply(s: Sync, e: Event): Sync {
    match e
    case Step(input, w) => RecordStep(s, input, w)
    case Tick(w) => SyncMotion(s, w)
    case SendNow(w) => SendMotionNow(s, w)
    case Flush(w) => SendSteps(s, w)
    case Act(what, w) => PushCommand(s, what, w)
    case Stepped(motion) => s.(stepped := Some(motion))
    case Corrected(shift, place) => Correct(s, shift, place)
    case Refused => Discard(s)
    case Restart(online) => Reset(s, online)
    case RoomChanged => Reset(s, s.online)
    case Transmit(_) => s
    case NewGame => Start(false)
  }

  function After(s: Sync, events: seq<Event>): Sync {
    if events == [] then s else Apply(After(s, events[..|events| - 1]), events[|events| - 1])
  }

  /** As the game starts. */
  function Start(online: bool): Sync {
    Sync(online, 0, [], 0, ORIGIN, None, [])
  }

  // ---- What a run took, and what it sent ----

  /** One fixed step taken: its number, its input and where it started. */
  datatype Taken = Taken(number: nat, input: Input, from: Vec)

  /** Pending steps are dropped. */
  predicate Drops(e: Event) {
    e.Restart? || e.Refused? || e.RoomChanged? || e.NewGame?
  }

  /** How many of `kept` came before what is pending. */
  function Sure(s: Sync, kept: seq<Taken>): nat {
    var pending := |Expand(s.unsent)|;
    if pending <= |kept| then |kept| - pending else |kept|
  }

  /** As if each had started that much elsewhere. */
  function MovedBy(kept: seq<Taken>, shift: Vec): seq<Taken> {
    seq(|kept|, k requires 0 <= k < |kept| => kept[k].(from := Plus(kept[k].from, shift)))
  }

  /**
    The steps taken online since the state was made and not dropped, in the order taken;
    a correction moves those still pending.
  */
  function Kept(s: Sync, events: seq<Event>): seq<Taken> {
    if events == [] then []
    else
      var before := After(s, events[..|events| - 1]);
      var kept := Kept(s, events[..|events| - 1]);
      match events[|events| - 1]
      case Step(input, w) => if before.online then kept + [Taken(before.step + 1, input, w.position)] else kept
      case Corrected(shift, _) => kept[..Sure(before, kept)] + MovedBy(kept[Sure(before, kept)..], shift)
      case Restart(_) | Refused | RoomChanged => kept[..Sure(before, kept)]
      case NewGame => []
      case _ => kept
  }

  /** A step as a batch tells it: its number and its input. */
  type Told = (nat, Input)

  function Numbered(first: nat, inputs: seq<Input>): seq<Told> {
    seq(|inputs|, k requires 0 <= k < |inputs| => (first + k, inputs[k]))
  }

  /** What the queued batches tell, in queue order. */
  function Delivered(commands: seq<Command>): seq<Told> {
    if commands == [] then []
    else
      Delivered(commands[..|commands| - 1]) +
      match commands[|commands| - 1]
      case Batch(runs, first, _, _, _) => Numbered(first, Expand(runs))
      case Action(_) => []
  }

  function Pending(s: Sync): seq<Told> {
    Numbered(s.unsentFirst, Expand(s.unsent))
  }

  function Tell(kept: seq<Taken>): seq<Told> {
    seq(|kept|, k requires 0 <= k < |kept| => (kept[k].number, kept[k].input))
  }

  // ---- The invariant ----

  /** Numbers rise, none above `top`. */
  predicate Rising(kept: seq<Taken>, top: nat) {
    && (forall j, k | 0 <= j < k < |kept| :: kept[j].number < kept[k].number)
    && (forall k | 0 <= k < |kept| :: 1 <= kept[k].number <= top)
  }

  /** The step numbered `first` was taken from `start`. */
  predicate StartsAt(kept: seq<Taken>, first: nat, start: Vec) {
    exists k :: 0 <= k < |kept| && kept[k].number == first && kept[k].from == start
  }

  predicate IsBatch(c: Command, kept: seq<Taken>) {
    c.Batch? && c.runs != [] ==>
      IsRuns(c.runs) && c.last + 1 == c.first + |Expand(c.runs)| && StartsAt(kept, c.first, c.start)
  }

  ghost predicate Valid(s: Sync, kept: seq<Taken>) {
    && Tell(kept) == Delivered(s.commands) + Pending(s)
    && Rising(kept, s.step)
    && (!s.online ==> s.unsent == [])
    && IsRuns(s.unsent)
    && (s.unsent != [] ==> s.step + 1 == s.unsentFirst + |Expand(s.unsent)| && StartsAt(kept, s.unsentFirst, s.unsentStart))
    && (forall k | 0 <= k < |s.commands| :: IsBatch(s.commands[k], kept))
  }

  lemma ExpandEmptyOnly(runs: seq<Run>)
    requires IsRuns(runs)
    ensures Expand(runs) == [] <==> runs == []
  {
    if runs != [] {
      assert 1 <= runs[|runs| - 1].steps;
    }
  }

  lemma DeliveredSnoc(commands: seq<Command>, c: Command)
    ensures Delivered(commands + [c])
            == Delivered(commands) + if c.Batch? then Numbered(c.first, Expand(c.runs)) else []
  {
    assert (commands + [c])[..|commands|] == commands;
  }

  /** A push moves what is pending to the end of what is delivered. */
  lemma PushKeepsValid(s: Sync, w: World, kept: seq<Taken>)
    requires Valid(s, kept)
    ensures Valid(PushMotion(s, w), kept)
    ensures Delivered(PushMotion(s, w).commands) == Tell(kept)
  {
    hide Delivered, Expand, IsRuns, StartsAt, Rising, Tell, Beside, IsBatch;
    var c := Batch(s.unsent, s.unsentFirst, s.step, s.unsentStart, Beside(s, w.motion));
    DeliveredSnoc(s.commands, c);
    NonePending(PushMotion(s, w));
    PushedIsBatch(s, c, kept);
    assert Delivered(s.commands) + Pending(s) + [] == Delivered(s.commands) + Pending(s);
  }

  lemma NonePending(s: Sync)
    requires s.unsent == []
    ensures Pending(s) == [] && IsRuns(s.unsent)
  {}

  lemma PushedIsBatch(s: Sync, c: Command, kept: seq<Taken>)
    requires Valid(s, kept) && c.Batch? && c.runs == s.unsent && c.first == s.unsentFirst && c.last == s.step && c.start == s.unsentStart
    ensures IsBatch(c, kept)
  {
    hide Delivered, Expand, StartsAt, Rising, Tell;
  }

  lemma StartsAtGrows(kept: seq<Taken>, more: Taken, first: nat, start: Vec)
    requires StartsAt(kept, first, start)
    ensures StartsAt(kept + [more], first, start)
  {
    var k :| 0 <= k < |kept| && kept[k].number == first && kept[k].from == start;
    assert (kept + [more])[k] == kept[k];
  }

  /** A step appended to a state whose runs and number stand for the same steps. */
  lemma AppendKeepsValid(s: Sync, input: Input, from: Vec, kept: seq<Taken>)
    requires Valid(s, kept) && s.online
    ensures var first := if s.unsent == [] then s.step + 1 else s.unsentFirst;
            var start := if s.unsent == [] then from else s.unsentStart;
            Valid(s.(step := s.step + 1, unsent := AppendStep(s.unsent, input), unsentFirst := first, unsentStart := start),
                  kept + [Taken(s.step + 1, input, from)])
  {
    hide AppendStep, Expand, IsRuns, Delivered, StartsAt, IsBatch, Numbered, Tell, Rising;
    var first := if s.unsent == [] then s.step + 1 else s.unsentFirst;
    var start := if s.unsent == [] then from else s.unsentStart;
    var taken := Taken(s.step + 1, input, from);
    var inputs := Expand(s.unsent);
    AppendExpands(s.unsent, input);
    AppendKeepsRuns(s.unsent, input);
    ExpandEmptyOnly(s.unsent);
    NumberedSnoc(if inputs == [] then s.unsentFirst else first, first, inputs, input);
    TellSnoc(kept, taken);
    assert Delivered(s.commands) + (Numbered(s.unsentFirst, inputs) + [(s.step + 1, input)])
        == Delivered(s.commands) + Numbered(s.unsentFirst, inputs) + [(s.step + 1, input)];
    RisingSnoc(kept, taken, s.step);
    if s.unsent == [] {
      StartsLast(kept, taken);
    } else {
      StartsAtGrows(kept, taken, first, start);
    }
    BatchesStay(s.commands, kept, taken);
  }

  /** One more step told; where the first is numbered matters only once there is one. */
  lemma NumberedSnoc(was: nat, first: nat, inputs: seq<Input>, input: Input)
    requires inputs != [] ==> was == first
    ensures Numbered(first, inputs + [input]) == Numbered(was, inputs) + [(first + |inputs|, input)]
  {}

  lemma TellSnoc(kept: seq<Taken>, taken: Taken)
    ensures Tell(kept + [taken]) == Tell(kept) + [(taken.number, taken.input)]
  {}

  lemma RisingSnoc(kept: seq<Taken>, taken: Taken, top: nat)
    requires Rising(kept, top) && taken.number == top + 1
    ensures Rising(kept + [taken], top + 1)
  {}

  lemma StartsLast(kept: seq<Taken>, taken: Taken)
    ensures StartsAt(kept + [taken], taken.number, taken.from)
  {
    assert (kept + [taken])[|kept|] == taken;
  }

  lemma BatchesStay(commands: seq<Command>, kept: seq<Taken>, more: Taken)
    requires forall k | 0 <= k < |commands| :: IsBatch(commands[k], kept)
    ensures forall k | 0 <= k < |commands| :: IsBatch(commands[k], kept + [more])
  {
    hide StartsAt, Expand, IsRuns;
    forall k | 0 <= k < |commands| ensures IsBatch(commands[k], kept + [more]) {
      var c := commands[k];
      if c.Batch? && c.runs != [] {
        StartsAtGrows(kept, more, c.first, c.start);
      }
    }
  }

  lemma PlacementKeepsValid(s: Sync, stepped: Option<Motion>, kept: seq<Taken>)
    requires Valid(s, kept)
    ensures Valid(s.(stepped := stepped), kept)
  {
    assert Pending(s.(stepped := stepped)) == Pending(s);
  }

  lemma OfflineStepKeepsValid(s: Sync, kept: seq<Taken>)
    requires Valid(s, kept) && !s.online
    ensures Valid(s.(step := s.step + 1), kept)
  {
    assert Pending(s.(step := s.step + 1)) == Pending(s);
  }

  lemma SendBeforeKeepsValid(s: Sync, input: Input, w: World, kept: seq<Taken>)
    requires Valid(s, kept)
    ensures Valid(SendBefore(s, input, w), kept)
    ensures SendBefore(s, input, w).step == s.step && SendBefore(s, input, w).online == s.online
  {
    hide Valid;
    var afoot := if input.kind == Cart then s.(stepped := None) else s;
    PlacementKeepsValid(s, None, kept);
    PushKeepsValid(afoot, w, kept);
    PlacementKeepsValid(afoot, None, kept);
    PlacementKeepsValid(PushMotion(afoot, w), None, kept);
  }

  lemma StepKeepsValid(s: Sync, input: Input, w: World, kept: seq<Taken>)
    requires Valid(s, kept)
    ensures Valid(RecordStep(s, input, w), if s.online then kept + [Taken(s.step + 1, input, w.position)] else kept)
  {
    hide Valid, SendBefore;
    if !s.online {
      OfflineStepKeepsValid(s, kept);
    } else {
      SendBeforeKeepsValid(s, input, w, kept);
      AppendKeepsValid(SendBefore(s, input, w), input, w.position, kept);
    }
  }

  lemma ActionKeepsValid(s: Sync, what: nat, kept: seq<Taken>)
    requires Valid(s, kept)
    ensures Valid(s.(commands := s.commands + [Action(what)]), kept)
  {
    DeliveredSnoc(s.commands, Action(what));
    assert Pending(s.(commands := s.commands + [Action(what)])) == Pending(s);
  }

  /** Dropping what is pending drops the last steps kept, and leaves every batch a batch. */
  lemma DropKeepsValid(s: Sync, s': Sync, kept: seq<Taken>)
    requires Valid(s, kept) && s'.unsent == [] && s'.step == s.step && s'.commands == s.commands
    ensures Sure(s, kept) == |kept| - |Expand(s.unsent)| && Valid(s', kept[..Sure(s, kept)])
    ensures Tell(kept[..Sure(s, kept)]) == Delivered(s.commands)
  {
    hide Delivered, IsBatch, StartsAt;
    var pending := |Expand(s.unsent)|;
    assert |Tell(kept)| == |Delivered(s.commands)| + pending;
    var kept' := kept[..|kept| - pending];
    assert Tell(kept') == Tell(kept)[..|kept| - pending] == Delivered(s.commands);
    assert Pending(s') == [];
    BatchesKept(s, kept, kept');
  }

  /** A batch stays one when only steps not delivered are forgotten. */
  lemma BatchesKept(s: Sync, kept: seq<Taken>, kept': seq<Taken>)
    requires Rising(kept, s.step) && kept' <= kept && Tell(kept') == Delivered(s.commands)
    requires forall k | 0 <= k < |s.commands| :: IsBatch(s.commands[k], kept)
    ensures forall k | 0 <= k < |s.commands| :: IsBatch(s.commands[k], kept')
  {
    hide Delivered, Expand, IsRuns, StartsAt, Rising, Tell;
    forall k | 0 <= k < |s.commands| ensures IsBatch(s.commands[k], kept') {
      var c := s.commands[k];
      assert IsBatch(c, kept);
      if c.Batch? && c.runs != [] {
        DeliveredHas(s.commands, k);
        StartsIn(kept, kept', c.first, c.start);
      }
    }
  }

  /** A batch's first step is among those delivered. */
  lemma {:induction false} DeliveredHas(commands: seq<Command>, k: nat)
    requires k < |commands| && commands[k].Batch? && commands[k].runs != [] && IsRuns(commands[k].runs)
    ensures exists m :: 0 <= m < |Delivered(commands)| && Delivered(commands)[m].0 == commands[k].first
  {
    var n := |commands| - 1;
    var init := Delivered(commands[..n]);
    if k < n {
      DeliveredHas(commands[..n], k);
      var m :| 0 <= m < |init| && init[m].0 == commands[k].first;
      assert Delivered(commands)[m].0 == commands[k].first;
    } else {
      var c := commands[n];
      ExpandEmptyOnly(c.runs);
      assert Delivered(commands)[|init|] == Numbered(c.first, Expand(c.runs))[0];
    }
  }

  /** Numbers rise, so the step a batch starts with is still kept when its number is. */
  lemma StartsIn(kept: seq<Taken>, kept': seq<Taken>, first: nat, start: Vec)
    requires kept' <= kept && (exists top :: Rising(kept, top)) && StartsAt(kept, first, start)
    requires exists m :: 0 <= m < |Tell(kept')| && Tell(kept')[m].0 == first
    ensures StartsAt(kept', first, start)
  {
    var k :| 0 <= k < |kept| && kept[k].number == first && kept[k].from == start;
    var m :| 0 <= m < |Tell(kept')| && Tell(kept')[m].0 == first;
    assert kept[m] == kept'[m];
    assert k == m;
  }

  /** A correction moves where the pending steps started, and no batch. */
  lemma CorrectKeepsValid(s: Sync, shift: Vec, place: Vec, kept: seq<Taken>)
    requires Valid(s, kept)
    ensures Valid(Correct(s, shift, place), kept[..Sure(s, kept)] + MovedBy(kept[Sure(s, kept)..], shift))
  {
    hide Delivered, IsBatch, StartsAt, Rising;
    var s', n := Correct(s, shift, place), Sure(s, kept);
    DropKeepsValid(s, s.(unsent := []), kept);
    var moved := MovedBy(kept[n..], shift);
    var kept' := kept[..n] + moved;
    assert Tell(kept') == Tell(kept);
    RisingMoved(kept, kept', s.step);
    forall k | 0 <= k < |s.commands| ensures IsBatch(s.commands[k], kept') {
      BatchStays(s.commands[k], kept[..n], moved);
    }
    if s.unsent != [] {
      ExpandEmptyOnly(s.unsent);
      assert Tell(kept)[n] == (s.unsentFirst, Expand(s.unsent)[0]);
      FirstMoved(kept, n, s.unsentFirst, s.unsentStart, s.step, shift);
    }
  }

  lemma RisingMoved(kept: seq<Taken>, kept': seq<Taken>, top: nat)
    requires Rising(kept, top) && |kept'| == |kept| && forall k | 0 <= k < |kept| :: kept'[k].number == kept[k].number
    ensures Rising(kept', top)
  {}

  lemma BatchStays(c: Command, kept: seq<Taken>, more: seq<Taken>)
    requires IsBatch(c, kept)
    ensures IsBatch(c, kept + more)
  {
    if c.Batch? && c.runs != [] {
      var k :| 0 <= k < |kept| && kept[k].number == c.first && kept[k].from == c.start;
      assert (kept + more)[k] == kept[k];
    }
  }

  lemma FirstMoved(kept: seq<Taken>, n: nat, first: nat, start: Vec, top: nat, shift: Vec)
    requires n < |kept| && kept[n].number == first && Rising(kept, top) && StartsAt(kept, first, start)
    ensures StartsAt(kept[..n] + MovedBy(kept[n..], shift), first, Plus(start, shift))
  {
    var k :| 0 <= k < |kept| && kept[k].number == first && kept[k].from == start;
    assert k == n;
    var kept' := kept[..n] + MovedBy(kept[n..], shift);
    assert kept'[n] == kept[n].(from := Plus(kept[n].from, shift));
  }

  lemma ApplyKeepsValid(s: Sync, events: seq<Event>, e: Event)
    requires Valid(After(s, events), Kept(s, events))
    ensures Valid(After(s, events + [e]), Kept(s, events + [e]))
  {
    hide Valid, RecordStep, Open;
    var s0, kept := After(s, events), Kept(s, events);
    assert (events + [e])[..|events|] == events;
    match e
    case Step(input, w) => StepKeepsValid(s0, input, w, kept);
    case Tick(w) => PushKeepsValid(s0, w, kept);
    case SendNow(w) => PushKeepsValid(s0, w, kept);
    case Flush(w) => PushKeepsValid(s0, w, kept);
    case Act(what, w) =>
      PushKeepsValid(s0, w, kept);
      ActionKeepsValid(SendSteps(s0, w), what, kept);
    case Stepped(motion) => PlacementKeepsValid(s0, Some(motion), kept);
    case Corrected(shift, place) => CorrectKeepsValid(s0, shift, place, kept);
    case Refused => DropKeepsValid(s0, Discard(s0), kept);
    case Restart(online) => DropKeepsValid(s0, Reset(s0, online), kept);
    case RoomChanged => DropKeepsValid(s0, Reset(s0, s0.online), kept);
    case Transmit(_) =>
    case NewGame => StartIsValid(false);
  }

  lemma {:induction false} RunKeepsValid(s: Sync, events: seq<Event>)
    requires Valid(s, [])
    ensures Valid(After(s, events), Kept(s, events))
  {
    hide Valid;
    if events != [] {
      var n := |events| - 1;
      RunKeepsValid(s, events[..n]);
      ApplyKeepsValid(s, events[..n], events[n]);
      assert events == events[..n] + [events[n]];
    }
  }

  lemma StartIsValid(online: bool)
    ensures Valid(Start(online), [])
  {}

  // ---- What the protocol promises ----

  /**
    Exactly once and in order, over every run: what the batches tell, then what is still
    pending, is every step taken online since the state was made and not dropped, with
    its number.
  */
  lemma ExactlyOnce(online: bool, events: seq<Event>)
    ensures var s, kept := After(Start(online), events), Kept(Start(online), events);
            && Tell(kept) == Delivered(s.commands) + Pending(s)
            && Rising(kept, s.step)
  {
    hide Delivered, Pending, Tell, Rising, Kept, After;
    StartIsValid(online);
    RunKeepsValid(Start(online), events);
  }

  /** Every non-empty batch spans its numbers, starts where its first step did, and is canonical. */
  lemma BatchesSpan(online: bool, events: seq<Event>, k: nat)
    requires k < |After(Start(online), events).commands|
    ensures IsBatch(After(Start(online), events).commands[k], Kept(Start(online), events))
  {
    hide IsBatch, Kept, After, Delivered, Pending, Tell, Rising;
    StartIsValid(online);
    RunKeepsValid(Start(online), events);
  }

  /** Where a batch's steps lie among those delivered. */
  lemma {:induction false} DeliveredFrom(commands: seq<Command>, k: nat, m: nat)
    requires k < |commands| && commands[k].Batch? && m < |Expand(commands[k].runs)|
    ensures var from := |Delivered(commands[..k])|;
            from + m < |Delivered(commands)| && Delivered(commands)[from + m].0 == commands[k].first + m
  {
    hide Expand;
    var n := |commands| - 1;
    if k < n {
      DeliveredFrom(commands[..n], k, m);
      assert commands[..n][..k] == commands[..k];
    }
  }

  lemma DeliveredNext(commands: seq<Command>, k: nat)
    requires k < |commands| && commands[k].Batch?
    ensures |Delivered(commands[..k + 1])| == |Delivered(commands[..k])| + |Expand(commands[k].runs)|
  {
    hide Expand;
    assert commands[..k + 1][..k] == commands[..k];
  }

  lemma {:induction false} DeliveredGrows(commands: seq<Command>, j: nat, k: nat)
    requires j <= k <= |commands|
    ensures |Delivered(commands[..j])| <= |Delivered(commands[..k])|
    ensures forall m | j <= m < k && commands[m].Batch? :: |Delivered(commands[..j])| + |Expand(commands[m].runs)| <= |Delivered(commands[..k])|
    ensures (forall m | j <= m < k && commands[m].Batch? :: Expand(commands[m].runs) == []) ==>
              Delivered(commands[..j]) == Delivered(commands[..k])
    decreases k
  {
    hide Expand;
    if j < k {
      DeliveredGrows(commands, j, k - 1);
      assert commands[..k][..k - 1] == commands[..k - 1];
    }
  }

  /** Batches rise: each spans numbers above those of every batch queued before it. */
  lemma BatchesRise(online: bool, events: seq<Event>, j: nat, k: nat)
    requires var commands := After(Start(online), events).commands;
             j < k < |commands| && commands[j].Batch? && commands[k].Batch? && commands[j].runs != [] && commands[k].runs != []
    ensures After(Start(online), events).commands[j].last < After(Start(online), events).commands[k].first
  {
    hide Expand, After, Kept;
    var s, kept := After(Start(online), events), Kept(Start(online), events);
    ExactlyOnce(online, events);
    BatchesSpan(online, events, j);
    BatchesSpan(online, events, k);
    var a, b := s.commands[j], s.commands[k];
    ExpandEmptyOnly(a.runs);
    ExpandEmptyOnly(b.runs);
    DeliveredFrom(s.commands, j, |Expand(a.runs)| - 1);
    DeliveredFrom(s.commands, k, 0);
    DeliveredGrows(s.commands, j, k);
    var x, y := |Delivered(s.commands[..j])| + |Expand(a.runs)| - 1, |Delivered(s.commands[..k])|;
    assert Tell(kept)[x] == Delivered(s.commands)[x] && Tell(kept)[y] == Delivered(s.commands)[y];
    assert kept[x].number < kept[y].number;
  }

  /** The inputs of a run's steps. */
  function Inputs(events: seq<Event>): seq<Input> {
    if events == [] then []
    else
      Inputs(events[..|events| - 1]) +
      match events[|events| - 1] case Step(input, _) => [input] case _ => []
  }

  predicate NoneDropped(events: seq<Event>) {
    forall k | 0 <= k < |events| :: !Drops(events[k])
  }

  lemma AfterSnoc(s: Sync, events: seq<Event>, e: Event)
    ensures After(s, events + [e]) == Apply(After(s, events), e)
  {
    hide Apply;
    assert (events + [e])[..|events|] == events;
  }

  lemma {:induction false} AfterConcat(s: Sync, events: seq<Event>, more: seq<Event>)
    ensures After(s, events + more) == After(After(s, events), more)
  {
    if more == [] {
      assert events + more == events;
    } else {
      hide Apply, After;
      var n := |more| - 1;
      AfterConcat(s, events, more[..n]);
      AfterSnoc(s, events + more[..n], more[n]);
      AfterSnoc(After(s, events), more[..n], more[n]);
      assert events + more == events + more[..n] + [more[n]] && more[..n] + [more[n]] == more;
    }
  }

  lemma TellMoved(kept: seq<Taken>, n: nat, shift: Vec)
    requires n <= |kept|
    ensures Tell(kept[..n] + MovedBy(kept[n..], shift)) == Tell(kept)
  {}

  lemma NumberedGoesOn(first: nat, inputs: seq<Input>, input: Input)
    ensures Numbered(first, inputs + [input]) == Numbered(first, inputs) + [(first + |inputs|, input)]
  {}

  /** No number is skipped or used twice while a state lasts: its steps take the next numbers, resets or not. */
  lemma {:induction false} NumbersGoOn(s: Sync, events: seq<Event>)
    requires forall k | 0 <= k < |events| :: !events[k].NewGame?
    ensures After(s, events).step == s.step + |Inputs(events)|
  {
    if events != [] {
      hide SendBefore, AppendStep;
      NumbersGoOn(s, events[..|events| - 1]);
      SendBeforeKeepsNumber(After(s, events[..|events| - 1]), events[|events| - 1]);
    }
  }

  lemma SendBeforeKeepsNumber(s: Sync, e: Event)
    ensures e.Step? ==> RecordStep(s, e.input, e.w).step == s.step + 1
    ensures !e.Step? && !e.NewGame? ==> Apply(s, e).step == s.step
  {}

  /** One event that drops nothing: what it adds to what is kept. */
  lemma KeptOn(s: Sync, events: seq<Event>, e: Event)
    requires !Drops(e)
    ensures var was := After(s, events);
            && After(s, events + [e]).online == was.online
            && Tell(Kept(s, events + [e])) == Tell(Kept(s, events)) + if e.Step? && was.online then [(was.step + 1, e.input)] else []
  {
    hide Open, AppendStep, Expand, After, Tell;
    assert (events + [e])[..|events|] == events;
    AfterSnoc(s, events, e);
    var kept, was := Kept(s, events), After(s, events);
    match e
    case Step(input, w) => TellSnoc(kept, Taken(was.step + 1, input, w.position));
    case Corrected(shift, _) => TellMoved(kept, Sure(was, kept), shift);
    case _ =>
  }

  lemma {:induction false} AllKept(online: bool, before: seq<Event>, events: seq<Event>)
    requires After(Start(online), before).online && NoneDropped(events)
    ensures After(Start(online), before + events).online
    ensures Tell(Kept(Start(online), before + events))
            == Tell(Kept(Start(online), before)) + Numbered(After(Start(online), before).step + 1, Inputs(events))
  {
    hide After, Kept, Tell, Numbered, Apply, Inputs, Start, Drops;
    var s0 := Start(online);
    if events == [] {
      NoInputs(After(s0, before).step + 1);
      TellsSame(Tell(Kept(s0, before)));
      assert before + events == before;
    } else {
      var n := |events| - 1;
      AllKept(online, before, events[..n]);
      assert before + events == before + events[..n] + [events[n]];
      KeptOn(s0, before + events[..n], events[n]);
      AfterConcat(s0, before, events[..n]);
      NoneReplaced(events[..n]);
      NumbersGoOn(After(s0, before), events[..n]);
      var first, was := After(s0, before).step + 1, Inputs(events[..n]);
      InputsSnoc(events);
      if events[n].Step? {
        NumberedGoesOn(first, was, events[n].input);
        TellsOn(Tell(Kept(s0, before)), Numbered(first, was), (first + |was|, events[n].input));
      } else {
        TellsSame(Tell(Kept(s0, before + events[..n])));
      }
    }
  }

  lemma InputsSnoc(events: seq<Event>)
    requires events != []
    ensures var was, e := Inputs(events[..|events| - 1]), events[|events| - 1];
            Inputs(events) == if e.Step? then was + [e.input] else was
  {}

  lemma NoneReplaced(events: seq<Event>)
    requires NoneDropped(events)
    ensures forall k | 0 <= k < |events| :: !events[k].NewGame?
  {
    forall k | 0 <= k < |events| ensures !events[k].NewGame? {
      assert !Drops(events[k]);
    }
  }

  lemma NoInputs(first: nat)
    ensures Numbered(first, Inputs([])) == []
  {}

  lemma TellsOn(a: seq<Told>, b: seq<Told>, c: Told)
    ensures a + b + [c] == a + (b + [c])
  {}

  lemma TellsSame(a: seq<Told>)
    ensures a + [] == a
  {}

  /**
    In any stretch of any run online in which nothing is dropped, every step is told once,
    numbered on from where the stretch began, after what was told or pending then.
  */
  lemma NothingLost(online: bool, before: seq<Event>, events: seq<Event>)
    requires After(Start(online), before).online && NoneDropped(events)
    ensures var s0, s := After(Start(online), before), After(Start(online), before + events);
            && s.online
            && Delivered(s.commands) + Pending(s) == Delivered(s0.commands) + Pending(s0) + Numbered(s0.step + 1, Inputs(events))
  {
    hide Delivered, Pending, Tell, Kept, After;
    ExactlyOnce(online, before);
    ExactlyOnce(online, before + events);
    AllKept(online, before, events);
  }

  /** A state offline pushes no batch. */
  lemma {:induction false} OfflineQuiet(s: Sync, events: seq<Event>)
    requires !s.online && NoneDropped(events)
    ensures var now := After(s, events);
            !now.online && s.commands <= now.commands && forall k | |s.commands| <= k < |now.commands| :: now.commands[k].Action?
  {
    if events != [] {
      OfflineQuiet(s, events[..|events| - 1]);
    }
  }

  /** What was pending, then what came after, is numbered on without a gap. */
  lemma GoesOn(s0: Sync, inputs: seq<Input>, i: nat)
    requires s0.unsent != [] ==> s0.step + 1 == s0.unsentFirst + |Expand(s0.unsent)|
    requires Expand(s0.unsent) == [] || s0.unsent != []
    requires i + 1 < |Pending(s0)| + |inputs|
    ensures var told := Pending(s0) + Numbered(s0.step + 1, inputs); told[i + 1].0 == told[i].0 + 1
  {
    hide Expand;
  }

  /** In a log, the next non-empty batch's steps come right after the last one's. */
  lemma NextTold(commands: seq<Command>, j: nat, k: nat)
    requires j < k < |commands| && commands[j].Batch? && commands[k].Batch? && commands[j].runs != [] && commands[k].runs != []
    requires IsRuns(commands[j].runs) && IsRuns(commands[k].runs)
    requires forall m | j < m < k && commands[m].Batch? :: commands[m].runs == []
    ensures var x := |Delivered(commands[..j])| + |Expand(commands[j].runs)| - 1;
            && 0 <= x && x + 1 < |Delivered(commands)|
            && Delivered(commands)[x].0 == commands[j].first + |Expand(commands[j].runs)| - 1
            && Delivered(commands)[x + 1].0 == commands[k].first
  {
    hide Expand, Delivered, IsRuns;
    var a, b := commands[j], commands[k];
    ExpandEmptyOnly(a.runs);
    ExpandEmptyOnly(b.runs);
    ExpandNothing();
    DeliveredFrom(commands, j, |Expand(a.runs)| - 1);
    DeliveredFrom(commands, k, 0);
    DeliveredGrows(commands, j + 1, k);
    DeliveredNext(commands, j);
  }

  lemma ExpandNothing()
    ensures Expand([]) == []
  {}

  /**
    No gap while nothing is dropped, at any point of any run: of the batches pushed in such
    a stretch, the next non-empty one starts right after the last.
  */
  lemma BatchesMeet(online: bool, before: seq<Event>, events: seq<Event>, j: nat, k: nat)
    requires NoneDropped(events)
    requires var log := After(Start(online), before + events).commands;
             && |After(Start(online), before).commands| <= j < k < |log|
             && log[j].Batch? && log[k].Batch? && log[j].runs != [] && log[k].runs != []
             && forall m | j < m < k && log[m].Batch? :: log[m].runs == []
    ensures var log := After(Start(online), before + events).commands; log[k].first == log[j].last + 1
  {
    hide Expand, After, Kept, Delivered, Inputs, Tell, IsRuns, Rising, StartsAt;
    var s0, s := After(Start(online), before), After(Start(online), before + events);
    AfterConcat(Start(online), before, events);
    if !s0.online {
      OfflineQuiet(s0, events);
    } else {
      QueueGrows(Start(online), before, events);
      NothingLost(online, before, events);
      BatchesSpan(online, before + events, j);
      BatchesSpan(online, before + events, k);
      NextTold(s.commands, j, k);
      var from := |s0.commands|;
      var base := Delivered(s0.commands);
      assert s.commands[..from] == s0.commands;
      DeliveredGrows(s.commands, from, j);
      ExpandEmptyOnly(s.commands[j].runs);
      var x := |Delivered(s.commands[..j])| + |Expand(s.commands[j].runs)| - 1;
      var told := Pending(s0) + Numbered(s0.step + 1, Inputs(events));
      Stretched(Delivered(s.commands), Pending(s), base, told, x);
      StartIsValid(online);
      RunKeepsValid(Start(online), before);
      ExpandNothing();
      GoesOn(s0, Inputs(events), x - |base|);
    }
  }

  lemma Stretched(told: seq<Told>, pending: seq<Told>, base: seq<Told>, more: seq<Told>, x: nat)
    requires |base| <= x && x + 1 < |told| && told + pending == base + more
    ensures x + 1 - |base| < |more| && told[x] == more[x - |base|] && told[x + 1] == more[x + 1 - |base|]
  {
    assert (told + pending)[x] == (base + more)[x] && (told + pending)[x + 1] == (base + more)[x + 1];
  }

  // ---- Numbers over the states that replace each other ----

  /** The number falls exactly when a new state takes the place of one that took steps. */
  lemma NumberFalls(s: Sync, e: Event)
    ensures Apply(s, e).step < s.step <==> e.NewGame? && s.step > 0
  {
    hide SendBefore, AppendStep, Open, Sends;
    SendBeforeKeepsNumber(s, e);
  }

  /** The number the step at `k` takes. */
  function NumberAt(online: bool, events: seq<Event>, k: nat): nat
    requires k < |events|
  {
    After(Start(online), events[..k]).step + 1
  }

  predicate StepAt(events: seq<Event>, k: nat) {
    k < |events| && events[k].Step?
  }

  predicate NewGameAt(events: seq<Event>, k: nat) {
    k < |events| && events[k].NewGame?
  }

  /** A state that has taken steps took its first, number 1. */
  lemma {:induction false} LifeStarts(online: bool, events: seq<Event>, n: nat) returns (f: nat)
    requires n <= |events| && After(Start(online), events[..n]).step > 0
    ensures f < n && StepAt(events, f) && NumberAt(online, events, f) == 1 && forall m | f < m < n :: !NewGameAt(events, m)
  {
    assert n > 0;
    var was := After(Start(online), events[..n - 1]);
    assert events[..n] == events[..n - 1] + [events[n - 1]];
    AfterSnoc(Start(online), events[..n - 1], events[n - 1]);
    hide After, Apply, RecordStep;
    if was.step == 0 {
      if !events[n - 1].Step? {
        QuietNumber(was, events[n - 1]);
      }
      f := n - 1;
    } else {
      NewNumber(was, events[n - 1]);
      f := LifeStarts(online, events, n - 1);
    }
  }

  lemma QuietNumber(s: Sync, e: Event)
    requires !e.Step? && s.step == 0
    ensures Apply(s, e).step == 0
  {
    SendBeforeKeepsNumber(s, e);
  }

  lemma NewNumber(s: Sync, e: Event)
    requires Apply(s, e).step > 0
    ensures !e.NewGame?
  {}

  /** Two steps with no new state between them take different numbers. */
  lemma NumbersDiffer(online: bool, events: seq<Event>, j: nat, k: nat)
    requires j < k && StepAt(events, j) && StepAt(events, k) && forall m | j < m < k :: !NewGameAt(events, m)
    ensures NumberAt(online, events, j) < NumberAt(online, events, k)
  {
    hide Apply, After, Inputs;
    var between := events[j..k];
    assert events[..k] == events[..j] + between;
    AfterConcat(Start(online), events[..j], between);
    forall m | 0 <= m < |between| ensures !between[m].NewGame? {
      assert j + m != j ==> !NewGameAt(events, j + m);
      assert between[m] == events[j + m];
    }
    NumbersGoOn(After(Start(online), events[..j]), between);
    FirstInput(between);
  }

  lemma {:induction false} FirstInput(events: seq<Event>)
    requires events != [] && events[0].Step?
    ensures Inputs(events) != []
  {
    if |events| > 1 {
      FirstInput(events[..|events| - 1]);
    }
  }

  /** A run takes one number twice exactly when a new state comes between two of its steps. */
  lemma NumbersShared(online: bool, events: seq<Event>)
    ensures (exists j: nat, k: nat :: j < k && SharesNumber(online, events, j, k))
            <==> (exists j: nat, m: nat, k: nat :: j < m < k && StepAt(events, j) && NewGameAt(events, m) && StepAt(events, k))
  {
    hide After, NumberAt;
    if j: nat, k: nat :| j < k && SharesNumber(online, events, j, k) {
      if forall m: nat | j < m < k :: !NewGameAt(events, m) {
        NumbersDiffer(online, events, j, k);
      }
    }
    if j: nat, m: nat, k: nat :| j < m < k && StepAt(events, j) && NewGameAt(events, m) && StepAt(events, k) {
      var a := FirstOfLife(online, events, j);
      var b := FirstOfLife(online, events, k);
      assert !NewGameAt(events, b);
      assert a < b && SharesNumber(online, events, a, b);
    }
  }

  predicate SharesNumber(online: bool, events: seq<Event>, j: nat, k: nat) {
    StepAt(events, j) && StepAt(events, k) && NumberAt(online, events, j) == NumberAt(online, events, k)
  }

  lemma FirstOfLife(online: bool, events: seq<Event>, k: nat) returns (f: nat)
    requires StepAt(events, k)
    ensures f <= k && StepAt(events, f) && NumberAt(online, events, f) == 1 && forall m | f < m < k :: !NewGameAt(events, m)
  {
    hide After;
    if After(Start(online), events[..k]).step == 0 {
      f := k;
    } else {
      f := LifeStarts(online, events, k);
    }
  }

  /** All ever pushed, by each state in turn. */
  function AllPushed(online: bool, events: seq<Event>): seq<Command> {
    if events == [] then []
    else
      var init := events[..|events| - 1];
      var was, now := After(Start(online), init), After(Start(online), events);
      AllPushed(online, init) + if |was.commands| <= |now.commands| then now.commands[|was.commands|..] else []
  }

  /** Both states online with motion open, the step one takes and sends is told again by the next. */
  lemma NumbersAgain(input: Input, w: World)
    requires Open(Start(true), w)
    ensures var life := [Restart(true), Step(input, w), Flush(w)];
            var pushed := AllPushed(false, life + [NewGame] + life);
            |pushed| == 2 && forall k | 0 <= k < 2 :: pushed[k].Batch? && pushed[k].first == 1 && pushed[k].last == 1
  {
    hide Apply, After, AllPushed, Open;
    var life := [Restart(true), Step(input, w), Flush(w)];
    NothingPushed();
    var a := PushedLife([], input, w);
    assert [] + life == life;
    PushedSnoc(false, life, NewGame);
    var b := PushedLife(life + [NewGame], input, w);
  }

  lemma NothingPushed()
    ensures After(Start(false), []) == Start(false) && AllPushed(false, []) == []
  {}

  lemma PushedLife(events: seq<Event>, input: Input, w: World) returns (batch: Command)
    requires After(Start(false), events) == Start(false) && Open(Start(true), w)
    ensures var all := events + [Restart(true), Step(input, w), Flush(w)];
            && AllPushed(false, all) == AllPushed(false, events) + [batch]
            && batch.Batch? && batch.first == 1 && batch.last == 1
            && After(Start(false), all).commands == [batch]
            && Apply(After(Start(false), all), NewGame) == Start(false)
  {
    var s1, s2, s3 := LifeOnce(Start(false), input, w);
    hide Apply, After, AllPushed, Open;
    batch := s3.commands[0];
    PushedSnoc(false, events, Restart(true));
    PushedSnoc(false, events + [Restart(true)], Step(input, w));
    PushedSnoc(false, events + [Restart(true)] + [Step(input, w)], Flush(w));
    assert events + [Restart(true), Step(input, w), Flush(w)] == events + [Restart(true)] + [Step(input, w)] + [Flush(w)];
    assert s3.commands == [batch];
  }

  lemma PushedSnoc(online: bool, events: seq<Event>, e: Event)
    ensures var was := After(Start(online), events);
            && After(Start(online), events + [e]) == Apply(was, e)
            && AllPushed(online, events + [e]) == AllPushed(online, events)
               + if |was.commands| <= |Apply(was, e).commands| then Apply(was, e).commands[|was.commands|..] else []
  {
    hide Apply;
    assert (events + [e])[..|events|] == events;
  }

  /** A state newly online takes one step and sends it. */
  lemma LifeOnce(s: Sync, input: Input, w: World) returns (s1: Sync, s2: Sync, s3: Sync)
    requires s == Start(false) && Open(Start(true), w)
    ensures s1 == Apply(s, Restart(true)) && s1.commands == []
    ensures s2 == Apply(s1, Step(input, w)) && s2.commands == []
    ensures s3 == Apply(s2, Flush(w)) && |s3.commands| == 1
    ensures s3.commands[0].Batch? && s3.commands[0].first == 1 && s3.commands[0].last == 1
    ensures Apply(s3, NewGame) == s
  {
    s1 := Apply(s, Restart(true));
    s2 := Apply(s1, Step(input, w));
    s3 := Apply(s2, Flush(w));
    assert s2.unsent == [Run(input, 1)] && s2.step == 1 && s2.unsentFirst == 1;
  }

  /**
    The action barrier. An action stands right at the queue's end; the steps before it
    are all in batches ahead of it exactly when motion was open or nothing was pending.
  */
  lemma Barrier(online: bool, events: seq<Event>, what: nat, w: World)
    ensures var s := After(Start(online), events);
            var s' := PushCommand(s, what, w);
            var before := s'.commands[..|s'.commands| - 1];
            && s'.commands == before + [Action(what)] && s.commands <= before
            && (s'.unsent == [] <==> Open(s, w) || s.unsent == [])
            && (Delivered(before) == Tell(Kept(Start(online), events)) <==> Open(s, w) || s.unsent == [])
  {
    var s, kept := After(Start(online), events), Kept(Start(online), events);
    RunKeepsValid(Start(online), events);
    PushKeepsValid(s, w, kept);
    ExpandEmptyOnly(s.unsent);
    var sent := SendSteps(s, w);
    assert PushCommand(s, what, w).commands[..|sent.commands|] == sent.commands;
    if s.unsent == [] {
      assert Pending(s) == [];
    } else {
      assert |Pending(s)| > 0;
    }
  }

  /**
    Reached in one step: while motion is held, an action goes out ahead of the step before
    it. So it does when I walk on while the server corrects my ball, and use an item.
  */
  lemma ActionOvertakes(input: Input, w: World, held: World, what: nat)
    requires held.ballCorrection
    ensures var s := After(Start(true), [Step(input, w), Act(what, held)]);
            s.commands == [Action(what)] && Expand(s.unsent) == [input]
  {
    AfterTwo(Start(true), Step(input, w), Act(what, held));
    var s1 := RecordStep(Start(true), input, w);
    assert s1.unsent == [Run(input, 1)] && s1.commands == [];
    AppendExpands([], input);
  }

  lemma AfterTwo(s: Sync, a: Event, b: Event)
    ensures After(s, [a, b]) == Apply(Apply(s, a), b)
  {
    hide Apply;
    AfterSnoc(s, [a], b);
    AfterSnoc(s, [], a);
    assert [a] + [b] == [a, b] && [] + [a] == [a];
  }

  lemma ApplyGrows(s: Sync, e: Event)
    requires !e.NewGame?
    ensures s.commands <= Apply(s, e).commands
  {}

  lemma PrefixOn(a: seq<Command>, b: seq<Command>, c: seq<Command>)
    requires a <= b <= c
    ensures a <= c
  {}

  /** While a state lasts it only ever pushes more. */
  lemma {:induction false} QueueGrows(s: Sync, events: seq<Event>, more: seq<Event>)
    requires forall k | 0 <= k < |more| :: !more[k].NewGame?
    ensures After(s, events).commands <= After(s, events + more).commands
  {
    if more == [] {
      assert events + more == events;
    } else {
      var n := |more| - 1;
      hide Apply, After;
      QueueGrows(s, events, more[..n]);
      ApplyGrows(After(s, events + more[..n]), more[n]);
      AfterSnoc(s, events + more[..n], more[n]);
      assert events + more == events + more[..n] + [more[n]];
      PrefixOn(After(s, events).commands, After(s, events + more[..n]).commands, After(s, events + more).commands);
    }
  }

  /** So an action pushed with motion open stays behind every step kept before it, whatever follows in that state. */
  lemma BarrierHolds(online: bool, events: seq<Event>, what: nat, w: World, more: seq<Event>)
    requires forall k | 0 <= k < |more| :: !more[k].NewGame?
    requires Open(After(Start(online), events), w)
    ensures var queue := After(Start(online), events + [Act(what, w)] + more).commands;
            exists k :: 0 <= k < |queue| && queue[k] == Action(what) &&
                        Delivered(queue[..k]) == Tell(Kept(Start(online), events))
  {
    var s := After(Start(online), events);
    Barrier(online, events, what, w);
    assert (events + [Act(what, w)])[..|events|] == events;
    var s' := After(Start(online), events + [Act(what, w)]);
    assert s' == PushCommand(s, what, w);
    QueueGrows(Start(online), events + [Act(what, w)], more);
    var queue := After(Start(online), events + [Act(what, w)] + more).commands;
    var k := |s'.commands| - 1;
    assert queue[k] == s'.commands[k] && queue[..k] == s'.commands[..k];
  }

  /** Each way of sending leaves nothing pending exactly when it may send, or nothing was; none changes what is told. */
  lemma SendsWhenItMay(s: Sync, w: World, kept: seq<Taken>)
    requires Valid(s, kept)
    ensures SyncMotion(s, w).unsent == [] <==> s.unsent == [] || (Open(s, w) && w.due)
    ensures SendMotionNow(s, w).unsent == [] <==> s.unsent == [] || Sends(s, w)
    ensures SendSteps(s, w).unsent == [] <==> s.unsent == [] || Open(s, w)
    ensures forall s' | s' in [SyncMotion(s, w), SendMotionNow(s, w), SendSteps(s, w)] ::
              Delivered(s'.commands) + Pending(s') == Delivered(s.commands) + Pending(s)
  {
    hide Delivered, Pending, Open, Sends, Beside;
    PushKeepsValid(s, w, kept);
  }

  // ---- The place told beside a batch ----

  /** Whether an event puts a place beside my steps: a step on foot ended there, or the server moved me there. */
  predicate Puts(e: Event) {
    e.Stepped? || e.Corrected?
  }

  function PlaceOf(e: Event): Vec
    requires Puts(e)
  {
    if e.Stepped? then e.motion.position else e.place
  }

  /** The last event before `k` that puts a place. */
  predicate LastPut(events: seq<Event>, b: nat, k: nat) {
    b < k <= |events| && Puts(events[b]) && forall m | b < m < k :: !Puts(events[m])
  }

  /** I drove, or stepped from elsewhere than last put, or all was given up. */
  predicate Clears(online: bool, events: seq<Event>, k: nat)
    requires k < |events|
  {
    || Drops(events[k])
    || (events[k].Step? && After(Start(online), events[..k]).online
        && (events[k].input.kind == Cart || exists b :: 0 <= b < k && LastPut(events, b, k) && events[k].w.position != PlaceOf(events[b])))
  }

  /** My last step on foot ended at `a`, nothing cleared it since, and I was last put somewhere at `b`. */
  predicate PlacedBy(online: bool, events: seq<Event>, a: nat, b: nat) {
    && a <= b && LastPut(events, b, |events|) && events[a].Stepped?
    && forall m | a < m < |events| :: !events[m].Stepped? && !Clears(online, events, m)
  }

  function MotionBy(events: seq<Event>, a: nat, b: nat): Motion
    requires a < |events| && events[a].Stepped? && b < |events| && Puts(events[b])
  {
    events[a].motion.(position := PlaceOf(events[b]))
  }

  /** What was before stays as it was, whatever comes after. */
  lemma ClearsBefore(online: bool, events: seq<Event>, e: Event, k: nat)
    requires k < |events|
    ensures Clears(online, events + [e], k) <==> Clears(online, events, k)
  {
    hide After;
    var all := events + [e];
    assert all[..k] == events[..k] && all[k] == events[k];
    forall b: nat ensures LastPut(all, b, k) <==> LastPut(events, b, k) {
      PutBefore(events, e, b, k);
    }
    forall b: nat | b < k ensures all[b] == events[b] {}
  }

  lemma PutBefore(events: seq<Event>, e: Event, b: nat, k: nat)
    requires k <= |events|
    ensures LastPut(events + [e], b, k) <==> LastPut(events, b, k)
  {
    assert forall m | 0 <= m < |events| :: (events + [e])[m] == events[m];
  }

  lemma LastPutIsOne(events: seq<Event>, b: nat, c: nat, k: nat)
    requires LastPut(events, b, k) && LastPut(events, c, k)
    ensures b == c
  {}

  /** One event on: what the places were, and what the event does to them. */
  lemma PlacedOn(online: bool, events: seq<Event>, e: Event, a: nat, b: nat)
    requires !e.Stepped? && a < |events|
    ensures PlacedBy(online, events + [e], a, b)
            <==> !Clears(online, events + [e], |events|)
                 && if e.Corrected? then b == |events| && exists c: nat :: PlacedBy(online, events, a, c) else PlacedBy(online, events, a, b)
  {
    hide After, Clears;
    var all, n := events + [e], |events|;
    assert all[n] == e && forall m | 0 <= m < n :: all[m] == events[m];
    forall m: nat | m < n ensures Clears(online, all, m) <==> Clears(online, events, m) {
      ClearsBefore(online, events, e, m);
    }
    if PlacedBy(online, all, a, b) {
      assert !Clears(online, all, n);
      if e.Corrected? {
        assert b == n;
        var c := SomePut(events, a, n);
        assert PlacedBy(online, events, a, c);
      } else {
        assert b != n;
        assert PlacedBy(online, events, a, b);
      }
    }
  }

  lemma {:induction false} SomePut(events: seq<Event>, a: nat, k: nat) returns (b: nat)
    requires a < k <= |events| && Puts(events[a])
    ensures a <= b && LastPut(events, b, k)
  {
    if Puts(events[k - 1]) {
      b := k - 1;
    } else {
      b := SomePut(events, a, k - 1);
    }
  }

  /** In every run the place told is that of the last step on foot, moved where the server moved me since, until it is cleared. */
  lemma {:induction false} PlacedIsKept(online: bool, events: seq<Event>)
    ensures After(Start(online), events).stepped.Some? <==> exists a: nat, b: nat :: PlacedBy(online, events, a, b)
    ensures forall a: nat, b: nat | PlacedBy(online, events, a, b) :: After(Start(online), events).stepped == Some(MotionBy(events, a, b))
  {
    if events != [] {
      var n := |events| - 1;
      var init, e := events[..n], events[n];
      assert events == init + [e];
      AfterSnoc(Start(online), init, e);
      PlacedIsKept(online, init);
      PlacedStep(online, init, e);
    }
  }

  lemma PlacedStep(online: bool, init: seq<Event>, e: Event)
    requires After(Start(online), init).stepped.Some? <==> exists a: nat, b: nat :: PlacedBy(online, init, a, b)
    requires forall a: nat, b: nat | PlacedBy(online, init, a, b) :: After(Start(online), init).stepped == Some(MotionBy(init, a, b))
    ensures var now := Apply(After(Start(online), init), e).stepped;
            && (now.Some? <==> exists a: nat, b: nat :: PlacedBy(online, init + [e], a, b))
            && forall a: nat, b: nat | PlacedBy(online, init + [e], a, b) :: now == Some(MotionBy(init + [e], a, b))
  {
    hide After;
    var s, events, n := After(Start(online), init), init + [e], |init|;
    var now := Apply(s, e).stepped;
    assert events[n] == e && events[..n] == init && forall m | 0 <= m < n :: events[m] == init[m];
    if e.Stepped? {
      assert PlacedBy(online, events, n, n);
    } else {
      ClearsNow(online, init, e);
      hide Apply, Clears;
      forall a: nat, b: nat | PlacedBy(online, events, a, b) ensures now == Some(MotionBy(events, a, b)) {
        PlacedOn(online, init, e, a, b);
        if e.Corrected? {
          var c: nat :| PlacedBy(online, init, a, c);
          assert s.stepped == Some(MotionBy(init, a, c));
        }
      }
      if now.Some? {
        var a: nat, b: nat :| PlacedBy(online, init, a, b);
        PlacedOn(online, init, e, a, if e.Corrected? then n else b);
      }
    }
  }

  /** What an event but a step's end does to the place remembered. */
  lemma ClearsNow(online: bool, init: seq<Event>, e: Event)
    requires !e.Stepped?
    requires After(Start(online), init).stepped.Some? ==> exists a: nat, b: nat :: PlacedBy(online, init, a, b)
    requires forall a: nat, b: nat | PlacedBy(online, init, a, b) :: After(Start(online), init).stepped == Some(MotionBy(init, a, b))
    ensures var was, now := After(Start(online), init).stepped, Apply(After(Start(online), init), e).stepped;
            now == if was.None? || Clears(online, init + [e], |init|) then None
                   else if e.Corrected? then Some(was.value.(position := e.place)) else was
  {
    hide After, Apply, Clears;
    var s := After(Start(online), init);
    SteppedOn(s, e);
    NotStepClears(online, init, e);
    if s.stepped.Some? {
      var a: nat, b: nat :| PlacedBy(online, init, a, b);
      assert s.stepped.value.position == PlaceOf(init[b]);
      if e.Step? {
        StepClears(online, init, e, b);
      }
    }
  }

  lemma SteppedOn(s: Sync, e: Event)
    requires !e.Stepped?
    ensures var now := Apply(s, e).stepped;
            now == if s.stepped.None? || Drops(e) then None
                   else if e.Corrected? then Some(s.stepped.value.(position := e.place))
                   else if e.Step? && s.online && (e.input.kind == Cart || e.w.position != s.stepped.value.position) then None
                   else s.stepped
  {
    hide AppendStep, Open, Sends, Holds;
  }

  lemma NotStepClears(online: bool, init: seq<Event>, e: Event)
    ensures !e.Step? ==> (Clears(online, init + [e], |init|) <==> Drops(e))
  {}

  lemma StepClears(online: bool, init: seq<Event>, e: Event, b: nat)
    requires e.Step? && LastPut(init, b, |init|)
    ensures Clears(online, init + [e], |init|)
            <==> After(Start(online), init).online && (e.input.kind == Cart || e.w.position != PlaceOf(init[b]))
  {
    hide After;
    var events, n := init + [e], |init|;
    assert events[n] == e && events[..n] == init && events[b] == init[b];
    PutBefore(init, e, b, n);
    forall c: nat | LastPut(events, c, n) ensures c == b {
      LastPutIsOne(events, b, c, n);
    }
  }

  /** In every run, a batch of steps on foot is told with the place they ended at, any other with my place now. */
  lemma BatchIsPlaced(online: bool, events: seq<Event>, w: World)
    ensures var s := After(Start(online), events);
            var told := PushMotion(s, w).commands[|s.commands|].motion;
            var afoot := s.unsent != [] && Last(s.unsent).input.kind == Walk && OnFootMode(w.motion.mode);
            && told.mode == w.motion.mode
            && (forall a: nat, b: nat | afoot && PlacedBy(online, events, a, b) ::
                  told.position == PlaceOf(events[b]) && told.yaw == events[a].motion.yaw && told.speed == events[a].motion.speed)
            && (!afoot || !(exists a: nat, b: nat :: PlacedBy(online, events, a, b)) ==> told == w.motion)
  {
    PlacedIsKept(online, events);
  }

  // ---- Batches of one kind ----

  predicate OneKind(runs: seq<Run>) {
    forall j, k | 0 <= j < |runs| && 0 <= k < |runs| :: runs[j].input.kind == runs[k].input.kind
  }

  predicate OneKindEach(s: Sync) {
    OneKind(s.unsent) && forall k | 0 <= k < |s.commands| :: s.commands[k].Batch? ==> OneKind(s.commands[k].runs)
  }

  /** A step mixes a batch exactly when the other kind is pending and motion is not open. */
  lemma StepMixes(s: Sync, input: Input, w: World)
    requires OneKindEach(s)
    ensures OneKindEach(RecordStep(s, input, w))
            <==> !(s.online && s.unsent != [] && Last(s.unsent).input.kind != input.kind && !Open(s, w))
  {
    if s.online {
      var s' := RecordStep(s, input, w);
      var runs := if |s'.commands| > |s.commands| then [] else s.unsent;
      assert s'.unsent == AppendStep(runs, input);
      if runs != [] {
        var last := s'.unsent[|s'.unsent| - 1];
        assert last.input == input && s'.unsent[0].input == runs[0].input;
        assert runs[0].input.kind == Last(runs).input.kind;
      }
    }
  }

  /**
    Reached in two steps: the server takes my wheel away, which sends nothing, and I walk on
    while it still corrects my ball.
  */
  lemma KindsMix(drive: Input, walk: Input, w: World, held: World)
    requires drive.kind == Cart && walk.kind == Walk && held.ballCorrection
    ensures !OneKindEach(After(Start(true), [Step(drive, w), Step(walk, held)]))
  {
    AfterTwo(Start(true), Step(drive, w), Step(walk, held));
    var s1 := RecordStep(Start(true), drive, w);
    assert s1.unsent == [Run(drive, 1)];
    assert OneKindEach(s1);
    StepMixes(s1, walk, held);
  }

  /** Getting in is no such case: it pushes what is pending, held or not, before a step at the wheel. */
  lemma BoardingSends(s: Sync, drive: Input, boarding: World, w: World)
    requires OneKindEach(s) && Sends(s, boarding)
    ensures OneKindEach(After(s, [SendNow(boarding), Step(drive, w)]))
  {
    AfterTwo(s, SendNow(boarding), Step(drive, w));
    var s1 := SendMotionNow(s, boarding);
    assert s1.unsent == [] && OneKindEach(s1);
    StepMixes(s1, drive, w);
  }

  /** The step at `k` meets the other kind pending, and what is pending may not go out. */
  predicate MeetsOther(online: bool, events: seq<Event>, k: nat) {
    k < |events| && events[k].Step? &&
    var s := After(Start(online), events[..k]);
    s.online && s.unsent != [] && Last(s.unsent).input.kind != events[k].input.kind && !Open(s, events[k].w)
  }

  lemma KindsOn(s: Sync, e: Event)
    requires OneKindEach(s) && !e.Step?
    ensures OneKindEach(Apply(s, e))
  {
    hide Open, Sends;
  }

  /** No batch was mixed at any time. */
  predicate ApartThroughout(online: bool, events: seq<Event>) {
    forall n | 0 <= n <= |events| :: OneKindEach(After(Start(online), events[..n]))
  }

  predicate NoneMeetsOther(online: bool, events: seq<Event>) {
    forall k | 0 <= k < |events| :: !MeetsOther(online, events, k)
  }

  /**
    In every run, no batch has mixed walking and driving at any time exactly when no step
    has met the other kind pending with motion not open.
  */
  lemma {:induction false} KindsKeptApart(online: bool, events: seq<Event>)
    ensures ApartThroughout(online, events) <==> NoneMeetsOther(online, events)
  {
    if events == [] {
      NothingMixed(online);
      assert forall n | 0 <= n <= |events| :: events[..n] == [];
    } else {
      hide After, OneKindEach, ApartThroughout, NoneMeetsOther;
      var init, e := events[..|events| - 1], events[|events| - 1];
      assert events == init + [e];
      KindsKeptApart(online, init);
      ApartOn(online, init, e);
      NoneMeetsOn(online, init, e);
      if ApartThroughout(online, init) {
        ApartNow(online, init);
        KindsLast(online, init, e);
      }
    }
  }

  lemma ApartNow(online: bool, events: seq<Event>)
    requires ApartThroughout(online, events)
    ensures OneKindEach(After(Start(online), events))
  {
    hide After, OneKindEach;
    assert events[..|events|] == events;
  }

  lemma ApartOn(online: bool, init: seq<Event>, e: Event)
    ensures ApartThroughout(online, init + [e])
            <==> ApartThroughout(online, init) && OneKindEach(After(Start(online), init + [e]))
  {
    hide After, OneKindEach;
    var all := init + [e];
    assert all[..|all|] == all && forall n | 0 <= n <= |init| :: all[..n] == init[..n];
  }

  lemma NoneMeetsOn(online: bool, init: seq<Event>, e: Event)
    ensures NoneMeetsOther(online, init + [e]) <==> NoneMeetsOther(online, init) && !MeetsOther(online, init + [e], |init|)
  {
    hide After, Open;
    var all := init + [e];
    forall k | 0 <= k < |init| ensures MeetsOther(online, all, k) <==> MeetsOther(online, init, k) {
      assert all[..k] == init[..k] && all[k] == init[k];
    }
  }

  lemma NothingMixed(online: bool)
    ensures OneKindEach(After(Start(online), []))
  {}

  lemma KindsLast(online: bool, init: seq<Event>, e: Event)
    requires OneKindEach(After(Start(online), init))
    ensures OneKindEach(After(Start(online), init + [e])) <==> !MeetsOther(online, init + [e], |init|)
  {
    hide After, OneKindEach, Open;
    var s := After(Start(online), init);
    AfterSnoc(Start(online), init, e);
    assert (init + [e])[..|init|] == init && (init + [e])[|init|] == e;
    if e.Step? {
      StepMixes(s, e.input, e.w);
    } else {
      KindsOn(s, e);
    }
  }

  /** So when every step is recorded with motion open, walking and driving never share a batch. */
  lemma OpenKeepsApart(online: bool, events: seq<Event>)
    requires forall k | 0 <= k < |events| && events[k].Step? :: Open(After(Start(online), events[..k]), events[k].w)
    ensures OneKindEach(After(Start(online), events))
  {
    hide After, Open;
    assert NoneMeetsOther(online, events);
    KindsKeptApart(online, events);
    ApartNow(online, events);
  }
}
