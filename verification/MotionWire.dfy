/**
  From the queue to the server (`src/net/net_client.cpp`, `src/game/sync_reconciliation.cpp`,
  `server/golfpp_module/src/movement_rules.cpp`): which of the commands pushed are still
  queued, which went out, and which steps the server plays of those. Queue and wire are
  positions in the log of all the state pushed.
*/
module MotionWire {
  import opened Options
  import opened RunLength
  import opened MotionProtocol

  datatype Wire = Wire(queue: seq<nat>, sent: seq<nat>)

  /** The whole numbers from `a` up to `b`. */
  function Positions(a: nat, b: nat): seq<nat> {
    if a >= b then [] else seq(b - a, k requires 0 <= k < b - a => a + k)
  }

  /** Those of the queue the connection took. */
  function Accepted(queue: seq<nat>, accepted: seq<bool>): seq<nat> {
    if queue == [] then []
    else
      var n := |queue| - 1;
      Accepted(queue[..n], accepted) + if n < |accepted| && accepted[n] then [queue[n]] else []
  }

  /** A refusal takes the batches out of the queue. */
  function ActionsAt(log: seq<Command>, queue: seq<nat>): seq<nat> {
    if queue == [] then []
    else
      var n := |queue| - 1;
      ActionsAt(log, queue[..n]) + if queue[n] < |log| && log[queue[n]].Action? then [queue[n]] else []
  }

  function Log(online: bool, events: seq<Event>): seq<Command> {
    After(Start(online), events).commands
  }

  function WireOn(w: Wire, was: seq<Command>, now: seq<Command>, e: Event): Wire {
    match e
    case Refused => w.(queue := ActionsAt(was, w.queue))
    case RoomChanged => w.(queue := [])
    case Transmit(accepted) => Wire([], w.sent + Accepted(w.queue, accepted))
    case NewGame => Wire([], [])
    case _ => w.(queue := w.queue + Positions(|was|, |now|))
  }

  function WireAfter(online: bool, events: seq<Event>): Wire {
    if events == [] then Wire([], [])
    else
      var init := events[..|events| - 1];
      WireOn(WireAfter(online, init), Log(online, init), Log(online, events), events[|events| - 1])
  }

  // ---- Every command goes out once at most, and in order ----

  /** Rising positions in a log of so many. */
  predicate Ordered(positions: seq<nat>, size: nat) {
    && (forall j, k | 0 <= j < k < |positions| :: positions[j] < positions[k])
    && (forall k | 0 <= k < |positions| :: positions[k] < size)
  }

  predicate SubOf(part: seq<nat>, whole: seq<nat>) {
    forall k | 0 <= k < |part| :: part[k] in whole
  }

  lemma InOrder(queue: seq<nat>, part: seq<nat>, size: nat)
    requires queue != [] && Ordered(queue, size)
    requires SubOf(part, queue[..|queue| - 1]) && Ordered(part, size)
    ensures Ordered(queue[..|queue| - 1], size)
    ensures SubOf(part, queue) && SubOf(part + [queue[|queue| - 1]], queue) && Ordered(part + [queue[|queue| - 1]], size)
  {
    var n := |queue| - 1;
    forall k | 0 <= k < |part| ensures part[k] in queue && part[k] < queue[n] {
      var j :| 0 <= j < n && queue[..n][j] == part[k];
      assert queue[j] == part[k];
    }
  }

  lemma OrderedInit(queue: seq<nat>, size: nat)
    requires queue != [] && Ordered(queue, size)
    ensures Ordered(queue[..|queue| - 1], size)
  {}

  lemma {:induction false} ActionsOrdered(log: seq<Command>, queue: seq<nat>)
    requires Ordered(queue, |log|)
    ensures Ordered(ActionsAt(log, queue), |log|) && SubOf(ActionsAt(log, queue), queue)
  {
    if queue != [] {
      hide Ordered, SubOf;
      var part := ActionsAt(log, queue[..|queue| - 1]);
      OrderedInit(queue, |log|);
      ActionsOrdered(log, queue[..|queue| - 1]);
      InOrder(queue, part, |log|);
      assert part + [] == part;
    }
  }

  lemma {:induction false} AcceptedOrdered(queue: seq<nat>, accepted: seq<bool>, size: nat)
    requires Ordered(queue, size)
    ensures Ordered(Accepted(queue, accepted), size) && SubOf(Accepted(queue, accepted), queue)
  {
    if queue != [] {
      hide Ordered, SubOf;
      var part := Accepted(queue[..|queue| - 1], accepted);
      OrderedInit(queue, size);
      AcceptedOrdered(queue[..|queue| - 1], accepted, size);
      InOrder(queue, part, size);
      assert part + [] == part;
    }
  }

  lemma OrderedParts(a: seq<nat>, b: seq<nat>, size: nat)
    requires Ordered(a + b, size)
    ensures Ordered(a, size) && Ordered(b, size) && forall j, k | 0 <= j < |a| && 0 <= k < |b| :: a[j] < b[k]
  {
    assert forall j | 0 <= j < |a| :: (a + b)[j] == a[j];
    assert forall k | 0 <= k < |b| :: (a + b)[|a| + k] == b[k];
  }

  /** A part of the queue in its place. */
  lemma OrderedPart(sent: seq<nat>, queue: seq<nat>, part: seq<nat>, size: nat)
    requires Ordered(sent + queue, size) && Ordered(part, size) && SubOf(part, queue)
    ensures Ordered(sent + part, size)
  {
    OrderedParts(sent, queue, size);
    forall j, k | 0 <= j < |sent| && 0 <= k < |part| ensures sent[j] < part[k] {
      assert part[k] in queue;
    }
  }

  lemma OrderedMore(positions: seq<nat>, size: nat, size': nat)
    requires Ordered(positions, size) && size <= size'
    ensures Ordered(positions + Positions(size, size'), size')
  {}

  lemma WireOnOrdered(w: Wire, was: seq<Command>, now: seq<Command>, e: Event)
    requires Ordered(w.sent + w.queue, |was|)
    requires !e.NewGame? ==> was <= now
    requires e.Refused? || e.RoomChanged? || e.Transmit? ==> now == was
    ensures var next := WireOn(w, was, now, e); Ordered(next.sent + next.queue, |now|)
  {
    OrderedParts(w.sent, w.queue, |was|);
    match e
    case Refused =>
      ActionsOrdered(was, w.queue);
      OrderedPart(w.sent, w.queue, ActionsAt(was, w.queue), |was|);
    case RoomChanged => assert w.sent + [] == w.sent;
    case Transmit(accepted) =>
      AcceptedOrdered(w.queue, accepted, |was|);
      OrderedPart(w.sent, w.queue, Accepted(w.queue, accepted), |was|);
      assert w.sent + Accepted(w.queue, accepted) + [] == w.sent + Accepted(w.queue, accepted);
    case NewGame =>
    case _ =>
      OrderedMore(w.sent + w.queue, |was|, |now|);
      assert w.sent + w.queue + Positions(|was|, |now|) == w.sent + (w.queue + Positions(|was|, |now|));
  }

  /** In every run, what went out and then what is queued are commands of the log, each once, in the order pushed. */
  lemma {:induction false} SentInOrder(online: bool, events: seq<Event>)
    ensures var w := WireAfter(online, events); Ordered(w.sent + w.queue, |Log(online, events)|)
  {
    if events != [] {
      hide Apply;
      var init, e := events[..|events| - 1], events[|events| - 1];
      SentInOrder(online, init);
      LogGrows(After(Start(online), init), e);
      WireOnOrdered(WireAfter(online, init), Log(online, init), Log(online, events), e);
    }
  }

  lemma LogGrows(s: Sync, e: Event)
    ensures !e.NewGame? ==> s.commands <= Apply(s, e).commands
    ensures e.Refused? || e.RoomChanged? || e.Transmit? ==> Apply(s, e).commands == s.commands
  {}

  // ---- The queue as the game holds it ----

  function At(log: seq<Command>, positions: seq<nat>): seq<Command>
    requires forall k | 0 <= k < |positions| :: positions[k] < |log|
  {
    seq(|positions|, k requires 0 <= k < |positions| => log[positions[k]])
  }

  function Actions(queue: seq<Command>): seq<Command> {
    if queue == [] then []
    else Actions(queue[..|queue| - 1]) + if queue[|queue| - 1].Action? then [queue[|queue| - 1]] else []
  }

  /** A refusal keeps every action queued and no batch. */
  lemma {:induction false} ActionsKept(queue: seq<Command>, c: Command)
    ensures multiset(Actions(queue))[c] == if c.Action? then multiset(queue)[c] else 0
  {
    if queue != [] {
      ActionsKept(queue[..|queue| - 1], c);
      assert queue == queue[..|queue| - 1] + [queue[|queue| - 1]];
    }
  }

  /** One event on the state with its queue. */
  function ApplyQueued(s: Sync, e: Event): Sync {
    match e
    case Refused => Discard(s).(commands := Actions(s.commands))
    case RoomChanged => Reset(s, s.online).(commands := [])
    case Transmit(_) => s.(commands := [])
    case _ => Apply(s, e)
  }

  function AfterQueued(online: bool, events: seq<Event>): Sync {
    if events == [] then Start(online) else ApplyQueued(AfterQueued(online, events[..|events| - 1]), events[|events| - 1])
  }

  /** `t` is `now` as it comes from another queue than `was`. */
  predicate SameBut(was: Sync, now: Sync, queue: seq<Command>, t: Sync) {
    was.commands <= now.commands && t == now.(commands := queue + now.commands[|was.commands|..])
  }

  lemma PushUnread(s: Sync, queue: seq<Command>, w: World)
    ensures SameBut(s, PushMotion(s, w), queue, PushMotion(s.(commands := queue), w))
    ensures SameBut(s, s, queue, s.(commands := queue))
  {}

  lemma SendUnread(s: Sync, queue: seq<Command>, input: Input, w: World)
    ensures SameBut(s, SendBefore(s, input, w), queue, SendBefore(s.(commands := queue), input, w))
  {
    hide Holds, PushMotion;
    PushUnread(s, queue, w);
    PushUnread(s.(stepped := None), queue, w);
  }

  lemma StepUnread(s: Sync, queue: seq<Command>, input: Input, w: World)
    ensures SameBut(s, RecordStep(s, input, w), queue, RecordStep(s.(commands := queue), input, w))
  {
    hide SendBefore, AppendStep;
    SendUnread(s, queue, input, w);
    PushUnread(s.(step := s.step + 1), queue, w);
  }

  lemma ActUnread(s: Sync, queue: seq<Command>, what: nat, w: World)
    ensures SameBut(s, PushCommand(s, what, w), queue, PushCommand(s.(commands := queue), what, w))
  {
    hide Holds, PushMotion;
    PushUnread(s, queue, w);
    var sent := SendSteps(s, w);
    assert queue + sent.commands[|s.commands|..] + [Action(what)] == queue + (sent.commands + [Action(what)])[|s.commands|..];
  }

  /** What an operation does, and pushes, does not depend on what is queued. */
  lemma QueueUnread(s: Sync, queue: seq<Command>, e: Event)
    requires !e.NewGame?
    ensures SameBut(s, Apply(s, e), queue, Apply(s.(commands := queue), e))
  {
    hide RecordStep, PushCommand, PushMotion, Holds, Discard;
    match e
    case Step(input, w) => StepUnread(s, queue, input, w);
    case Tick(w) => PushUnread(s, queue, w);
    case SendNow(w) => PushUnread(s, queue, w);
    case Flush(w) => PushUnread(s, queue, w);
    case Act(what, w) => ActUnread(s, queue, what, w);
    case Refused => DiscardUnread(s, queue);
    case _ =>
  }

  lemma DiscardUnread(s: Sync, queue: seq<Command>)
    ensures SameBut(s, Discard(s), queue, Discard(s.(commands := queue)))
  {}

  lemma {:induction false} ActionsAtAre(log: seq<Command>, queue: seq<nat>)
    requires Ordered(queue, |log|)
    ensures Ordered(ActionsAt(log, queue), |log|) && Actions(At(log, queue)) == At(log, ActionsAt(log, queue))
  {
    ActionsOrdered(log, queue);
    if queue != [] {
      var n := |queue| - 1;
      ActionsAtAre(log, queue[..n]);
      ActionsOrdered(log, queue[..n]);
      assert At(log, queue)[..n] == At(log, queue[..n]);
    }
  }

  lemma AtGrows(was: seq<Command>, now: seq<Command>, queue: seq<nat>)
    requires was <= now && Ordered(queue, |was|)
    ensures Ordered(queue + Positions(|was|, |now|), |now|)
    ensures At(now, queue + Positions(|was|, |now|)) == At(was, queue) + now[|was|..]
  {
    OrderedMore(queue, |was|, |now|);
  }

  /** In every run the game's own queue is what the positions say, and the rest of its state is the log's. */
  lemma {:induction false} QueueIsHeld(online: bool, events: seq<Event>)
    ensures var w, log := WireAfter(online, events), Log(online, events);
            && Ordered(w.queue, |log|)
            && AfterQueued(online, events) == After(Start(online), events).(commands := At(log, w.queue))
  {
    SentInOrder(online, events);
    OrderedParts(WireAfter(online, events).sent, WireAfter(online, events).queue, |Log(online, events)|);
    if events != [] {
      hide Apply, Ordered, Actions, ActionsAt;
      var init, e := events[..|events| - 1], events[|events| - 1];
      QueueIsHeld(online, init);
      QueueOn(After(Start(online), init), WireAfter(online, init), e);
    }
  }

  lemma QueueOn(s: Sync, w: Wire, e: Event)
    requires Ordered(w.queue, |s.commands|)
    ensures var now := Apply(s, e);
            var queue := WireOn(w, s.commands, now.commands, e).queue;
            Ordered(queue, |now.commands|)
            && ApplyQueued(s.(commands := At(s.commands, w.queue)), e) == now.(commands := At(now.commands, queue))
  {
    LogGrows(s, e);
    match e
    case Refused => ActionsAtAre(s.commands, w.queue);
    case RoomChanged =>
    case Transmit(_) =>
    case NewGame =>
    case _ =>
      hide Apply;
      QueueUnread(s, At(s.commands, w.queue), e);
      AtGrows(s.commands, Apply(s, e).commands, w.queue);
  }

  // ---- The server ----

  /** The last step played, and all played so far. */
  datatype Mover = Mover(step: nat, played: seq<Told>)

  /** A step told is played unless its number was already. */
  function PlayOne(m: Mover, told: Told): Mover {
    if told.0 <= m.step then m else Mover(told.0, m.played + [told])
  }

  function Play(m: Mover, told: seq<Told>): Mover {
    if told == [] then m else PlayOne(Play(m, told[..|told| - 1]), told[|told| - 1])
  }

  function PlayCommand(m: Mover, c: Command): Mover {
    match c
    case Batch(runs, first, _, _, _) => Play(m, Numbered(first, Expand(runs)))
    case Action(_) => m
  }

  function PlayAll(m: Mover, commands: seq<Command>): Mover {
    if commands == [] then m else PlayCommand(PlayAll(m, commands[..|commands| - 1]), commands[|commands| - 1])
  }

  lemma PlaySnoc(m: Mover, told: seq<Told>, last: Told)
    ensures Play(m, told + [last]) == PlayOne(Play(m, told), last)
  {
    assert (told + [last])[..|told|] == told;
  }

  lemma {:induction false} PlayOn(m: Mover, told: seq<Told>, more: seq<Told>)
    ensures Play(m, told + more) == Play(Play(m, told), more)
  {
    if more == [] {
      assert told + more == told;
    } else {
      var n := |more| - 1;
      PlayOn(m, told, more[..n]);
      PlaySnoc(m, told + more[..n], more[n]);
      assert told + more == told + more[..n] + [more[n]];
    }
  }

  /** Playing the commands in turn is playing all they tell. */
  lemma {:induction false} PlayAllTold(m: Mover, commands: seq<Command>)
    ensures PlayAll(m, commands) == Play(m, Delivered(commands))
  {
    if commands != [] {
      hide Play, Expand, Numbered;
      var init, c := commands[..|commands| - 1], commands[|commands| - 1];
      PlayAllTold(m, init);
      if c.Batch? {
        PlayOn(m, Delivered(init), Numbered(c.first, Expand(c.runs)));
      } else {
        assert Delivered(init) + [] == Delivered(init);
      }
    }
  }

  predicate RisingTold(told: seq<Told>) {
    forall j, k | 0 <= j < k < |told| :: told[j].0 < told[k].0
  }

  /** How many of the steps told come first and were played already. */
  function Passed(told: seq<Told>, step: nat): (n: nat)
    ensures n <= |told|
  {
    if told == [] then 0
    else
      var n := |told| - 1;
      if told[n].0 <= step then |told| else Passed(told[..n], step)
  }

  /** Of steps told in rising order exactly those above the last one played are played, in order. */
  lemma {:induction false} PlaysRest(m: Mover, told: seq<Told>)
    requires RisingTold(told)
    ensures var n := Passed(told, m.step);
            && (forall k | 0 <= k < |told| :: told[k].0 <= m.step <==> k < n)
            && Play(m, told).played == m.played + told[n..]
            && Play(m, told).step == if n < |told| then told[|told| - 1].0 else m.step
  {
    hide Play, RisingTold;
    if told == [] {
      NonePlayed(m);
    } else {
      var init, last := told[..|told| - 1], told[|told| - 1];
      RisingInit(told);
      PlaysRest(m, init);
      PlaySnoc(m, init, last);
      assert told == init + [last];
      PlaysLast(m, Play(m, init), init, last, Passed(init, m.step));
    }
  }

  /** One step more. */
  lemma PlaysLast(m: Mover, was: Mover, init: seq<Told>, last: Told, n: nat)
    requires n <= |init| && forall k | 0 <= k < |init| :: (init[k].0 <= m.step <==> k < n) && init[k].0 < last.0
    requires was.played == m.played + init[n..] && was.step == if n < |init| then init[|init| - 1].0 else m.step
    ensures var told := init + [last];
            var n' := if last.0 <= m.step then |told| else n;
            && PlayOne(was, last).played == m.played + told[n'..]
            && PlayOne(was, last).step == (if n' < |told| then last.0 else m.step)
            && (last.0 <= m.step ==> n == |init|)
  {
    var told := init + [last];
    if last.0 > m.step {
      assert told[n..] == init[n..] + [last];
      assert m.played + init[n..] + [last] == m.played + (init[n..] + [last]);
    } else {
      assert forall k | 0 <= k < |init| :: init[k].0 <= m.step;
      assert init[n..] == [] && told[|told|..] == [];
    }
  }

  lemma NonePlayed(m: Mover)
    ensures Play(m, []) == m && m.played + [] == m.played && forall step :: Passed([], step) == 0
  {}

  lemma RisingInit(told: seq<Told>)
    requires RisingTold(told) && told != []
    ensures RisingTold(told[..|told| - 1]) && forall k | 0 <= k < |told| - 1 :: told[..|told| - 1][k] == told[k] && told[k].0 < told[|told| - 1].0
  {}

  /** All that is told is played exactly when its first number is above the last one played. */
  lemma PlaysAll(m: Mover, told: seq<Told>)
    requires RisingTold(told)
    ensures Play(m, told).played == m.played + told <==> told == [] || told[0].0 > m.step
  {
    PlaysRest(m, told);
    var n := Passed(told, m.step);
    assert n == 0 ==> told[n..] == told;
    assert n > 0 ==> |m.played + told[n..]| < |m.played + told|;
  }

  /** As the server plays one batch: each run's steps in turn, those of numbers already played passed over. */
  method PlayMove(m: Mover, first: nat, runs: seq<Run>) returns (m': Mover)
    ensures m' == Play(m, Numbered(first, Expand(runs)))
  {
    hide Numbered, Expand, Play, PlayOne;
    m' := m;
    var number := first;
    NoneTold(m, first);
    ghost var done: seq<Input> := [];
    assert runs[..0] == [];
    for r := 0 to |runs|
      invariant done == Expand(runs[..r]) && number == first + |done| && m' == Play(m, Numbered(first, done))
    {
      var run := runs[r];
      ghost var was := done;
      assert was + Repeat(run.input, 0) == was;
      for i := 0 to run.steps
        invariant done == was + Repeat(run.input, i) && number == first + |done| && m' == Play(m, Numbered(first, done))
      {
        NumberedGoesOn(first, done, run.input);
        PlaySnoc(m, Numbered(first, done), (number, run.input));
        assert was + Repeat(run.input, i) + [run.input] == was + Repeat(run.input, i + 1);
        done := done + [run.input];
        if number > m'.step {
          PlaysOne(m', (number, run.input));
          m' := Mover(number, m'.played + [(number, run.input)]);
        } else {
          PlaysOne(m', (number, run.input));
        }
        number := number + 1;
      }
      ExpandSnoc(runs[..r], run);
      assert runs[..r + 1] == runs[..r] + [run];
    }
    assert runs[..|runs|] == runs;
  }

  lemma NoneTold(m: Mover, first: nat)
    ensures Expand([]) == [] && Play(m, Numbered(first, [])) == m
  {}

  lemma PlaysOne(m: Mover, told: Told)
    ensures PlayOne(m, told) == if told.0 > m.step then Mover(told.0, m.played + [told]) else m
  {}

  // ---- End to end ----

  /** Told at a position below `end`. */
  predicate ToldBelow(log: seq<Command>, end: nat, number: nat) {
    end <= |log| && exists x :: 0 <= x < |Delivered(log[..end])| && x < |Delivered(log)| && Delivered(log)[x].0 == number
  }

  lemma ToldFurther(log: seq<Command>, a: nat, b: nat, number: nat)
    requires ToldBelow(log, a, number) && a <= b <= |log|
    ensures ToldBelow(log, b, number)
  {
    DeliveredGrows(log, a, b);
  }

  lemma AllFurther(log: seq<Command>, a: nat, b: nat, told: seq<Told>)
    requires a <= b <= |log| && forall k | 0 <= k < |told| :: ToldBelow(log, a, told[k].0)
    ensures forall k | 0 <= k < |told| :: ToldBelow(log, b, told[k].0)
  {
    hide ToldBelow;
    forall k | 0 <= k < |told| ensures ToldBelow(log, b, told[k].0) {
      ToldFurther(log, a, b, told[k].0);
    }
  }

  lemma ToldAt(log: seq<Command>, p: nat, m: nat)
    requires p < |log| && log[p].Batch? && m < |Expand(log[p].runs)|
    ensures ToldBelow(log, p + 1, log[p].first + m)
    ensures RisingTold(Delivered(log)) ==> forall number: nat | ToldBelow(log, p, number) :: number < log[p].first + m
  {
    hide Expand, Delivered;
    DeliveredFrom(log, p, m);
    DeliveredNext(log, p);
    DeliveredGrows(log, p, p);
    var x := |Delivered(log[..p])| + m;
    assert Delivered(log)[x].0 == log[p].first + m;
  }

  /** Commands taken from the log in order tell rising numbers, if the log does. */
  lemma {:induction false} PartRises(log: seq<Command>, positions: seq<nat>)
    requires RisingTold(Delivered(log)) && Ordered(positions, |log|)
    ensures var told := Delivered(At(log, positions));
            var end := if positions == [] then 0 else positions[|positions| - 1] + 1;
            RisingTold(told) && forall k | 0 <= k < |told| :: ToldBelow(log, end, told[k].0)
  {
    if positions == [] {
      NothingAt(log);
    } else {
      hide Expand, Delivered, ToldBelow, RisingTold, At, Ordered;
      var n := |positions| - 1;
      var p, init := positions[n], positions[..n];
      OrderedLast(log, positions);
      PartRises(log, init);
      var was := Delivered(At(log, init));
      DeliveredSnoc(At(log, init), log[p]);
      var end := if init == [] then 0 else init[n - 1] + 1;
      AllFurther(log, end, p, was);
      AllFurther(log, p, p + 1, was);
      if log[p].Batch? {
        ToldLast(log, p, was);
      } else {
        assert was + [] == was;
      }
    }
  }

  lemma NothingAt(log: seq<Command>)
    ensures Delivered(At(log, [])) == []
  {}

  lemma OrderedLast(log: seq<Command>, positions: seq<nat>)
    requires Ordered(positions, |log|) && positions != []
    ensures var n := |positions| - 1;
            var p, init := positions[n], positions[..n];
            && p < |log| && Ordered(init, |log|) && (init != [] ==> init[n - 1] < p)
            && (forall k | 0 <= k < n :: init[k] < |log|) && (forall k | 0 <= k <= n :: positions[k] < |log|)
            && At(log, positions) == At(log, init) + [log[p]]
  {}

  /** A later batch tells on from what is told below it. */
  lemma ToldLast(log: seq<Command>, p: nat, was: seq<Told>)
    requires p < |log| && log[p].Batch? && RisingTold(Delivered(log)) && RisingTold(was)
    requires forall k | 0 <= k < |was| :: ToldBelow(log, p, was[k].0)
    ensures var told := was + Numbered(log[p].first, Expand(log[p].runs));
            RisingTold(told) && forall k | 0 <= k < |told| :: ToldBelow(log, p + 1, told[k].0)
  {
    hide Expand, Delivered, ToldBelow, RisingTold;
    var told := was + Numbered(log[p].first, Expand(log[p].runs));
    forall k | 0 <= k < |told| ensures ToldBelow(log, p + 1, told[k].0) {
      if k < |was| {
        ToldFurther(log, p, p + 1, was[k].0);
      } else {
        ToldAt(log, p, k - |was|);
      }
    }
    forall j, k | 0 <= j < k < |told| ensures told[j].0 < told[k].0 {
      if k < |was| {
        Rises(was, j, k);
      } else if j < |was| {
        ToldAt(log, p, k - |was|);
        assert ToldBelow(log, p, was[j].0);
      }
    }
    IsRising(told);
  }

  lemma Rises(told: seq<Told>, j: nat, k: nat)
    requires RisingTold(told) && j < k < |told|
    ensures told[j].0 < told[k].0
  {}

  lemma IsRising(told: seq<Told>)
    requires forall j, k | 0 <= j < k < |told| :: told[j].0 < told[k].0
    ensures RisingTold(told)
  {}

  lemma LogRises(online: bool, events: seq<Event>)
    ensures RisingTold(Delivered(Log(online, events)))
    ensures forall k | 0 <= k < |Delivered(Log(online, events))| :: Delivered(Log(online, events))[k].0 >= 1
  {
    hide Delivered, Pending, Kept, After;
    ExactlyOnce(online, events);
    var s, kept := After(Start(online), events), Kept(Start(online), events);
    var told := Delivered(s.commands);
    forall k | 0 <= k < |told| ensures told[k].0 == kept[k].number {
      assert (told + Pending(s))[k] == Tell(kept)[k];
    }
  }

  lemma OrderedFrom(positions: seq<nat>, from: nat, size: nat)
    requires Ordered(positions, size) && from <= |positions|
    ensures Ordered(positions[from..], size)
  {}

  /** A mover that joins at any point of a run plays all that goes out from then on, each step once, in order. */
  lemma PlayedOnce(online: bool, events: seq<Event>, from: nat)
    requires from <= |WireAfter(online, events).sent|
    ensures var positions := WireAfter(online, events).sent[from..];
            && Ordered(positions, |Log(online, events)|)
            && PlayAll(Mover(0, []), At(Log(online, events), positions)).played == Delivered(At(Log(online, events), positions))
            && RisingTold(Delivered(At(Log(online, events), positions)))
  {
    hide Delivered, Play, PlayAll, WireAfter, At, Log, Ordered;
    var w, log := WireAfter(online, events), Log(online, events);
    SentInOrder(online, events);
    OrderedParts(w.sent, w.queue, |log|);
    OrderedFrom(w.sent, from, |log|);
    LogRises(online, events);
    PartRises(log, w.sent[from..]);
    var told := Delivered(At(log, w.sent[from..]));
    PlayAllTold(Mover(0, []), At(log, w.sent[from..]));
    PlaysAll(Mover(0, []), told);
    if told != [] {
      NotNothing(log, told[0].0, if w.sent[from..] == [] then 0 else w.sent[from..][|w.sent[from..]| - 1] + 1);
    }
    assert [] + told == told;
  }

  lemma NotNothing(log: seq<Command>, number: nat, end: nat)
    requires ToldBelow(log, end, number) && forall k | 0 <= k < |Delivered(log)| :: Delivered(log)[k].0 >= 1
    ensures number >= 1
  {}

  /** A batch that comes again after it was played changes nothing. */
  lemma {:induction false} PlayedAgain(m: Mover, told: seq<Told>)
    requires forall k | 0 <= k < |told| :: told[k].0 <= m.step
    ensures Play(m, told) == m
  {
    if told != [] {
      PlayedAgain(m, told[..|told| - 1]);
    }
  }

  /** Nothing is refused or cleared out of the queue, and the connection takes all it is given. */
  predicate Lossless(online: bool, before: seq<Event>, events: seq<Event>) {
    forall k | 0 <= k < |events| :: !Drops(events[k]) && TakesAll(WireAfter(online, before + events[..k]).queue, events[k])
  }

  predicate TakesAll(queue: seq<nat>, e: Event) {
    e.Transmit? ==> |queue| <= |e.accepted| && forall k | 0 <= k < |queue| :: e.accepted[k]
  }

  lemma {:induction false} AllAccepted(queue: seq<nat>, accepted: seq<bool>)
    requires |queue| <= |accepted| && forall k | 0 <= k < |queue| :: accepted[k]
    ensures Accepted(queue, accepted) == queue
  {
    if queue != [] {
      AllAccepted(queue[..|queue| - 1], accepted);
    }
  }

  lemma PositionsOn(a: nat, b: nat, c: nat)
    requires a <= b <= c
    ensures Positions(a, b) + Positions(b, c) == Positions(a, c)
  {}

  /** Without loss, all that was queued and all pushed since is out or queued. */
  lemma {:induction false} NoneLost(online: bool, before: seq<Event>, events: seq<Event>)
    requires Lossless(online, before, events)
    ensures var w, w' := WireAfter(online, before), WireAfter(online, before + events);
            var log, log' := Log(online, before), Log(online, before + events);
            && log <= log'
            && w'.sent + w'.queue == w.sent + w.queue + Positions(|log|, |log'|)
            && w.sent <= w'.sent
  {
    hide Apply, Positions, TakesAll, WireOn, WireAfter, After, Drops, Lossless;
    var w, log := WireAfter(online, before), Log(online, before);
    if events == [] {
      assert before + events == before;
      NoPositions(|log|);
      assert w.sent + w.queue + [] == w.sent + w.queue;
    } else {
      var n := |events| - 1;
      var init, e := events[..n], events[n];
      LosslessInit(online, before, events);
      NoneLost(online, before, init);
      var all := before + events;
      assert all == before + init + [e];
      WireSnoc(online, before + init, e);
      WireOnLossless(w, WireAfter(online, before + init), |log|, Log(online, before + init), Log(online, all), e);
    }
  }

  lemma NoPositions(n: nat)
    ensures Positions(n, n) == []
  {}

  lemma LosslessInit(online: bool, before: seq<Event>, events: seq<Event>)
    requires Lossless(online, before, events) && events != []
    ensures var n := |events| - 1;
            && Lossless(online, before, events[..n]) && !Drops(events[n])
            && TakesAll(WireAfter(online, before + events[..n]).queue, events[n])
  {
    hide WireAfter, TakesAll, Drops;
    var init := events[..|events| - 1];
    forall k | 0 <= k < |init| ensures !Drops(init[k]) && TakesAll(WireAfter(online, before + init[..k]).queue, init[k]) {
      assert init[..k] == events[..k] && init[k] == events[k];
    }
  }

  lemma WireSnoc(online: bool, events: seq<Event>, e: Event)
    ensures var was, now := Log(online, events), Log(online, events + [e]);
            && WireAfter(online, events + [e]) == WireOn(WireAfter(online, events), was, now, e)
            && (!Drops(e) ==> was <= now) && (e.Transmit? ==> now == was)
  {
    hide Apply, WireOn;
    assert (events + [e])[..|events|] == events;
    LogGrows(After(Start(online), events), e);
  }

  lemma WireOnLossless(w0: Wire, w: Wire, size: nat, was: seq<Command>, now: seq<Command>, e: Event)
    requires w.sent + w.queue == w0.sent + w0.queue + Positions(size, |was|) && w0.sent <= w.sent && size <= |was| && was <= now
    requires !Drops(e) && TakesAll(w.queue, e) && (e.Transmit? ==> now == was)
    ensures var next := WireOn(w, was, now, e);
            next.sent + next.queue == w0.sent + w0.queue + Positions(size, |now|) && w0.sent <= next.sent
  {
    hide Positions;
    if e.Transmit? {
      AllAccepted(w.queue, e.accepted);
      assert w.sent + w.queue + [] == w.sent + w.queue;
    } else {
      PositionsOn(size, |was|, |now|);
      Regrouped(w.sent, w.queue, Positions(|was|, |now|));
      Regrouped(w0.sent + w0.queue, Positions(size, |was|), Positions(|was|, |now|));
    }
  }

  lemma Regrouped(a: seq<nat>, b: seq<nat>, c: seq<nat>)
    ensures a + b + c == a + (b + c)
  {}

  lemma NoneDelivered()
    ensures Delivered([]) == []
  {}

  lemma {:induction false} DeliveredConcat(a: seq<Command>, b: seq<Command>)
    ensures Delivered(a + b) == Delivered(a) + Delivered(b)
  {
    hide Delivered;
    if b == [] {
      assert a + b == a;
      NoneDelivered();
      assert Delivered(a) + [] == Delivered(a);
    } else {
      var n := |b| - 1;
      DeliveredConcat(a, b[..n]);
      DeliveredSnoc(a + b[..n], b[n]);
      DeliveredSnoc(b[..n], b[n]);
      assert a + b == a + b[..n] + [b[n]] && b == b[..n] + [b[n]];
    }
  }

  lemma AtConcat(log: seq<Command>, a: seq<nat>, b: seq<nat>)
    requires Ordered(a, |log|) && Ordered(b, |log|)
    ensures At(log, a + b) == At(log, a) + At(log, b)
  {}

  lemma AtPositions(log: seq<Command>, from: nat)
    requires from <= |log|
    ensures Ordered(Positions(from, |log|), |log|) && At(log, Positions(from, |log|)) == log[from..]
  {}

  /**
    End to end, over any stretch of any run online in which nothing is lost: what a mover
    that joined as the stretch began has played, then what is queued and what is pending,
    is what was queued and pending then and every step taken since, each once, in order.
  */
  lemma EndToEnd(online: bool, before: seq<Event>, events: seq<Event>)
    requires After(Start(online), before).online && Lossless(online, before, events)
    ensures var s0, s := After(Start(online), before), After(Start(online), before + events);
            var w0, w := WireAfter(online, before), WireAfter(online, before + events);
            && |w0.sent| <= |w.sent|
            && Ordered(w0.queue, |s0.commands|) && Ordered(w.sent[|w0.sent|..], |s.commands|) && Ordered(w.queue, |s.commands|)
            && PlayAll(Mover(0, []), At(s.commands, w.sent[|w0.sent|..])).played + Delivered(At(s.commands, w.queue)) + Pending(s)
               == Delivered(At(s0.commands, w0.queue)) + Pending(s0) + Numbered(s0.step + 1, Inputs(events))
  {
    hide Delivered, Pending, Numbered, Inputs, WireAfter, After, At, PlayAll, Ordered, Positions, TakesAll, Drops;
    var s0, s := After(Start(online), before), After(Start(online), before + events);
    var w0, w := WireAfter(online, before), WireAfter(online, before + events);
    NoneLost(online, before, events);
    SentInOrder(online, before);
    SentInOrder(online, before + events);
    OrderedParts(w0.sent, w0.queue, |s0.commands|);
    OrderedParts(w.sent, w.queue, |s.commands|);
    PlayedOnce(online, before + events, |w0.sent|);
    NothingLost(online, before, events);
    QueueTells(s0.commands, s.commands, w0, w);
    var base, out, queued := Delivered(s0.commands), Delivered(At(s.commands, w.sent[|w0.sent|..])), Delivered(At(s.commands, w.queue));
    var was := Delivered(At(s0.commands, w0.queue));
    var pushed := Delivered(s.commands[|s0.commands|..]);
    assert s.commands == s0.commands + s.commands[|s0.commands|..];
    DeliveredConcat(s0.commands, s.commands[|s0.commands|..]);
    Rejoined(base, pushed, Pending(s), Pending(s0), Numbered(s0.step + 1, Inputs(events)), out, queued, was);
  }

  /** What went out since and what is queued tell what was queued and what was pushed since. */
  lemma QueueTells(log0: seq<Command>, log: seq<Command>, w0: Wire, w: Wire)
    requires log0 <= log && w0.sent <= w.sent && w.sent + w.queue == w0.sent + w0.queue + Positions(|log0|, |log|)
    requires Ordered(w0.queue, |log0|) && Ordered(w.sent[|w0.sent|..], |log|) && Ordered(w.queue, |log|)
    ensures Delivered(At(log, w.sent[|w0.sent|..])) + Delivered(At(log, w.queue))
            == Delivered(At(log0, w0.queue)) + Delivered(log[|log0|..])
  {
    hide Delivered, Positions;
    var out := w.sent[|w0.sent|..];
    var more := Positions(|log0|, |log|);
    AtPositions(log, |log0|);
    var rest := (w.sent + w.queue)[|w0.sent|..];
    assert out + w.queue == rest == w0.queue + more;
    AtConcat(log, out, w.queue);
    AtConcat(log, w0.queue, more);
    assert At(log, w0.queue) == At(log0, w0.queue);
    DeliveredConcat(At(log, out), At(log, w.queue));
    DeliveredConcat(At(log, w0.queue), At(log, more));
  }

  lemma Rejoined(base: seq<Told>, pushed: seq<Told>, pending: seq<Told>, pending0: seq<Told>, steps: seq<Told>,
                 out: seq<Told>, queued: seq<Told>, was: seq<Told>)
    requires base + pushed + pending == base + pending0 + steps && out + queued == was + pushed
    ensures out + queued + pending == was + pending0 + steps
  {
    assert base + pushed + pending == base + (pushed + pending) && base + pending0 + steps == base + (pending0 + steps);
    assert (base + (pushed + pending))[|base|..] == pushed + pending && (base + (pending0 + steps))[|base|..] == pending0 + steps;
    assert was + pushed + pending == was + (pushed + pending) && was + pending0 + steps == was + (pending0 + steps);
  }
}
