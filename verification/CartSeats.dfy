/**
  Sitting in carts (`src/game/golf_cart.cpp`): stepping in and out takes time, and online
  a seat is mine once the server's row says so. The rows may change in any way between
  two frames. Poses, driving and sounds are not part of this model.
*/
module CartSeats {
  import opened Options

  datatype Seat = Driver | Passenger

  /** Getting in through the door at `entered`, or getting out. */
  datatype Step = Step(elapsed: real, gettingIn: bool, entered: Seat)

  /** One golfer's stay in one seat, from the step in to the end of the step out; owner 0 stands for my own cart. */
  datatype Ride = Ride(owner: nat, seat: Seat, step: Option<Step>, confirmed: bool)

  datatype Row = Row(driver: nat, passenger: nat, upright: bool)

  datatype Door = Door(owner: nat, door: Seat, seat: Seat)

  datatype Command = TakeWheel | LeaveWheel | BoardCart(owner: nat) | LeaveCart

  datatype Tuning = Tuning(stepSeconds: real, scootSeconds: real)

  datatype Cart = Cart(
    online: bool, account: nat, rows: map<nat, Row>,
    courseHasCarts: bool, takesCart: bool,
    ride: Option<Ride>, upright: bool, commands: seq<Command>)

  predicate IsMine(s: Cart, owner: nat) {
    owner == 0 || owner == s.account
  }

  predicate ServerSeatsMe(s: Cart, owner: nat) {
    owner in s.rows && s.rows[owner].passenger == s.account && s.account != 0
  }

  predicate OwnCart(s: Cart) {
    s.courseHasCarts && s.takesCart && (s.online ==> s.account in s.rows)
  }

  /** Whether `owner`'s cart is anywhere to be seen. */
  predicate Shown(s: Cart, owner: nat) {
    if IsMine(s, owner) then OwnCart(s) else owner in s.rows
  }

  predicate DrivingCart(s: Cart) {
    s.ride.Some? && s.ride.value.owner == 0 && s.ride.value.step.None? && (s.online ==> s.ride.value.confirmed)
  }

  predicate SteppingOut(ride: Ride) {
    ride.step.Some? && !ride.step.value.gettingIn
  }

  // ---- The operations ----

  function Push(s: Cart, c: Command): Cart {
    s.(commands := s.commands + [c])
  }

  function LeaveAtOnce(s: Cart): Cart {
    if s.ride.None? then s
    else
      var told := if s.ride.value.owner != 0 && ServerSeatsMe(s, s.ride.value.owner) && s.online then Push(s, LeaveCart) else s;
      told.(ride := None)
  }

  function AdoptServerCart(s: Cart): Cart {
    if s.account !in s.rows then s
    else
      var adopted := s.(upright := s.rows[s.account].upright);
      if !adopted.upright && DrivingCart(adopted) then LeaveAtOnce(adopted) else adopted
  }

  /** My wheel as the server's row has it. */
  function FollowWheel(s: Cart): Cart {
    if s.ride.None? || s.ride.value.owner != 0 then s
    else
      var ride := s.ride.value;
      if s.account in s.rows && s.rows[s.account].driver == s.account then s.(ride := Some(ride.(confirmed := true)))
      else if (ride.confirmed || s.account !in s.rows) && !SteppingOut(ride) then LeaveAtOnce(AdoptServerCart(s))
      else s
  }

  /** The passenger's seat as the server's row has it. */
  function FollowSeat(s: Cart): Cart {
    if s.ride.None? || s.ride.value.owner == 0 then s
    else
      var ride := s.ride.value;
      if ServerSeatsMe(s, ride.owner) then s.(ride := Some(ride.(confirmed := true)))
      else if ride.confirmed && !SteppingOut(ride) then LeaveAtOnce(s)
      else s
  }

  function FollowServerCarts(s: Cart): Cart {
    if !s.online then s
    else
      var wheel := FollowWheel(s);
      FollowSeat(if DrivingCart(wheel) then wheel else AdoptServerCart(wheel))
  }

  /** `others` says whether another's driver sits at the wheel, as shown. */
  predicate Blocked(s: Cart, door: Door, driverSeated: bool) {
    var owner := if door.owner != 0 then door.owner else s.account;
    var passengerSat := (door.owner != 0 || s.online) && owner in s.rows && s.rows[owner].passenger != 0;
    if door.owner == 0 then door.door == Passenger && passengerSat
    else passengerSat || (door.door == Driver && driverSeated)
  }

  function StepInAt(s: Cart, door: Door, driverSeated: bool): Cart {
    if Blocked(s, door, driverSeated) then s
    else
      var asked := if !s.online then s
                   else if door.owner == 0 then Push(AdoptServerCart(s), TakeWheel)
                   else Push(s, BoardCart(door.owner));
      asked.(ride := Some(Ride(door.owner, door.seat, Some(Step(0.0, true, door.door)), false)))
  }

  function StepOut(s: Cart): Cart
    requires s.ride.Some?
  {
    var told := if !s.online then s else Push(s, if s.ride.value.owner == 0 then LeaveWheel else LeaveCart);
    told.(ride := Some(s.ride.value.(step := Some(Step(0.0, false, Driver)))))
  }

  function StepSeconds(ride: Ride, tuning: Tuning): real
    requires ride.step.Some?
  {
    tuning.stepSeconds + if ride.step.value.gettingIn && ride.step.value.entered != ride.seat then tuning.scootSeconds else 0.0
  }

  function PlayStep(s: Cart, dt: real, tuning: Tuning): Cart
    requires s.ride.Some? && s.ride.value.step.Some?
  {
    var ride := s.ride.value;
    var step := ride.step.value.(elapsed := ride.step.value.elapsed + dt);
    var playing := s.(ride := Some(ride.(step := Some(step))));
    if step.elapsed < StepSeconds(ride, tuning) then playing
    else if !step.gettingIn then s.(ride := None)
    else if s.online && !ride.confirmed then playing
    else s.(ride := Some(ride.(step := None)))
  }

  /** One frame of a ride; `overturns` says whether driving ended upside down or under water. */
  function UpdateCart(s: Cart, interact: bool, dt: real, tuning: Tuning, overturns: bool): Cart {
    if s.ride.None? then s
    else if !Shown(s, s.ride.value.owner) then LeaveAtOnce(s)
    else if s.ride.value.step.Some? then PlayStep(s, dt, tuning)
    else if interact then StepOut(s)
    else if DrivingCart(s) && overturns then LeaveAtOnce(s.(upright := false))
    else s
  }

  // ---- Runs ----

  datatype Event =
    | Frame(interact: bool, dt: real, tuning: Tuning, overturns: bool)
    | Board(door: Door, driverSeated: bool)
    | Leave
    | Follow
    | Server(account: nat, rows: map<nat, Row>)
    | RoomChanged
    | Park(online: bool, courseHasCarts: bool, takesCart: bool)

  function Apply(s: Cart, e: Event): Cart {
    match e
    case Frame(interact, dt, tuning, overturns) => UpdateCart(s, interact, dt, tuning, overturns)
    case Board(door, driverSeated) => if s.ride.None? then StepInAt(s, door, driverSeated) else s
    case Leave => LeaveAtOnce(s)
    case Follow => FollowServerCarts(s)
    case Server(account, rows) => s.(account := account, rows := rows)
    case RoomChanged => s.(ride := None)
    case Park(online, courseHasCarts, takesCart) =>
      var left := LeaveAtOnce(s).(online := online, courseHasCarts := courseHasCarts, takesCart := takesCart, upright := true);
      if online then AdoptServerCart(left) else left
  }

  function After(s: Cart, events: seq<Event>): Cart {
    if events == [] then s else Apply(After(s, events[..|events| - 1]), events[|events| - 1])
  }

  /** Sat down: in a seat, no step playing. */
  predicate Sat(s: Cart) {
    s.ride.Some? && s.ride.value.step.None?
  }

  /** The server's row has me where I sit. */
  predicate ServerAgrees(s: Cart) {
    s.ride.Some? &&
    if s.ride.value.owner == 0 then s.account in s.rows && s.rows[s.account].driver == s.account
    else ServerSeatsMe(s, s.ride.value.owner)
  }

  /** Online nobody sits in a seat the server has not once confirmed. */
  predicate Valid(s: Cart) {
    s.online && Sat(s) ==> s.ride.value.confirmed
  }

  lemma AdoptKeepsSeat(s: Cart)
    ensures AdoptServerCart(s).online == s.online && AdoptServerCart(s).account == s.account && AdoptServerCart(s).rows == s.rows
    ensures AdoptServerCart(s).ride
            == if s.account in s.rows && !s.rows[s.account].upright && s.ride.Some? && s.ride.value.owner == 0
                  && s.ride.value.step.None? && (s.online ==> s.ride.value.confirmed) then None else s.ride
    ensures |s.commands| <= |AdoptServerCart(s).commands|
  {}

  /** What following the rows leaves of a ride. */
  lemma FollowedRide(s: Cart)
    requires s.online && s.ride.Some?
    ensures var ride, now := s.ride.value, FollowServerCarts(s);
            && now.online && now.account == s.account && now.rows == s.rows
            && now.ride == (if ServerAgrees(s) then Some(ride.(confirmed := true))
                            else if SteppingOut(ride) then s.ride
                            else if ride.confirmed || (ride.owner == 0 && s.account !in s.rows) then None
                            else s.ride)
  {
    hide AdoptServerCart, FollowWheel, FollowSeat, LeaveAtOnce;
    var wheel := FollowWheel(s);
    FollowedWheel(s);
    AdoptKeepsSeat(wheel);
    FollowedSeat(if DrivingCart(wheel) then wheel else AdoptServerCart(wheel));
  }

  lemma FollowedWheel(s: Cart)
    requires s.online && s.ride.Some?
    ensures var ride, now := s.ride.value, FollowWheel(s);
            && now.online && now.account == s.account && now.rows == s.rows
            && now.ride == (if ride.owner != 0 then s.ride
                            else if ServerAgrees(s) then Some(ride.(confirmed := true))
                            else if SteppingOut(ride) || (!ride.confirmed && s.account in s.rows) then s.ride
                            else None)
  {
    hide AdoptServerCart;
    AdoptKeepsSeat(s);
  }

  lemma FollowedSeat(s: Cart)
    requires s.online
    ensures var now := FollowSeat(s);
            && now.online && now.account == s.account && now.rows == s.rows
            && now.ride == (if s.ride.None? || s.ride.value.owner == 0 then s.ride
                            else if ServerSeatsMe(s, s.ride.value.owner) then Some(s.ride.value.(confirmed := true))
                            else if SteppingOut(s.ride.value) || !s.ride.value.confirmed then s.ride
                            else None)
  {}

  lemma ApplyKeepsValid(s: Cart, e: Event)
    requires Valid(s)
    ensures Valid(Apply(s, e))
  {
    hide AdoptServerCart, FollowServerCarts, Blocked, Shown, StepSeconds;
    match e
    case Frame(_, _, _, _) =>
    case Board(_, _) => AdoptKeepsSeat(s);
    case Follow =>
      if s.online && s.ride.Some? {
        FollowedRide(s);
      } else {
        FollowedOnFoot(s);
      }
    case Park(online, courseHasCarts, takesCart) =>
      AdoptKeepsSeat(LeaveAtOnce(s).(online := online, courseHasCarts := courseHasCarts, takesCart := takesCart, upright := true));
    case _ =>
  }

  lemma FollowedOnFoot(s: Cart)
    requires !s.online || s.ride.None?
    ensures FollowServerCarts(s).ride == s.ride && FollowServerCarts(s).online == s.online
  {}

  lemma {:induction false} RunKeepsValid(s: Cart, events: seq<Event>)
    requires s.ride.None?
    ensures Valid(After(s, events))
  {
    hide Apply, Valid;
    if events != [] {
      RunKeepsValid(s, events[..|events| - 1]);
      ApplyKeepsValid(After(s, events[..|events| - 1]), events[|events| - 1]);
    } else {
      OnFootIsValid(s);
    }
  }

  lemma OnFootIsValid(s: Cart)
    requires s.ride.None?
    ensures Valid(s)
  {}

  /** In every online run, right after following the rows, a golfer sat in a seat is in it on the server too. */
  lemma SeatsAgree(s: Cart, events: seq<Event>)
    requires s.ride.None? && After(s, events).online
    ensures var now := After(s, events + [Follow]);
            && (Sat(now) ==> ServerAgrees(now) && now.ride.value.confirmed)
            && (DrivingCart(now) ==> ServerAgrees(now))
  {
    hide FollowServerCarts;
    RunKeepsValid(s, events);
    assert (events + [Follow])[..|events|] == events;
    var before := After(s, events);
    if before.ride.Some? {
      FollowedRide(before);
    } else {
      FollowedOnFoot(before);
    }
  }

  /** Following the rows keeps a ride exactly when the server agrees, I am stepping out, or it is still to be confirmed. */
  lemma FollowKeepsRide(s: Cart)
    requires s.online && s.ride.Some?
    ensures FollowServerCarts(s).ride.Some? <==>
            || (if s.ride.value.owner == 0 then s.account in s.rows && s.rows[s.account].driver == s.account
                else s.ride.value.owner in s.rows && s.rows[s.ride.value.owner].passenger == s.account && s.account != 0)
            || (s.ride.value.step.Some? && !s.ride.value.step.value.gettingIn)
            || (!s.ride.value.confirmed && (s.ride.value.owner == 0 ==> s.account in s.rows))
  {
    FollowedRide(s);
  }

  // ---- Every ride from its request on ----

  /** What is asked of the server for a seat at this door. */
  function RequestFor(door: Door): Command {
    if door.owner == 0 then TakeWheel else BoardCart(door.owner)
  }

  /** Nobody else has the seat behind the door, or stands in the way to it. */
  predicate SeatFree(s: Cart, door: Door, driverSeated: bool) {
    var owner := if door.owner == 0 then s.account else door.owner;
    var passenger := if owner in s.rows && (s.online || door.owner != 0) then s.rows[owner].passenger else 0;
    (door.owner == 0 && door.door == Driver) || (passenger == 0 && (door.owner == 0 || door.door == Passenger || !driverSeated))
  }

  /** I went to a free seat at `j`, on foot, and online asked for it. */
  predicate BoardsAt(s: Cart, events: seq<Event>, j: nat) {
    j < |events| && events[j].Board? &&
    var was, now, door := After(s, events[..j]), After(s, events[..j + 1]), events[j].door;
    && was.ride.None? && SeatFree(was, door, events[j].driverSeated)
    && now.commands == was.commands + (if was.online then [RequestFor(door)] else [])
    && now.ride == Some(Ride(door.owner, door.seat, Some(Step(0.0, true, door.door)), false))
  }

  /** I have been in a ride since. */
  predicate LastsFrom(s: Cart, events: seq<Event>, j: nat) {
    forall m | j < m <= |events| :: After(s, events[..m]).ride.Some?
  }

  /** The frames' time from `j` on. */
  function TimeFrom(events: seq<Event>, j: nat): real {
    if |events| <= j then 0.0
    else TimeFrom(events[..|events| - 1], j) + if events[|events| - 1].Frame? then events[|events| - 1].dt else 0.0
  }

  /** The ride now is the one begun at `j`: its cart and seat, and its time while getting in. */
  predicate RideSince(s: Cart, events: seq<Event>, j: nat) {
    && BoardsAt(s, events, j) && LastsFrom(s, events, j)
    && var now, door := After(s, events), events[j].door;
       && now.ride.Some? && now.online == After(s, events[..j]).online
       && now.ride.value.owner == door.owner && now.ride.value.seat == door.seat
       && (now.ride.value.step.Some? && now.ride.value.step.value.gettingIn ==>
             now.ride.value.step.value.elapsed == TimeFrom(events, j + 1) && now.ride.value.step.value.entered == door.door)
  }

  /** What an event that does not end a ride leaves of it. */
  lemma RideOn(s: Cart, e: Event)
    requires s.ride.Some? && Apply(s, e).ride.Some?
    ensures var was, now := s.ride.value, Apply(s, e).ride.value;
            && now.owner == was.owner && now.seat == was.seat && Apply(s, e).online == s.online
            && ((now.step == was.step && (e.Frame? ==> was.step.None?))
                || (e.Frame? && was.step.Some? && now.step == Some(was.step.value.(elapsed := was.step.value.elapsed + e.dt)))
                || (e.Frame? && was.step.None? && now.step.Some? && !now.step.value.gettingIn)
                || (e.Frame? && was.step.Some? && was.step.value.gettingIn && now.step.None?
                    && was.step.value.elapsed + e.dt >= StepSeconds(was, e.tuning) && (s.online ==> was.confirmed)))
  {
    hide AdoptServerCart, FollowServerCarts, Blocked, Shown, StepSeconds;
    if e.Follow? {
      if s.online {
        FollowedRide(s);
      } else {
        FollowedOnFoot(s);
      }
    } else if e.Park? {
      AdoptKeepsSeat(LeaveAtOnce(s).(online := e.online, courseHasCarts := e.courseHasCarts, takesCart := e.takesCart, upright := true));
    }
  }

  /** Only going to a free seat begins a ride. */
  lemma RideBegins(s: Cart, e: Event)
    requires s.ride.None? && Apply(s, e).ride.Some?
    ensures e.Board? && SeatFree(s, e.door, e.driverSeated)
    ensures Apply(s, e).commands == s.commands + (if s.online then [RequestFor(e.door)] else []) && Apply(s, e).online == s.online
    ensures Apply(s, e).ride == Some(Ride(e.door.owner, e.door.seat, Some(Step(0.0, true, e.door.door)), false))
  {
    hide FollowServerCarts;
    if e.Follow? {
      FollowedOnFoot(s);
    }
  }

  lemma TimeOn(events: seq<Event>, e: Event, j: nat)
    requires j <= |events|
    ensures TimeFrom(events + [e], j) == TimeFrom(events, j) + if e.Frame? then e.dt else 0.0
  {
    assert (events + [e])[..|events|] == events;
  }

  /** A seat taken earlier is still so when one more event has passed. */
  lemma BoardsStill(s: Cart, events: seq<Event>, e: Event, j: nat)
    requires BoardsAt(s, events, j) && LastsFrom(s, events, j) && After(s, events + [e]).ride.Some?
    ensures BoardsAt(s, events + [e], j) && LastsFrom(s, events + [e], j)
  {
    hide After, SeatFree;
    var all := events + [e];
    assert all[..j] == events[..j] && all[..j + 1] == events[..j + 1] && all[j] == events[j];
    forall m | j < m <= |all| ensures After(s, all[..m]).ride.Some? {
      if m <= |events| {
        assert all[..m] == events[..m];
      } else {
        assert all[..m] == all;
      }
    }
  }

  lemma AfterSnoc(s: Cart, events: seq<Event>, e: Event)
    ensures After(s, events + [e]) == Apply(After(s, events), e)
  {
    hide Apply;
    assert (events + [e])[..|events|] == events;
  }

  lemma RideSinceOn(s: Cart, events: seq<Event>, e: Event, j: nat)
    requires RideSince(s, events, j) && After(s, events + [e]).ride.Some?
    ensures RideSince(s, events + [e], j)
  {
    hide After, Apply, BoardsAt, LastsFrom, TimeFrom, StepSeconds;
    var all := events + [e];
    BoardsIn(s, events, j);
    BoardsStill(s, events, e, j);
    assert all[..j] == events[..j] && all[j] == events[j];
    AfterSnoc(s, events, e);
    RideOn(After(s, events), e);
    TimeOn(events, e, j + 1);
  }

  lemma BoardsIn(s: Cart, events: seq<Event>, j: nat)
    requires BoardsAt(s, events, j)
    ensures j < |events| && events[j].Board?
  {}

  lemma RideSinceNow(s: Cart, events: seq<Event>, e: Event)
    requires After(s, events).ride.None? && After(s, events + [e]).ride.Some?
    ensures RideSince(s, events + [e], |events|)
  {
    hide After, Apply, SeatFree;
    var all, j := events + [e], |events|;
    AfterSnoc(s, events, e);
    RideBegins(After(s, events), e);
    assert all[..j] == events && all[..j + 1] == all && all[j] == e;
    assert forall m | j < m <= |all| :: all[..m] == all;
  }

  /** In every run a ride has begun at a free seat, asked for online, and its cart, seat and time are that seat's. */
  lemma {:induction false} RideWasAsked(s: Cart, events: seq<Event>) returns (j: nat)
    requires s.ride.None? && After(s, events).ride.Some?
    ensures RideSince(s, events, j)
  {
    hide After, Apply, RideSince;
    if events == [] {
      AfterNone(s);
    } else {
      var init, e := events[..|events| - 1], events[|events| - 1];
      assert events == init + [e];
      if After(s, init).ride.None? {
        j := |init|;
        RideSinceNow(s, init, e);
      } else {
        j := RideWasAsked(s, init);
        RideSinceOn(s, init, e, j);
      }
    }
  }

  lemma AfterNone(s: Cart)
    ensures After(s, []) == s
  {}

  /** Between two requests of a run the earlier ride has ended. */
  lemma RequestsApart(s: Cart, events: seq<Event>, j: nat, k: nat)
    requires BoardsAt(s, events, j) && BoardsAt(s, events, k) && j < k
    ensures exists m :: j + 1 < m <= k && After(s, events[..m]).ride.None? && After(s, events[..m - 1]).ride.Some?
  {
    hide After, SeatFree;
    var m := j + 2;
    while m <= k && After(s, events[..m]).ride.Some?
      invariant j + 2 <= m <= k + 1 && After(s, events[..m - 1]).ride.Some?
    {
      m := m + 1;
    }
    assert m <= k;
  }

  /** A step in that is over by `m`: its time since the request was up, and online the server had confirmed it. */
  predicate SitsAt(s: Cart, events: seq<Event>, j: nat, m: nat) {
    j < m < |events| && events[j].Board? && events[m].Frame? &&
    var was, door := After(s, events[..m]), events[j].door;
    && TimeFrom(events[..m + 1], j + 1)
       >= events[m].tuning.stepSeconds + (if door.door != door.seat then events[m].tuning.scootSeconds else 0.0)
    && (was.online ==> was.ride.Some? && was.ride.value.confirmed)
  }

  /** In every run whoever has sat down did so at a frame of the ride begun at `j`, when its step's time was up and, online, it was confirmed. */
  lemma {:induction false} SatInTime(s: Cart, events: seq<Event>) returns (j: nat, m: nat)
    requires s.ride.None? && Sat(After(s, events))
    ensures RideSince(s, events, j) && SitsAt(s, events, j, m)
  {
    j := RideWasAsked(s, events);
    m := SatSince(s, events, j);
  }

  lemma {:induction false} SatSince(s: Cart, events: seq<Event>, j: nat) returns (m: nat)
    requires RideSince(s, events, j) && Sat(After(s, events))
    ensures SitsAt(s, events, j, m)
    decreases |events|
  {
    hide After, Apply;
    var n := |events| - 1;
    var init, e := events[..n], events[n];
    assert events == init + [e];
    AfterSnoc(s, init, e);
    if j == n {
      RideNotSat(s, events);
    }
    RideSinceInit(s, events, j);
    RideSeen(s, init, j);
    var was := After(s, init);
    RideOn(was, e);
    if was.ride.value.step.None? {
      m := SatSince(s, init, j);
      SitsOn(s, init, e, j, m);
    } else {
      m := n;
      assert events[..m] == init && events[..m + 1] == events && init[j] == events[j];
      TimeOn(init, e, j + 1);
    }
  }

  /** At its request a ride is a step in, so nobody sits yet. */
  lemma RideNotSat(s: Cart, events: seq<Event>)
    requires events != [] && BoardsAt(s, events, |events| - 1)
    ensures !Sat(After(s, events))
  {
    assert events[..|events| - 1 + 1] == events;
  }

  lemma RideSeen(s: Cart, events: seq<Event>, j: nat)
    requires RideSince(s, events, j)
    ensures After(s, events).ride.Some?
  {}

  /** The ride of a run was already that ride an event before, unless it began right then. */
  lemma RideSinceInit(s: Cart, events: seq<Event>, j: nat)
    requires RideSince(s, events, j) && j < |events| - 1
    ensures RideSince(s, events[..|events| - 1], j)
  {
    hide After, Apply, TimeFrom;
    var init := events[..|events| - 1];
    assert init[..j] == events[..j] && init[..j + 1] == events[..j + 1] && init[j] == events[j];
    assert forall m | j < m <= |init| :: init[..m] == events[..m];
    assert BoardsAt(s, init, j) && LastsFrom(s, init, j);
    RideFrom(s, init, j);
  }

  /** A ride begun at `j` that has lasted is that ride now. */
  lemma {:induction false} RideFrom(s: Cart, events: seq<Event>, j: nat)
    requires BoardsAt(s, events, j) && LastsFrom(s, events, j)
    ensures RideSince(s, events, j)
    decreases |events|
  {
    hide After, Apply, SeatFree, RideSince;
    var n := |events| - 1;
    var init, e := events[..n], events[n];
    assert events == init + [e] && events[..|events|] == events;
    if j == n {
      RideSinceNow(s, init, e);
    } else {
      assert init[..j] == events[..j] && init[..j + 1] == events[..j + 1] && init[j] == events[j];
      assert forall m | j < m <= |init| :: init[..m] == events[..m];
      RideFrom(s, init, j);
      RideSinceOn(s, init, e, j);
    }
  }

  lemma SitsOn(s: Cart, events: seq<Event>, e: Event, j: nat, m: nat)
    requires SitsAt(s, events, j, m)
    ensures SitsAt(s, events + [e], j, m)
  {
    hide After, TimeFrom;
    var all := events + [e];
    assert all[..m] == events[..m] && all[..m + 1] == events[..m + 1] && all[j] == events[j] && all[m] == events[m];
  }

  /** In every run the server is told of leaving only for a seat I had asked for, of the wheel when it was the wheel. */
  lemma LeavesAsked(s: Cart, events: seq<Event>, e: Event, c: Command) returns (j: nat)
    requires s.ride.None? && (c == LeaveWheel || c == LeaveCart)
    requires After(s, events + [e]).commands == After(s, events).commands + [c]
    ensures RideSince(s, events, j) && After(s, events).online && (c == LeaveWheel <==> events[j].door.owner == 0)
  {
    hide After, Apply, SeatFree, RideSince;
    AfterSnoc(s, events, e);
    TellsOfRide(After(s, events), e, c);
    j := RideWasAsked(s, events);
    RideOf(s, events, j);
  }

  lemma RideOf(s: Cart, events: seq<Event>, j: nat)
    requires RideSince(s, events, j)
    ensures j < |events| && events[j].Board? && After(s, events).ride.Some? && After(s, events).ride.value.owner == events[j].door.owner
  {}

  lemma LeaveTells(s: Cart)
    ensures LeaveAtOnce(s).commands == s.commands
            || (s.online && s.ride.Some? && s.ride.value.owner != 0 && LeaveAtOnce(s).commands == s.commands + [LeaveCart])
  {}

  lemma AdoptQuiet(s: Cart)
    ensures AdoptServerCart(s).commands == s.commands
  {}

  lemma WheelQuiet(s: Cart)
    ensures FollowWheel(s).commands == s.commands
  {
    hide AdoptServerCart;
    AdoptQuiet(s);
    AdoptKeepsSeat(s);
  }

  lemma SeatQuiet(s: Cart)
    ensures FollowSeat(s).commands == s.commands
  {}

  lemma FollowQuiet(s: Cart)
    ensures FollowServerCarts(s).commands == s.commands
  {
    hide AdoptServerCart, FollowWheel, FollowSeat, DrivingCart;
    WheelQuiet(s);
    AdoptQuiet(FollowWheel(s));
    SeatQuiet(if DrivingCart(FollowWheel(s)) then FollowWheel(s) else AdoptServerCart(FollowWheel(s)));
  }

  lemma FrameTells(s: Cart, e: Event)
    requires e.Frame?
    ensures var now := Apply(s, e).commands;
            now == s.commands
            || (s.online && s.ride.Some? && now == s.commands + [if s.ride.value.owner == 0 then LeaveWheel else LeaveCart])
  {
    hide Shown, StepSeconds;
  }

  lemma TellsOfRide(s: Cart, e: Event, c: Command)
    requires (c == LeaveWheel || c == LeaveCart) && Apply(s, e).commands == s.commands + [c]
    ensures s.online && s.ride.Some? && (c == LeaveWheel <==> s.ride.value.owner == 0)
  {
    hide UpdateCart, LeaveAtOnce, AdoptServerCart, FollowServerCarts, Blocked;
    assert s.commands != s.commands + [c];
    assert (s.commands + [c])[|s.commands|] == c;
    match e
    case Frame(_, _, _, _) => FrameTells(s, e);
    case Board(door, driverSeated) => AdoptQuiet(s);
    case Leave => LeaveTells(s);
    case Follow => FollowQuiet(s);
    case Park(online, courseHasCarts, takesCart) =>
      LeaveTells(s);
      AdoptQuiet(LeaveAtOnce(s).(online := online, courseHasCarts := courseHasCarts, takesCart := takesCart, upright := true));
    case _ =>
  }
}
