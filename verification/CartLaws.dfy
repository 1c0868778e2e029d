/**
  What each moment of a ride does and tells the server (`src/game/golf_cart.cpp`), by the
  ride, the rows and the carts about alone: stepping out and leaving, sitting down, and the
  cart tipping over.
*/
module CartLaws {
  import opened Options
  import opened CartSeats

  /** The cart of my ride stands somewhere: mine when the course has carts and I take one (online when its row is there), another's by its row. */
  predicate CartAbout(s: Cart, owner: nat) {
    if owner == 0 || owner == s.account then s.courseHasCarts && s.takesCart && (!s.online || s.account in s.rows)
    else owner in s.rows
  }

  /** The server's row has me as the passenger of my ride's cart. */
  predicate RowHasMe(s: Cart) {
    s.ride.Some? && s.ride.value.owner in s.rows && s.account != 0 && s.rows[s.ride.value.owner].passenger == s.account
  }

  /** An event puts me out of my seat at once, no step played. */
  predicate OutAtOnce(s: Cart, e: Event) {
    s.ride.Some? && (e.Leave? || e.Park? || (e.Frame? && !CartAbout(s, s.ride.value.owner)))
  }

  /** A step out begins: sat in a cart that stands about, interact pressed. */
  predicate StepsOut(s: Cart, e: Event) {
    s.ride.Some? && s.ride.value.step.None? && e.Frame? && e.interact && CartAbout(s, s.ride.value.owner)
  }

  /** The commands an event adds. */
  predicate Adds(s: Cart, e: Event, more: seq<Command>) {
    Apply(s, e).commands == s.commands + more
  }

  lemma AddsNothing(s: Cart, e: Event)
    requires Apply(s, e).commands == s.commands
    ensures Adds(s, e, [])
  {}

  lemma OutTells(s: Cart)
    ensures var now := LeaveAtOnce(s);
            now.ride.None? && now.online == s.online && now.upright == s.upright
            && now.commands == s.commands + (if s.online && s.ride.Some? && s.ride.value.owner != 0 && RowHasMe(s) then [LeaveCart] else [])
  {
    assert s.commands + [] == s.commands;
  }

  lemma FrameDoes(s: Cart, e: Event)
    requires e.Frame?
    ensures var now := Apply(s, e);
            && now.online == s.online && now.account == s.account && now.rows == s.rows
            && if s.ride.None? then now == s
               else if OutAtOnce(s, e) then
                 now.ride.None? && now.upright == s.upright
                 && now.commands == s.commands + (if s.online && s.ride.value.owner != 0 && RowHasMe(s) then [LeaveCart] else [])
               else if StepsOut(s, e) then
                 && now.ride.Some? && now.ride.value.owner == s.ride.value.owner && now.ride.value.step.Some?
                 && !now.ride.value.step.value.gettingIn && now.ride.value.step.value.elapsed == 0.0 && now.upright == s.upright
                 && now.commands == s.commands + (if !s.online then [] else if s.ride.value.owner == 0 then [LeaveWheel] else [LeaveCart])
               else now.commands == s.commands
  {
    hide StepSeconds;
    assert s.commands + [] == s.commands;
    OutTells(s);
  }

  /**
    The one account of what is told: in every run a step out tells the server once, of the
    wheel in my own cart and of the seat in another's; being put out at once tells it
    exactly of a passenger's seat it still has me in; nothing else tells of leaving, and
    offline nothing is told.
  */
  lemma LeavingTold(s: Cart, events: seq<Event>, e: Event)
    requires s.ride.None?
    ensures var was, now := After(s, events), After(s, events + [e]);
            var steps := StepsOut(was, e);
            && (steps <==> Sat(was) && now.ride.Some? && SteppingOut(now.ride.value))
            && (steps && was.online ==> now.commands == was.commands + [if was.ride.value.owner == 0 then LeaveWheel else LeaveCart])
            && (!steps || !was.online ==>
                  exists more :: now.commands == was.commands + more && LeaveWheel !in more
                                 && (LeaveCart in more <==> was.online && OutAtOnce(was, e) && was.ride.value.owner != 0 && RowHasMe(was)))
  {
    hide After, Apply, CartAbout, RowHasMe, StepSeconds;
    AfterSnoc(s, events, e);
    Told(After(s, events), e);
    SteppingBegins(After(s, events), e);
  }

  lemma SteppingBegins(s: Cart, e: Event)
    ensures StepsOut(s, e) <==> Sat(s) && Apply(s, e).ride.Some? && SteppingOut(Apply(s, e).ride.value)
  {
    hide CartAbout, AdoptServerCart, FollowServerCarts, Blocked, Shown, StepSeconds;
    var now := Apply(s, e);
    if Sat(s) && now.ride.Some? && SteppingOut(now.ride.value) {
      RideOn(s, e);
      FrameDoes(s, e);
      ShownIsAbout(s);
    }
    if StepsOut(s, e) {
      FrameDoes(s, e);
    }
  }

  lemma ShownIsAbout(s: Cart)
    ensures forall owner :: Shown(s, owner) <==> CartAbout(s, owner)
  {}

  lemma Told(s: Cart, e: Event)
    ensures var now := Apply(s, e);
            && (StepsOut(s, e) && s.online ==> now.commands == s.commands + [if s.ride.value.owner == 0 then LeaveWheel else LeaveCart])
            && (!StepsOut(s, e) || !s.online ==>
                  exists more :: now.commands == s.commands + more && LeaveWheel !in more
                                 && (LeaveCart in more <==> s.online && OutAtOnce(s, e) && s.ride.value.owner != 0 && RowHasMe(s)))
  {
    hide UpdateCart, LeaveAtOnce, AdoptServerCart, FollowServerCarts, Blocked, CartAbout, RowHasMe;
    var now := Apply(s, e);
    assert s.commands == s.commands + [];
    match e
    case Frame(_, _, _, _) =>
      FrameDoes(s, e);
      if !StepsOut(s, e) || !s.online {
        More(s, now, if s.online && OutAtOnce(s, e) && s.ride.value.owner != 0 && RowHasMe(s) then [LeaveCart] else []);
      }
    case Board(door, driverSeated) =>
      AdoptQuiet(s);
      More(s, now, if now.commands == s.commands then [] else [now.commands[|s.commands|]]);
    case Leave =>
      OutTells(s);
      More(s, now, if s.online && s.ride.Some? && s.ride.value.owner != 0 && RowHasMe(s) then [LeaveCart] else []);
    case Follow =>
      FollowQuiet(s);
      More(s, now, []);
    case Park(online, courseHasCarts, takesCart) =>
      OutTells(s);
      AdoptQuiet(LeaveAtOnce(s).(online := online, courseHasCarts := courseHasCarts, takesCart := takesCart, upright := true));
      More(s, now, if s.online && s.ride.Some? && s.ride.value.owner != 0 && RowHasMe(s) then [LeaveCart] else []);
    case _ => More(s, now, []);
  }

  lemma More(s: Cart, now: Cart, more: seq<Command>)
    requires now.commands == s.commands + more
    ensures exists added :: now.commands == s.commands + added && added == more
  {}

  /** In every run going to a seat on foot begins a ride exactly when the seat is free and the way to it; else nothing changes. Online my own cart is then as its row has it. */
  lemma BoardsExactly(s: Cart, events: seq<Event>, door: Door, driverSeated: bool)
    requires After(s, events).ride.None?
    ensures var was, now := After(s, events), After(s, events + [Board(door, driverSeated)]);
            var owner := if door.owner == 0 then was.account else door.owner;
            var sat := owner in was.rows && was.rows[owner].passenger != 0 && (was.online || door.owner != 0);
            var barred := if door.owner == 0 then door.door == Passenger && sat else sat || (door.door == Driver && driverSeated);
            && (now.ride.Some? <==> !barred)
            && (barred ==> now == was)
            && (!barred ==> now.upright == if was.online && door.owner == 0 && was.account in was.rows then was.rows[was.account].upright
                                           else was.upright)
  {
    hide After;
    AfterSnoc(s, events, Board(door, driverSeated));
  }

  // ---- Steps in and out ----

  /** How long a step lasts: getting in through the other door takes the scoot besides. */
  function StepTime(ride: Ride, tuning: Tuning): real
    requires ride.step.Some?
  {
    if ride.step.value.gettingIn && ride.step.value.entered != ride.seat then tuning.stepSeconds + tuning.scootSeconds
    else tuning.stepSeconds
  }

  /**
    A step plays on by each frame's time. One out ends the ride when its time is up. One in
    ends sat, when its time is up and, online, the server has had me there; until then it waits.
  */
  lemma StepPlays(s: Cart, e: Event)
    requires s.ride.Some? && s.ride.value.step.Some? && e.Frame? && CartAbout(s, s.ride.value.owner)
    ensures var ride, now := s.ride.value, Apply(s, e);
            var step := ride.step.value;
            var up := step.elapsed + e.dt >= StepTime(ride, e.tuning);
            && now.commands == s.commands && now.upright == s.upright
            && (now.ride.None? <==> up && !step.gettingIn)
            && (Sat(now) <==> up && step.gettingIn && (s.online ==> ride.confirmed))
            && (now.ride.Some? ==> now.ride.value.owner == ride.owner && now.ride.value.seat == ride.seat && now.ride.value.confirmed == ride.confirmed)
            && (now.ride.Some? && !Sat(now) ==> now.ride.value.step == Some(step.(elapsed := step.elapsed + e.dt)))
  {
    ShownIsAbout(s);
  }

  // ---- The cart ----

  /** Sat at my own wheel, online once the server has had me there. */
  predicate AtWheel(s: Cart) {
    s.ride.Some? && s.ride.value.owner == 0 && s.ride.value.step.None? && (s.online ==> s.ride.value.confirmed)
  }

  /** Driving tips the cart over exactly at my own wheel, and puts me out of it. */
  lemma TipsOver(s: Cart, e: Event)
    requires e.Frame?
    ensures var now := Apply(s, e);
            var tips := AtWheel(s) && CartAbout(s, 0) && !e.interact && e.overturns;
            && (tips ==> !now.upright && now.ride.None?)
            && (!tips ==> now.upright == s.upright)
            && (s.ride.Some? && s.ride.value.step.None? && !tips && !e.interact && CartAbout(s, s.ride.value.owner) ==> now == s)
  {
    ShownIsAbout(s);
  }

  /**
    In every online run following the rows takes over my cart's row, unless I am at its
    wheel and the row has me there.
  */
  lemma RowIsTaken(s: Cart, events: seq<Event>)
    requires s.ride.None? && After(s, events).online
    ensures var was, now := After(s, events), After(s, events + [Follow]);
            now.upright == if was.account in was.rows && !(AtWheel(was) && was.rows[was.account].driver == was.account)
                           then was.rows[was.account].upright else was.upright
  {
    hide After;
    AfterSnoc(s, events, Follow);
    RunKeepsValid(s, events);
    RowTaken(After(s, events));
  }

  lemma RowTaken(s: Cart)
    requires s.online && Valid(s)
    ensures FollowServerCarts(s).upright
            == if s.account in s.rows && !(AtWheel(s) && s.rows[s.account].driver == s.account) then s.rows[s.account].upright else s.upright
  {
    hide FollowSeat, FollowWheel, AdoptServerCart;
    var wheel := FollowWheel(s);
    WheelTaken(s);
    SeatKeepsCart(if DrivingCart(wheel) then wheel else AdoptServerCart(wheel));
    Adopted(wheel);
  }

  lemma SeatKeepsCart(s: Cart)
    ensures FollowSeat(s).upright == s.upright
  {}

  lemma Adopted(s: Cart)
    ensures AdoptServerCart(s).upright == if s.account in s.rows then s.rows[s.account].upright else s.upright
  {}

  lemma WheelTaken(s: Cart)
    requires s.online && Valid(s)
    ensures var wheel := FollowWheel(s);
            && wheel.account == s.account && wheel.rows == s.rows
            && (DrivingCart(wheel) <==> AtWheel(s) && s.account in s.rows && s.rows[s.account].driver == s.account)
            && (DrivingCart(wheel) ==> wheel.upright == s.upright)
            && (s.account !in s.rows ==> wheel.upright == s.upright)
  {}

  /** Parked anew my cart stands upright, online as its row has it, and nobody sits. */
  lemma ParkedAnew(s: Cart, e: Event)
    requires e.Park?
    ensures var now := Apply(s, e);
            && now.ride.None? && now.online == e.online && now.courseHasCarts == e.courseHasCarts && now.takesCart == e.takesCart
            && now.account == s.account && now.rows == s.rows
            && now.upright == (if e.online && s.account in s.rows then s.rows[s.account].upright else true)
  {
    hide LeaveAtOnce;
    OutKeeps(s);
    var left := LeaveAtOnce(s).(online := e.online, courseHasCarts := e.courseHasCarts, takesCart := e.takesCart, upright := true);
    AdoptOnFoot(left);
  }

  lemma OutKeeps(s: Cart)
    ensures LeaveAtOnce(s).ride.None? && LeaveAtOnce(s).account == s.account && LeaveAtOnce(s).rows == s.rows
  {}

  lemma AdoptOnFoot(s: Cart)
    requires s.ride.None?
    ensures AdoptServerCart(s) == if s.account in s.rows then s.(upright := s.rows[s.account].upright) else s
  {}

  /** New rows change nothing else of mine; another room takes my ride, and tells nobody. */
  lemma RowsComeIn(s: Cart, e: Event)
    ensures e.Server? ==> Apply(s, e) == Cart(s.online, e.account, e.rows, s.courseHasCarts, s.takesCart, s.ride, s.upright, s.commands)
    ensures e.RoomChanged? ==> Apply(s, e) == Cart(s.online, s.account, s.rows, s.courseHasCarts, s.takesCart, None, s.upright, s.commands)
  {
    hide UpdateCart, StepInAt, LeaveAtOnce, FollowServerCarts, AdoptServerCart;
  }

  /** In every online run, right after following the rows: at my wheel the row has me driving; in another's seat its row has me as passenger. */
  lemma RowsHaveMe(s: Cart, events: seq<Event>)
    requires s.ride.None? && After(s, events).online
    ensures var now := After(s, events + [Follow]);
            Sat(now) ==>
              if now.ride.value.owner == 0 then now.account in now.rows && now.rows[now.account].driver == now.account
              else RowHasMe(now)
  {
    hide After;
    SeatsAgree(s, events);
  }
}
