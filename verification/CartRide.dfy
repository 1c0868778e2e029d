/**
  Sitting in carts as the game runs it: the ride, the cart and the command queue of the
  game state, updated in place. Each method does what the function of its name in
  `CartSeats` says, so the seats agree in every run of them.
*/
module CartRide {
  import opened Options
  import C = CartSeats

  class CartState {
    var online: bool
    var account: nat
    var rows: map<nat, C.Row>
    var courseHasCarts: bool
    var takesCart: bool
    var ride: Option<C.Ride>
    var upright: bool
    var commands: seq<C.Command>

    function State(): C.Cart
      reads this
    {
      C.Cart(online, account, rows, courseHasCarts, takesCart, ride, upright, commands)
    }

    constructor (online: bool)
      ensures State() == C.Cart(online, 0, map[], false, false, None, true, [])
    {
      this.online := online;
      account, rows, courseHasCarts, takesCart := 0, map[], false, false;
      ride, upright, commands := None, true, [];
    }

    method LeaveCartAtOnce()
      modifies this
      ensures State() == C.LeaveAtOnce(old(State()))
    {
      if ride.None? {
        return;
      }
      if ride.value.owner != 0 && C.ServerSeatsMe(State(), ride.value.owner) && online {
        commands := commands + [C.LeaveCart];
      }
      ride := None;
    }

    method AdoptServerCart()
      modifies this
      ensures State() == C.AdoptServerCart(old(State()))
    {
      if account !in rows {
        return;
      }
      upright := rows[account].upright;
      if !upright && C.DrivingCart(State()) {
        LeaveCartAtOnce();
      }
    }

    method FollowServerCarts()
      modifies this
      ensures State() == C.FollowServerCarts(old(State()))
      ensures online && C.Sat(State()) && C.Valid(old(State())) ==> C.ServerAgrees(State())
    {
      ghost var before := State();
      if !online {
        return;
      }
      if before.ride.Some? {
        C.FollowedRide(before);
      } else {
        C.FollowedOnFoot(before);
      }
      hide C.AdoptServerCart, C.LeaveAtOnce;
      if ride.Some? && ride.value.owner == 0 {
        var steppingOut := ride.value.step.Some? && !ride.value.step.value.gettingIn;
        if account in rows && rows[account].driver == account {
          ride := Some(ride.value.(confirmed := true));
        } else if (ride.value.confirmed || account !in rows) && !steppingOut {
          AdoptServerCart();
          LeaveCartAtOnce();
        }
      }
      if !C.DrivingCart(State()) {
        AdoptServerCart();
      }
      if ride.None? || ride.value.owner == 0 {
        return;
      }
      var steppingOut := ride.value.step.Some? && !ride.value.step.value.gettingIn;
      if C.ServerSeatsMe(State(), ride.value.owner) {
        ride := Some(ride.value.(confirmed := true));
      } else if ride.value.confirmed && !steppingOut {
        LeaveCartAtOnce();
      }
    }

    method StepInAt(door: C.Door, driverSeated: bool)
      modifies this
      ensures State() == C.StepInAt(old(State()), door, driverSeated)
    {
      if C.Blocked(State(), door, driverSeated) {
        return;
      }
      if online {
        if door.owner == 0 {
          AdoptServerCart();
          commands := commands + [C.TakeWheel];
        } else {
          commands := commands + [C.BoardCart(door.owner)];
        }
      }
      ride := Some(C.Ride(door.owner, door.seat, Some(C.Step(0.0, true, door.door)), false));
    }

    method StepOut()
      requires ride.Some?
      modifies this
      ensures State() == C.StepOut(old(State()))
    {
      if online {
        commands := commands + [if ride.value.owner == 0 then C.LeaveWheel else C.LeaveCart];
      }
      ride := Some(ride.value.(step := Some(C.Step(0.0, false, C.Driver))));
    }

    method PlayStep(dt: real, tuning: C.Tuning)
      requires ride.Some? && ride.value.step.Some?
      modifies this
      ensures State() == C.PlayStep(old(State()), dt, tuning)
    {
      var step := ride.value.step.value;
      step := step.(elapsed := step.elapsed + dt);
      ride := Some(ride.value.(step := Some(step)));
      if step.elapsed < C.StepSeconds(ride.value, tuning) {
        return;
      }
      if !step.gettingIn {
        ride := None;
        return;
      }
      if online && !ride.value.confirmed {
        return;
      }
      ride := Some(ride.value.(step := None));
    }

    method UpdateCart(interact: bool, dt: real, tuning: C.Tuning, overturns: bool)
      modifies this
      ensures State() == C.UpdateCart(old(State()), interact, dt, tuning, overturns)
    {
      if ride.None? {
        return;
      }
      if !C.Shown(State(), ride.value.owner) {
        LeaveCartAtOnce();
        return;
      }
      if ride.value.step.Some? {
        PlayStep(dt, tuning);
      } else if interact {
        StepOut();
      } else if C.DrivingCart(State()) && overturns {
        upright := false;
        LeaveCartAtOnce();
      }
    }
  }
}
