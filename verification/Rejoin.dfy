/**
  Getting back into the room after an outage (`src/core/online_session.cpp`): once signed
  in again the course is joined anew, and the round starts over when the room is ready.
*/
module Rejoin {
  datatype Status = SignedOut | Failed | Connecting | Connected

  /** What a frame sees of the connection, the room and the refusals. */
  datatype Seen = Seen(status: Status, joinRefused: bool, inCourseRoom: bool, roomReady: bool, hasAccount: bool)

  datatype Report = Nothing | Restart | Lost

  datatype Session = Session(rejoining: bool, joinSent: bool)

  /** A frame watched, or the player leaving the round. */
  datatype Moment = Frame(seen: Seen) | Leave

  /** The session, the report and whether a join was sent, after one moment. */
  datatype Outcome = Outcome(session: Session, report: Report, joins: bool)

  function Step(s: Session, m: Moment): Outcome {
    match m
    case Leave => Outcome(s.(rejoining := false), Nothing, false)
    case Frame(seen) =>
      if seen.status == SignedOut || seen.status == Failed then Outcome(s.(rejoining := false), Lost, false)
      else if seen.status == Connecting then Outcome(Session(true, false), Nothing, false)
      else if !s.rejoining then Outcome(s, if seen.inCourseRoom then Nothing else Lost, false)
      else if seen.joinRefused then Outcome(s.(rejoining := false), Lost, false)
      else if seen.inCourseRoom && seen.roomReady && s.joinSent then Outcome(s.(rejoining := false), Restart, false)
      else if !s.joinSent && seen.hasAccount then Outcome(s.(joinSent := true), Nothing, true)
      else Outcome(s, Nothing, false)
  }

  class OnlineSession {
    var rejoining: bool
    var joinSent: bool

    function State(): Session
      reads this
    {
      Session(rejoining, joinSent)
    }

    constructor ()
      ensures State() == START
    {
      rejoining, joinSent := false, false;
    }

    method WatchRound(seen: Seen) returns (report: Report, joins: bool)
      modifies this
      ensures Outcome(State(), report, joins) == Step(old(State()), Frame(seen))
    {
      joins := false;
      if seen.status == SignedOut || seen.status == Failed {
        rejoining := false;
        return Lost, false;
      }
      if seen.status != Connected {
        rejoining, joinSent := true, false;
        return Nothing, false;
      }
      if !rejoining {
        if seen.inCourseRoom {
          return Nothing, false;
        }
        return Lost, false;
      }
      if seen.joinRefused {
        rejoining := false;
        return Lost, false;
      }
      if seen.inCourseRoom && seen.roomReady && joinSent {
        rejoining := false;
        return Restart, false;
      }
      if !joinSent && seen.hasAccount {
        joins := true;
        joinSent := true;
      }
      return Nothing, joins;
    }

    method LeaveRound()
      modifies this
      ensures State() == Step(old(State()), Leave).session
    {
      rejoining := false;
    }
  }

  // ---- What a trace of moments shows ----

  const START := Session(false, false)

  function After(trace: seq<Moment>): Session {
    if trace == [] then START else Step(After(trace[..|trace| - 1]), trace[|trace| - 1]).session
  }

  function At(trace: seq<Moment>, k: nat): Outcome
    requires k < |trace|
  {
    Step(After(trace[..k]), trace[k])
  }

  predicate OutageAt(trace: seq<Moment>, k: nat)
    requires k < |trace|
  {
    trace[k].Frame? && trace[k].seen.status == Connecting
  }

  predicate JoinsAt(trace: seq<Moment>, k: nat)
    requires k < |trace|
  {
    At(trace, k).joins
  }

  /** The round was given up, reported lost, or started over. */
  predicate EndsAt(trace: seq<Moment>, k: nat)
    requires k < |trace|
  {
    trace[k].Leave? || At(trace, k).report != Nothing
  }

  /** An outage at `j`, and since then up to `k` no join and no end. */
  predicate Waiting(trace: seq<Moment>, j: nat, k: nat)
    requires j < k <= |trace|
  {
    OutageAt(trace, j) && forall m | j < m < k :: !JoinsAt(trace, m) && !EndsAt(trace, m)
  }

  /** A join sent at `i`, and since then up to `k` no outage, no join and no end. */
  predicate Asked(trace: seq<Moment>, i: nat, k: nat)
    requires i < k <= |trace|
  {
    JoinsAt(trace, i) && forall m | i < m < k :: !OutageAt(trace, m) && !JoinsAt(trace, m) && !EndsAt(trace, m)
  }

  /** A session rejoining has an outage or a join to show for it. */
  lemma {:induction false} WhyRejoining(trace: seq<Moment>, k: nat) returns (j: nat)
    requires k <= |trace| && After(trace[..k]).rejoining
    ensures j < k && if After(trace[..k]).joinSent then Asked(trace, j, k) else Waiting(trace, j, k)
  {
    assert k > 0;
    assert trace[..k][..k - 1] == trace[..k - 1];
    var before, now := After(trace[..k - 1]), At(trace, k - 1);
    assert After(trace[..k]) == now.session;
    if OutageAt(trace, k - 1) || now.joins {
      j := k - 1;
    } else {
      j := WhyRejoining(trace, k - 1);
    }
  }

  /** Between two joins there is an outage: one outage, at most one join. */
  lemma OneJoinAnOutage(trace: seq<Moment>, i: nat, k: nat)
    requires i < k < |trace| && JoinsAt(trace, i) && JoinsAt(trace, k)
    ensures exists j :: i < j < k && OutageAt(trace, j)
  {
    var j := WhyRejoining(trace, k);
    assert i < j;
  }

  /** Signed in, with nothing refused. */
  predicate BackAt(trace: seq<Moment>, k: nat)
    requires k < |trace|
  {
    trace[k].Frame? && trace[k].seen.status == Connected && !trace[k].seen.joinRefused
  }

  /** What an outage or a join leads to lasts until another, or an end. */
  lemma {:induction false} StillRejoining(trace: seq<Moment>, j: nat, k: nat)
    requires j < k <= |trace|
    ensures Waiting(trace, j, k) ==> After(trace[..k]) == Session(true, false)
    ensures Asked(trace, j, k) ==> After(trace[..k]) == Session(true, true)
  {
    assert trace[..k][..k - 1] == trace[..k - 1];
    assert After(trace[..k]) == At(trace, k - 1).session;
    if j < k - 1 {
      StillRejoining(trace, j, k - 1);
      assert Waiting(trace, j, k) ==> Waiting(trace, j, k - 1) && !JoinsAt(trace, k - 1) && !EndsAt(trace, k - 1);
      assert Asked(trace, j, k) ==> Asked(trace, j, k - 1) && !OutageAt(trace, k - 1) && !EndsAt(trace, k - 1);
    }
  }

  /** A join is sent on exactly the frames back after an outage with no round ended and none joined since. */
  lemma JoinsAfterOutage(trace: seq<Moment>, k: nat)
    requires k < |trace|
    ensures JoinsAt(trace, k) <==> BackAt(trace, k) && trace[k].seen.hasAccount && exists j :: 0 <= j < k && Waiting(trace, j, k)
  {
    if JoinsAt(trace, k) {
      var j := WhyRejoining(trace, k);
    }
    if j :| 0 <= j < k && Waiting(trace, j, k) {
      StillRejoining(trace, j, k);
    }
  }

  /**
    The round starts over on exactly the frames back in a ready room after a join sent on
    an earlier frame, with no outage and no other report since.
  */
  lemma RestartsAfterJoin(trace: seq<Moment>, k: nat)
    requires k < |trace|
    ensures At(trace, k).report == Restart <==>
            BackAt(trace, k) && trace[k].seen.inCourseRoom && trace[k].seen.roomReady && exists i :: 0 <= i < k && Asked(trace, i, k)
  {
    if At(trace, k).report == Restart {
      var i := WhyRejoining(trace, k);
    }
    if i :| 0 <= i < k && Asked(trace, i, k) {
      StillRejoining(trace, i, k);
    }
  }

  /** So between two restarts there is an outage, its join sent before the second. */
  lemma OneRestartAnOutage(trace: seq<Moment>, a: nat, b: nat)
    requires a < b < |trace| && At(trace, a).report == Restart && At(trace, b).report == Restart
    ensures exists j, i :: a < j < i < b && OutageAt(trace, j) && JoinsAt(trace, i)
  {
    var i := WhyRejoining(trace, b);
    assert EndsAt(trace, a);
    var j := WhyRejoining(trace, i);
    assert Waiting(trace, j, i);
    assert i > a && j > a;
  }

  /** After a round is left or lost nothing is joined or started over until the next outage. */
  lemma QuietUntilOutage(trace: seq<Moment>, a: nat, k: nat)
    requires a < k < |trace| && EndsAt(trace, a) && !(exists j :: a < j < k && OutageAt(trace, j))
    ensures !JoinsAt(trace, k) && At(trace, k).report != Restart
  {
    if JoinsAt(trace, k) {
      var j := WhyRejoining(trace, k);
    } else if At(trace, k).report == Restart {
      var i := WhyRejoining(trace, k);
      assert i > a;
      var j := WhyRejoining(trace, i);
    }
  }

  /** An outage or a join of it still open: neither ended nor, after the join, out again. */
  predicate Open(trace: seq<Moment>, k: nat)
    requires k <= |trace|
  {
    exists j :: 0 <= j < k && (Waiting(trace, j, k) || Asked(trace, j, k))
  }

  /**
    A round is lost on exactly the frames signed out or failed, those back after an outage
    whose join was refused, and those connected outside the room with no outage open.
  */
  lemma LostExactly(trace: seq<Moment>, k: nat)
    requires k < |trace|
    ensures At(trace, k).report == Lost <==>
            trace[k].Frame? &&
            var seen := trace[k].seen;
            || seen.status == SignedOut || seen.status == Failed
            || (seen.status == Connected && if Open(trace, k) then seen.joinRefused else !seen.inCourseRoom)
  {
    if After(trace[..k]).rejoining {
      var j := WhyRejoining(trace, k);
    }
    if j :| 0 <= j < k && (Waiting(trace, j, k) || Asked(trace, j, k)) {
      StillRejoining(trace, j, k);
    }
  }
}
