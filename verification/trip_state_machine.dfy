// The trip state machine: a constant table of edges and two lookups.
module TripStateMachine {
  import opened Common

  datatype Status =
    | Created
    | Scheduled
    | ResourcesAssigned
    | DriverAccepted
    | EnRouteToFirstPickup
    | Running
    | Completed
    | Cancelled
    | NoShow
    | Breakdown
    | SosActive
    | Paused
    | Reassigning
    | Failed

  function Transitions(s: Status): seq<Status> {
    match s
    case Created => [Scheduled, Cancelled, Failed]
    case Scheduled => [ResourcesAssigned, Cancelled, Failed]
    case ResourcesAssigned => [DriverAccepted, Reassigning, Cancelled, Failed]
    case DriverAccepted => [EnRouteToFirstPickup, Reassigning, Cancelled, Failed]
    case EnRouteToFirstPickup => [Running, NoShow, Breakdown, SosActive, Cancelled]
    case Running => [Completed, NoShow, Breakdown, SosActive, Paused, Cancelled]
    case Paused => [Running, Breakdown, SosActive, Cancelled]
    case Reassigning => [ResourcesAssigned, Cancelled, Failed]
    case Breakdown => [Reassigning, Cancelled]
    case SosActive => [Running, Cancelled]
    case Completed => []
    case Cancelled => []
    case NoShow => []
    case Failed => []
  }

  predicate CanTransition(from: Status, to: Status) {
    to in Transitions(from)
  }

  predicate IsTerminal(s: Status) {
    |Transitions(s)| == 0
  }

  lemma EdgeFacts(from: Status, to: Status)
    requires CanTransition(from, to)
    ensures !IsTerminal(from) && to != Created
    ensures to == Completed ==> from == Running
  {
  }

  // The table read the other way round: where each status can be entered from.
  lemma EnteredExactlyFrom(from: Status, to: Status)
    ensures CanTransition(from, to) <==>
              match to
              case Created => false
              case Scheduled => from == Created
              case ResourcesAssigned => from == Scheduled || from == Reassigning
              case DriverAccepted => from == ResourcesAssigned
              case EnRouteToFirstPickup => from == DriverAccepted
              case Running => from == EnRouteToFirstPickup || from == Paused || from == SosActive
              case Completed => from == Running
              case Cancelled => from != Completed && from != Cancelled && from != NoShow && from != Failed
              case NoShow => from == EnRouteToFirstPickup || from == Running
              case Breakdown => from == EnRouteToFirstPickup || from == Running || from == Paused
              case SosActive => from == EnRouteToFirstPickup || from == Running || from == Paused
              case Paused => from == Running
              case Reassigning => from == ResourcesAssigned || from == DriverAccepted || from == Breakdown
              case Failed =>
                from == Created || from == Scheduled || from == ResourcesAssigned || from == DriverAccepted || from == Reassigning
  {
  }

  // A status history: every status follows from the one before it by an edge of the table.
  ghost predicate IsPath(p: seq<Status>) {
    forall k | 0 < k < |p| :: CanTransition(p[k - 1], p[k])
  }

  lemma NextIsEdge(p: seq<Status>, k: int)
    requires IsPath(p) && 0 <= k < |p| - 1
    ensures CanTransition(p[k], p[k + 1])
  {
    assert CanTransition(p[(k + 1) - 1], p[k + 1]);
  }

  // Nothing follows a terminal status.
  lemma TerminalIsLast(p: seq<Status>, k: int)
    requires IsPath(p) && 0 <= k < |p| && IsTerminal(p[k])
    ensures k == |p| - 1
  {
    if k < |p| - 1 { NextIsEdge(p, k); }
  }

  // ---- Milestones ----

  // The two journeys a completed trip has to make: from its creation, and again after every
  // breakdown.
  datatype Journey = FromCreation | AfterBreakdown

  function Start(journey: Journey): Status {
    if journey.FromCreation? then Created else Breakdown
  }

  function Milestones(journey: Journey): (r: seq<Status>)
    ensures |r| == 6
  {
    [if journey.FromCreation? then Scheduled else Reassigning]
    + [ResourcesAssigned, DriverAccepted, EnRouteToFirstPickup, Running, Completed]
  }

  // How many milestones a trip in this status must have passed since the journey began.
  // (Nothing leads from a breakdown back to Created or Scheduled.)
  function Progress(journey: Journey, s: Status): nat {
    match s
    case Created => if journey.FromCreation? then 0 else 6
    case Scheduled => if journey.FromCreation? then 1 else 6
    case Reassigning => if journey.FromCreation? then 2 else 1
    case ResourcesAssigned => 2
    case DriverAccepted => 3
    case EnRouteToFirstPickup => 4
    case SosActive => 4
    case Breakdown => if journey.FromCreation? then 4 else 0
    case Running => 5
    case Paused => 5
    case Completed => 6
    case _ => 0
  }

  // `at` are the positions, one after the other, of the first |at| milestones within p.
  ghost predicate Passes(journey: Journey, p: seq<Status>, at: seq<int>) {
    && |at| <= 6
    && (forall m | 0 <= m < |at| :: 0 <= at[m] < |p| && p[at[m]] == Milestones(journey)[m])
    && (forall m, m' | 0 <= m < m' < |at| :: at[m] < at[m'])
  }

  // One edge passes at most the next milestone, and only by entering it.
  lemma EdgeProgress(journey: Journey, from: Status, to: Status)
    requires CanTransition(from, to)
    ensures || Progress(journey, to) <= Progress(journey, from)
            || (Progress(journey, to) == Progress(journey, from) + 1
                && to == Milestones(journey)[Progress(journey, from)])
  {
  }

  lemma ProgressBounds(journey: Journey, s: Status)
    ensures Progress(journey, s) <= 6 && Progress(journey, Start(journey)) == 0
  {
  }

  lemma StillPassed(journey: Journey, p: seq<Status>, next: Status, at: seq<int>, n: nat)
    requires Passes(journey, p, at) && n <= |at|
    ensures Passes(journey, p + [next], at[..n])
  {
    hide Milestones;
  }

  lemma OneMorePassed(journey: Journey, p: seq<Status>, next: Status, at: seq<int>)
    requires Passes(journey, p, at) && |at| < 6 && next == Milestones(journey)[|at|]
    ensures Passes(journey, p + [next], at + [|p|])
  {
    hide Milestones;
  }

  // What the path has passed before its last edge, and that edge, give what it has passed now.
  lemma PassedOnward(journey: Journey, p: seq<Status>, next: Status, before: seq<int>) returns (at: seq<int>)
    requires p != [] && Passes(journey, p, before) && |before| == Progress(journey, Last(p))
    requires CanTransition(Last(p), next)
    ensures Passes(journey, p + [next], at) && |at| == Progress(journey, next)
  {
    EdgeProgress(journey, Last(p), next);
    ProgressBounds(journey, next);
    hide CanTransition, Progress, Milestones, Passes;
    var now := Progress(journey, next);
    if now <= |before| {
      at := before[..now];
      StillPassed(journey, p, next, before, now);
    } else {
      at := before + [|p|];
      OneMorePassed(journey, p, next, before);
    }
  }

  lemma {:induction false} MilestonesPassed(journey: Journey, p: seq<Status>) returns (at: seq<int>)
    requires p != [] && IsPath(p) && p[0] == Start(journey)
    ensures Passes(journey, p, at) && |at| == Progress(journey, p[|p| - 1])
  {
    hide CanTransition, Progress, Milestones, Start, Passes;
    if |p| == 1 {
      at := [];
      ProgressBounds(journey, p[0]);
      NothingPassed(journey, p);
    } else {
      var init := p[..|p| - 1];
      var before := MilestonesPassed(journey, init);
      NextIsEdge(p, |p| - 2);
      assert p == init + [Last(p)];
      at := PassedOnward(journey, init, Last(p), before);
    }
  }

  lemma NothingPassed(journey: Journey, p: seq<Status>)
    ensures Passes(journey, p, [])
  {
  }

  ghost predicate FirstVisit(p: seq<Status>, s: Status, k: int) {
    0 <= k < |p| && p[k] == s && s !in p[..k]
  }

  // A milestone is entered for the first time only after the one before it was.
  lemma EarlierMilestoneFirst(p: seq<Status>, m: nat, late: int) returns (early: int)
    requires IsPath(p) && p != [] && p[0] == Created
    requires m < 5 && FirstVisit(p, Milestones(FromCreation)[m + 1], late)
    ensures early < late && FirstVisit(p, Milestones(FromCreation)[m], early)
  {
    var at := MilestonesPassed(FromCreation, p[..late + 1]);
    assert p[..late + 1][at[m]] == Milestones(FromCreation)[m];
    assert at[m] < at[m + 1] <= late;
    early := FirstOf(p, Milestones(FromCreation)[m], at[m]);
  }

  lemma {:induction false} FirstOf(p: seq<Status>, s: Status, k: int) returns (first: int)
    requires 0 <= k < |p| && p[k] == s
    ensures first <= k && FirstVisit(p, s, first)
  {
    if s in p[..k] {
      var j :| 0 <= j < k && p[..k][j] == s;
      first := FirstOf(p, s, j);
    } else {
      first := k;
    }
  }

  // After each breakdown a completed trip went from reassignment through the whole chain again.
  lemma RecoveredAfterBreakdown(p: seq<Status>, b: int) returns (at: seq<int>)
    requires IsPath(p) && 0 <= b < |p| && p[b] == Breakdown && p[|p| - 1] == Completed
    ensures Passes(AfterBreakdown, p, at) && |at| == 6 && at[0] > b
  {
    var tail := p[b..];
    assert forall k | 0 <= k < |tail| :: tail[k] == p[b + k];
    var inTail := MilestonesPassed(AfterBreakdown, tail);
    at := seq(6, m requires 0 <= m < 6 => b + inTail[m]);
    assert forall m | 0 <= m < 6 :: p[at[m]] == tail[inTail[m]];
    assert tail[0] == Breakdown && tail[inTail[0]] == Reassigning;
  }
}
