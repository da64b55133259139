// Safety of trips over whole runs of service calls.
module TripRuns {
  import opened Common
  import opened TripStateMachine
  import opened Trips

  // ---- Each operation keeps the store consistent ----

  lemma {:induction false} NoTrailYet(events: seq<TripEvent>, id: int)
    requires forall k | 0 <= k < |events| :: events[k].trip != id
    ensures Trail(events, id) == []
  {
    if events != [] {
      NoTrailYet(events[..|events| - 1], id);
    }
  }

  // Moving rows along the state machine without touching windows cannot create a double booking.
  ghost predicate MovesOn(s: Store, s': Store) {
    && |s.trips| <= |s'.trips|
    && forall id | 0 <= id < |s.trips| ::
         && s'.trips[id].scheduledStart == s.trips[id].scheduledStart
         && s'.trips[id].scheduledEnd == s.trips[id].scheduledEnd
         && (s'.trips[id].Live() ==> s.trips[id].Live())
  }

  lemma MovingOnKeepsBookings(s: Store, s': Store)
    requires Referenced(s) && Referenced(s') && NoDoubleBooking(s)
    requires MovesOn(s, s') && s'.assignments == s.assignments
    ensures NoDoubleBooking(s')
  {
    forall i, j, role | 0 <= i < |s'.assignments| && 0 <= j < |s'.assignments|
      ensures !DoubleBooked(s', i, j, role)
    {
      assert !DoubleBooked(s, i, j, role);
    }
  }

  lemma CreateKeeps(s: Store, directory: Directory, actor: int, input: NewTrip)
    requires Consistent(s) && CreateTrip(s, directory, actor, input).Ok?
    ensures Consistent(CreateTrip(s, directory, actor, input).value)
  {
    var s' := CreateTrip(s, directory, actor, input).value;
    MovingOnKeepsBookings(s, s');
    forall id | 0 <= id < |s'.trips| ensures RowMatchesTrail(s'.trips[id], Trail(s'.events, id)) {
      TrailPush(s.events, Last(s'.events), id);
      if id == |s.trips| { NoTrailYet(s.events, id); }
      else { assert RowMatchesTrail(s.trips[id], Trail(s.events, id)); }
    }
  }

  // One row moves along an edge, and the log says so.
  lemma TransitionOutcome(s: Store, actor: int, id: int, to: Status, now: int)
    requires Transition(s, actor, id, to, now).Ok?
    ensures 0 <= id < |s.trips| && CanTransition(s.trips[id].status, to)
    ensures var s', t := Transition(s, actor, id, to, now).value, s.trips[id];
            && s'.assignments == s.assignments
            && s'.events == s.events + [TripEvent(id, StatusSet(to))]
            && s'.trips == s.trips[id := t.(
                 status := to, version := t.version + 1,
                 actualStart := if to == Running && t.actualStart.None? then Some(now) else t.actualStart,
                 actualEnd := if to == Completed then Some(now) else t.actualEnd)]
  {
    hide CanTransition;
  }

  lemma RowMoves(t: Trip, trail: seq<Status>, t': Trip, to: Status)
    requires RowMatchesTrail(t, trail) && CanTransition(t.status, to)
    requires t'.status == to && t'.version == t.version + 1
    requires t'.actualStart.Some? <==> t.actualStart.Some? || to == Running
    requires t'.actualEnd.Some? <==> t.actualEnd.Some? || to == Completed
    ensures RowMatchesTrail(t', trail + [to])
  {
    hide CanTransition;
  }

  lemma TransitionReplays(s: Store, actor: int, id: int, to: Status, now: int, i: int)
    requires LogReplays(s) && Transition(s, actor, id, to, now).Ok? && 0 <= i < |s.trips|
    ensures var s' := Transition(s, actor, id, to, now).value;
            |s'.trips| == |s.trips| && RowMatchesTrail(s'.trips[i], Trail(s'.events, i))
  {
    TransitionOutcome(s, actor, id, to, now);
    TrailPush(s.events, TripEvent(id, StatusSet(to)), i);
    assert RowMatchesTrail(s.trips[i], Trail(s.events, i));
    hide Transition, CanTransition, Trail, RowMatchesTrail;
    if i == id { RowMoves(s.trips[i], Trail(s.events, i), Transition(s, actor, id, to, now).value.trips[i], to); }
  }

  lemma TransitionMoves(s: Store, actor: int, id: int, to: Status, now: int)
    requires Referenced(s) && Transition(s, actor, id, to, now).Ok?
    ensures var s' := Transition(s, actor, id, to, now).value;
            Referenced(s') && MovesOn(s, s') && s'.assignments == s.assignments
  {
    TransitionOutcome(s, actor, id, to, now);
    EdgeFacts(s.trips[id].status, to);
    hide Transition, CanTransition, IsTerminal;
  }

  lemma TransitionKeeps(s: Store, actor: int, id: int, to: Status, now: int)
    requires Consistent(s) && Transition(s, actor, id, to, now).Ok?
    ensures Consistent(Transition(s, actor, id, to, now).value)
  {
    var s' := Transition(s, actor, id, to, now).value;
    TransitionMoves(s, actor, id, to, now);
    hide Transition, CanTransition, IsTerminal, RowMatchesTrail, NoDoubleBooking, Trail;
    MovingOnKeepsBookings(s, s');
    hide MovesOn;
    TransitionOutcome(s, actor, id, to, now);
    forall i | 0 <= i < |s'.trips| ensures RowMatchesTrail(s'.trips[i], Trail(s'.events, i)) {
      TransitionReplays(s, actor, id, to, now, i);
    }
  }

  lemma LogOtherKeeps(s: Store, id: int, name: string)
    requires Consistent(s)
    ensures Consistent(LogOther(s, id, name))
  {
    var s' := LogOther(s, id, name);
    if s' != s {
      MovingOnKeepsBookings(s, s');
      forall i | 0 <= i < |s'.trips| ensures RowMatchesTrail(s'.trips[i], Trail(s'.events, i)) {
        TrailPush(s.events, Last(s'.events), i);
        assert RowMatchesTrail(s.trips[i], Trail(s.events, i));
      }
    }
  }

  // A request that passed its check overlaps no other live trip of any of its resources.
  lemma CheckedCrewIsFree(s: Store, fit: Fitness, actor: int, id: int, crew: Crew, k: int, role: Role)
    requires Referenced(s) && AssignCheck(s, fit, actor, id, crew).Ok?
    requires 0 <= k < |s.assignments| && s.assignments[k].active && s.assignments[k].trip != id
    requires crew.Holder(role).Some? && s.assignments[k].crew.Holder(role) == crew.Holder(role)
    requires s.trips[s.assignments[k].trip].Live()
    ensures !Overlap(s.trips[s.assignments[k].trip], s.trips[id])
  {
    var snap := AssignCheck(s, fit, actor, id, crew).value;
    assert RoleCheck(s, fit, snap, crew, role).None?;
    IgnoredExactlyTerminal(s.trips[s.assignments[k].trip].status);
    assert !Conflicts(s, s.assignments[k], role, crew.Holder(role).value, id,
                      snap.row.scheduledStart, snap.row.WindowEnd());
  }

  // Windows stay, no trip comes back to life, and only the new assignment is added.
  lemma AssignMoves(s: Store, fit: Fitness, actor: int, id: int, crew: Crew)
    requires Referenced(s) && Assign(s, fit, actor, id, crew).Ok?
    ensures var s' := Assign(s, fit, actor, id, crew).value;
            && Referenced(s') && MovesOn(s, s') && |s'.trips| == |s.trips| && 0 <= id < |s.trips|
            && s'.assignments == Superseded(s.assignments, id) + [Assignment(id, crew, true)]
  {
    if CanTransition(s.trips[id].status, ResourcesAssigned) { EdgeFacts(s.trips[id].status, ResourcesAssigned); }
    hide CanTransition, IsTerminal;
  }

  lemma NewPairFree(s: Store, fit: Fitness, actor: int, id: int, crew: Crew, i: int, j: int, role: Role)
    requires Consistent(s) && Assign(s, fit, actor, id, crew).Ok?
    requires var s' := Assign(s, fit, actor, id, crew).value;
             Referenced(s') && 0 <= i < |s'.assignments| && 0 <= j < |s'.assignments|
    ensures !DoubleBooked(Assign(s, fit, actor, id, crew).value, i, j, role)
  {
    var s' := Assign(s, fit, actor, id, crew).value;
    var last := |s.assignments|;
    AssignMoves(s, fit, actor, id, crew);
    hide AssignCheck, AssignCommit, LogReplays, IsTerminal;
    if i < last && j < last {
      assert !DoubleBooked(s, i, j, role);
    } else if DoubleBooked(s', i, j, role) {
      CheckedCrewIsFree(s, fit, actor, id, crew, if i < last then i else j, role);
    }
  }

  lemma AssignKeepsBookings(s: Store, fit: Fitness, actor: int, id: int, crew: Crew)
    requires Consistent(s) && Assign(s, fit, actor, id, crew).Ok?
    ensures Referenced(Assign(s, fit, actor, id, crew).value)
    ensures OneActive(Assign(s, fit, actor, id, crew).value)
    ensures NoDoubleBooking(Assign(s, fit, actor, id, crew).value)
  {
    var s' := Assign(s, fit, actor, id, crew).value;
    forall i, j, role | 0 <= i < |s'.assignments| && 0 <= j < |s'.assignments|
      ensures !DoubleBooked(s', i, j, role)
    {
      NewPairFree(s, fit, actor, id, crew, i, j, role);
    }
  }

  lemma AssignReplays(s: Store, fit: Fitness, actor: int, id: int, crew: Crew, i: int)
    requires LogReplays(s) && Assign(s, fit, actor, id, crew).Ok? && 0 <= i < |s.trips|
    ensures var s' := Assign(s, fit, actor, id, crew).value;
            |s'.trips| == |s.trips| && RowMatchesTrail(s'.trips[i], Trail(s'.events, i))
  {
    hide CanTransition;
    TrailPush(s.events, TripEvent(id, ResourcesAssignedEvent), i);
    assert RowMatchesTrail(s.trips[i], Trail(s.events, i));
    hide Trail;
  }

  lemma AssignKeeps(s: Store, fit: Fitness, actor: int, id: int, crew: Crew)
    requires Consistent(s) && Assign(s, fit, actor, id, crew).Ok?
    ensures Consistent(Assign(s, fit, actor, id, crew).value)
  {
    hide RowMatchesTrail, CanTransition, NoDoubleBooking;
    var s' := Assign(s, fit, actor, id, crew).value;
    assert |s'.trips| == |s.trips|;
    hide Assign;
    AssignKeepsBookings(s, fit, actor, id, crew);
    forall i | 0 <= i < |s'.trips| ensures RowMatchesTrail(s'.trips[i], Trail(s'.events, i)) {
      AssignReplays(s, fit, actor, id, crew, i);
    }
  }

  // ---- Whole runs ----

  datatype Step =
    | CreateStep(directory: Directory, actor: int, input: NewTrip)
    | TransitionStep(actor: int, id: int, to: Status, now: int)
    | AssignStep(fit: Fitness, actor: int, id: int, crew: Crew)
    | LogStep(id: int, name: string)

  // A call that fails leaves the store as it was.
  function OrUnchanged(s: Store, r: Result<Store, Error>): Store {
    if r.Ok? then r.value else s
  }

  function Apply(s: Store, step: Step): Store {
    match step
    case CreateStep(directory, actor, input) => OrUnchanged(s, CreateTrip(s, directory, actor, input))
    case TransitionStep(actor, id, to, now) => OrUnchanged(s, Transition(s, actor, id, to, now))
    case AssignStep(fit, actor, id, crew) => OrUnchanged(s, Assign(s, fit, actor, id, crew))
    case LogStep(id, name) => LogOther(s, id, name)
  }

  function Run(s: Store, steps: seq<Step>): Store
    decreases |steps|
  {
    if steps == [] then s else Run(Apply(s, steps[0]), steps[1..])
  }

  const EMPTY := Store([], [], [])

  lemma StepKeeps(s: Store, step: Step)
    requires Consistent(s)
    ensures Consistent(Apply(s, step))
  {
    match step
    case CreateStep(directory, actor, input) =>
      if CreateTrip(s, directory, actor, input).Ok? { CreateKeeps(s, directory, actor, input); }
    case TransitionStep(actor, id, to, now) =>
      if Transition(s, actor, id, to, now).Ok? { TransitionKeeps(s, actor, id, to, now); }
    case AssignStep(fit, actor, id, crew) =>
      if Assign(s, fit, actor, id, crew).Ok? { AssignKeeps(s, fit, actor, id, crew); }
    case LogStep(id, name) => LogOtherKeeps(s, id, name);
  }

  // No run of creations, transitions, assignments and other log entries double-books a
  // resource, leaves two active assignments on a trip, or lets the log disagree with a row.
  lemma {:induction false} RunKeeps(s: Store, steps: seq<Step>)
    requires Consistent(s)
    ensures Consistent(Run(s, steps))
    decreases |steps|
  {
    if steps != [] {
      StepKeeps(s, steps[0]);
      RunKeeps(Apply(s, steps[0]), steps[1..]);
    }
  }

  lemma EveryRunIsSafe(steps: seq<Step>)
    ensures Consistent(Run(EMPTY, steps))
  {
    RunKeeps(EMPTY, steps);
  }

  // ---- What calls made of several steps leave behind ----

  // Some steps lead from one store to the other.
  ghost predicate Reaches(s: Store, s': Store) {
    exists steps :: Run(s, steps) == s'
  }

  lemma {:induction false} RunJoin(s: Store, first: seq<Step>, second: seq<Step>)
    ensures Run(s, first + second) == Run(Run(s, first), second)
    decreases |first|
  {
    if first == [] {
      assert first + second == second;
    } else {
      assert (first + second)[1..] == first[1..] + second;
      RunJoin(Apply(s, first[0]), first[1..], second);
    }
  }

  lemma RunOneMore(s: Store, steps: seq<Step>, step: Step)
    ensures Run(s, steps + [step]) == Apply(Run(s, steps), step)
  {
    RunJoin(s, steps, [step]);
    assert Run(Apply(Run(s, steps), step), [step][1..]) == Apply(Run(s, steps), step);
  }

  lemma ReachesOn(s: Store, s1: Store, s2: Store)
    requires Reaches(s, s1) && Reaches(s1, s2)
    ensures Reaches(s, s2)
  {
    var first :| Run(s, first) == s1;
    var second :| Run(s1, second) == s2;
    RunJoin(s, first, second);
  }

  lemma StepReaches(s: Store, step: Step)
    ensures Reaches(s, s) && Reaches(s, Apply(s, step))
  {
    assert Run(s, []) == s;
    assert Run(Apply(s, step), [step][1..]) == Apply(s, step);
    assert Run(s, [step]) == Apply(s, step);
  }

  lemma ReachedIsConsistent(s: Store, s': Store)
    requires Consistent(s) && Reaches(s, s')
    ensures Consistent(s')
  {
    var steps :| Run(s, steps) == s';
    RunKeeps(s, steps);
  }

  // ---- Histories only grow; a terminal status and a start time are final ----

  ghost predicate Grows(s: Store, s': Store) {
    && |s.trips| <= |s'.trips|
    && forall id | 0 <= id < |s.trips| ::
         && Trail(s.events, id) <= Trail(s'.events, id)
         && (s.trips[id].actualStart.Some? ==> s'.trips[id].actualStart == s.trips[id].actualStart)
  }

  lemma TrailGrows(s: Store, e: TripEvent, id: int)
    requires LogReplays(s) && 0 <= id < |s.trips|
    ensures Trail(s.events, id) <= Trail(s.events + [e], id)
  {
    assert RowMatchesTrail(s.trips[id], Trail(s.events, id));
    TrailPush(s.events, e, id);
  }

  lemma StepGrows(s: Store, step: Step)
    requires Consistent(s)
    ensures Grows(s, Apply(s, step))
  {
    var s' := Apply(s, step);
    hide CanTransition, Trail, RowMatchesTrail;
    forall id | 0 <= id < |s.trips| ensures Trail(s.events, id) <= Trail(s'.events, id) {
      if s'.events != s.events {
        assert s'.events == s.events + [Last(s'.events)];
        TrailGrows(s, Last(s'.events), id);
      }
    }
  }

  lemma {:induction false} RunGrows(s: Store, steps: seq<Step>)
    requires Consistent(s)
    ensures Grows(s, Run(s, steps))
    decreases |steps|
  {
    if steps != [] {
      var s1 := Apply(s, steps[0]);
      StepKeeps(s, steps[0]);
      StepGrows(s, steps[0]);
      RunGrows(s1, steps[1..]);
      forall id | 0 <= id < |s.trips| ensures Trail(s.events, id) <= Trail(Run(s, steps).events, id) {
        assert Trail(s.events, id) <= Trail(s1.events, id) <= Trail(Run(s1, steps[1..]).events, id);
      }
    }
  }

  lemma TerminalIsFinal(s: Store, steps: seq<Step>, id: int)
    requires Consistent(s) && 0 <= id < |s.trips| && IsTerminal(s.trips[id].status)
    ensures id < |Run(s, steps).trips|
    ensures Run(s, steps).trips[id].status == s.trips[id].status
    ensures Run(s, steps).trips[id].version == s.trips[id].version
  {
    hide CanTransition, IsTerminal, Trail;
    var s' := Run(s, steps);
    RunGrows(s, steps);
    RunKeeps(s, steps);
    var p, p' := Trail(s.events, id), Trail(s'.events, id);
    assert RowMatchesTrail(s.trips[id], p) && RowMatchesTrail(s'.trips[id], p');
    assert p <= p' && p[|p| - 1] == p'[|p| - 1];
    TerminalIsLast(p', |p| - 1);
  }

  // ---- Milestones of a completed trip ----

  lemma CompletedTripVisited(steps: seq<Step>, id: int, m: nat) returns (early: int, late: int)
    requires 0 <= id < |Run(EMPTY, steps).trips|
    requires Run(EMPTY, steps).trips[id].status == Completed && m < 5
    ensures early < late
    ensures FirstVisit(Trail(Run(EMPTY, steps).events, id), Milestones(FromCreation)[m], early)
    ensures FirstVisit(Trail(Run(EMPTY, steps).events, id), Milestones(FromCreation)[m + 1], late)
  {
    var s := Run(EMPTY, steps);
    var p := Trail(s.events, id);
    EveryRunIsSafe(steps);
    assert RowMatchesTrail(s.trips[id], p);
    late := VisitedFrom(p, m + 1);
    early := EarlierMilestoneFirst(p, m, late);
  }

  lemma {:induction false} VisitedFrom(p: seq<Status>, m: nat) returns (k: int)
    requires IsPath(p) && p != [] && p[0] == Created && Last(p) == Completed && m <= 5
    ensures FirstVisit(p, Milestones(FromCreation)[m], k)
    decreases 5 - m
  {
    if m == 5 {
      k := FirstOf(p, Completed, |p| - 1);
    } else {
      var later := VisitedFrom(p, m + 1);
      k := EarlierMilestoneFirst(p, m, later);
    }
  }

  lemma CompletedTripRecovered(steps: seq<Step>, id: int, b: int) returns (at: seq<int>)
    requires 0 <= id < |Run(EMPTY, steps).trips|
    requires Run(EMPTY, steps).trips[id].status == Completed
    requires 0 <= b < |Trail(Run(EMPTY, steps).events, id)| && Trail(Run(EMPTY, steps).events, id)[b] == Breakdown
    ensures Passes(AfterBreakdown, Trail(Run(EMPTY, steps).events, id), at) && |at| == 6 && at[0] > b
  {
    var s := Run(EMPTY, steps);
    EveryRunIsSafe(steps);
    assert RowMatchesTrail(s.trips[id], Trail(s.events, id));
    at := RecoveredAfterBreakdown(Trail(s.events, id), b);
  }

  // ---- Start and end times ----

  // With a clock that never runs backwards, no trip ends before it started.
  ghost predicate Timed(s: Store, clock: int) {
    forall id | 0 <= id < |s.trips| ::
      var t := s.trips[id];
      && (t.actualStart.Some? ==> t.actualStart.value <= clock)
      && (t.actualStart.Some? && t.actualEnd.Some? ==> t.actualStart.value <= t.actualEnd.value)
  }

  ghost predicate ClockedFrom(steps: seq<Step>, clock: int) {
    && (forall i | 0 <= i < |steps| && steps[i].TransitionStep? :: clock <= steps[i].now)
    && (forall i, j | 0 <= i < j < |steps| && steps[i].TransitionStep? && steps[j].TransitionStep? ::
          steps[i].now <= steps[j].now)
  }

  lemma {:induction false} RunTimed(s: Store, steps: seq<Step>, clock: int) returns (end: int)
    requires Consistent(s) && Timed(s, clock) && ClockedFrom(steps, clock)
    ensures Timed(Run(s, steps), end)
    decreases |steps|
  {
    if steps == [] {
      end := clock;
    } else {
      var now := if steps[0].TransitionStep? then steps[0].now else clock;
      StepKeeps(s, steps[0]);
      StepTimed(s, steps[0], clock);
      end := RunTimed(Apply(s, steps[0]), steps[1..], now);
    }
  }

  // An end time is only ever recorded on a trip that is over, and one that had started.
  lemma EndedTrips(s: Store, id: int)
    requires Consistent(s) && 0 <= id < |s.trips|
    requires s.trips[id].actualEnd.Some?
    ensures s.trips[id].status == Completed && s.trips[id].actualStart.Some?
  {
    hide CanTransition, Trail;
    var p := Trail(s.events, id);
    assert RowMatchesTrail(s.trips[id], p);
    var k :| 0 <= k < |p| && p[k] == Completed;
    TerminalIsLast(p, k);
    NextIsEdge(p, k - 1);
    EdgeFacts(p[k - 1], Completed);
    assert p[k - 1] in p;
  }

  lemma StepTimed(s: Store, step: Step, clock: int)
    requires Consistent(s) && Timed(s, clock)
    requires step.TransitionStep? ==> clock <= step.now
    ensures Timed(Apply(s, step), if step.TransitionStep? then step.now else clock)
  {
    forall id | 0 <= id < |s.trips| && s.trips[id].actualEnd.Some? ensures IsTerminal(s.trips[id].status) {
      EndedTrips(s, id);
    }
    hide Consistent, AssignCheck;
    if step.TransitionStep? && Transition(s, step.actor, step.id, step.to, step.now).Ok? {
      TransitionOutcome(s, step.actor, step.id, step.to, step.now);
      EdgeFacts(s.trips[step.id].status, step.to);
      hide Transition, CanTransition, IsTerminal;
    }
  }

  lemma EndsAfterStart(steps: seq<Step>, clock: int, id: int)
    requires ClockedFrom(steps, clock)
    requires 0 <= id < |Run(EMPTY, steps).trips| && Run(EMPTY, steps).trips[id].actualEnd.Some?
    ensures var t := Run(EMPTY, steps).trips[id];
            t.actualStart.Some? && t.actualStart.value <= t.actualEnd.value
  {
    EveryRunIsSafe(steps);
    EndedTrips(Run(EMPTY, steps), id);
    var end := RunTimed(EMPTY, steps, clock);
  }
}
