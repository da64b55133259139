// The trip service and the breakdown operations built on it, as a class over the tables.
module TripServices {
  import opened Common
  import opened TripStateMachine
  import opened Trips
  import opened TripRuns

  class TripService {
    var trips: seq<Trip>
    var assignments: seq<Assignment>
    var events: seq<TripEvent>

    ghost function State(): Store
      reads this
    {
      Store(trips, assignments, events)
    }

    // The call did what `expected` says: committed its store, or failed and changed nothing.
    twostate predicate Did(expected: Result<Store, Error>, new error: Option<Error>)
      reads this
    {
      match expected
      case Ok(s) => State() == s && error == None
      case Err(e) => State() == old(State()) && error == Some(e)
    }

    constructor ()
      ensures State() == EMPTY && Consistent(State())
    {
      trips, assignments, events := [], [], [];
    }

    method Create(directory: Directory, actor: int, input: NewTrip) returns (id: int, error: Option<Error>)
      requires Consistent(State())
      modifies this
      ensures Did(CreateTrip(old(State()), directory, actor, input), error)
      ensures id == old(|trips|)
      ensures Consistent(State())
    {
      ghost var before := State();
      id := |trips|;
      var found := set e | e in input.employees && e in directory;
      if |found| != |input.employees| {
        return id, Some(EmployeesNotFound);
      }
      if exists e :: e in found && directory[e] != actor {
        return id, Some(ForeignEmployee);
      }
      var trip := Trip(actor, input.vendorOrg, input.contract, input.plan, input.employees,
                       input.scheduledStart, input.scheduledEnd, None, None, Created, 1);
      trips := trips + [trip];
      events := events + [TripEvent(id, StatusSet(Created))];
      error := None;
      CreateKeeps(before, directory, actor, input);
    }

    method Move(actor: int, id: int, to: Status, now: int) returns (error: Option<Error>)
      requires Consistent(State())
      modifies this
      ensures Did(Transition(old(State()), actor, id, to, now), error)
      ensures Consistent(State())
    {
      ghost var before := State();
      if !(0 <= id < |trips|) { return Some(TripNotFound); }
      var trip := trips[id];
      if !trip.HasParty(actor) { return Some(NotAParty); }
      if !CanTransition(trip.status, to) { return Some(InvalidTransition); }
      var started := if to == Running && trip.actualStart.None? then Some(now) else trip.actualStart;
      var ended := if to == Completed then Some(now) else trip.actualEnd;
      trips := trips[id := trip.(status := to, version := trip.version + 1, actualStart := started, actualEnd := ended)];
      events := events + [TripEvent(id, StatusSet(to))];
      error := None;
      TransitionKeeps(before, actor, id, to, now);
    }

    method CheckRole(fit: Fitness, id: int, crew: Crew, role: Role) returns (error: Option<Error>)
      requires 0 <= id < |trips|
      ensures error == RoleCheck(State(), fit, Snapshot(id, trips[id]), crew, role)
    {
      var holder := crew.Holder(role);
      if holder.None? { return None; }
      var trip := trips[id];
      if !fit(role, holder.value, trip.vendorOrg, trip.corporateOrg) { return Some(NotEligible(role)); }
      var windowStart := trip.scheduledStart;
      var windowEnd := trip.WindowEnd();
      var k := 0;
      while k < |assignments|
        invariant 0 <= k <= |assignments|
        invariant forall j | 0 <= j < k ::
                    !Conflicts(State(), assignments[j], role, holder.value, id, windowStart, windowEnd)
      {
        if Conflicts(Store(trips, assignments, events), assignments[k], role, holder.value, id, windowStart, windowEnd) {
          return Some(ResourceConflict(role));
        }
        k := k + 1;
      }
      error := None;
    }

    // Supersedes whatever was assigned, after checking eligibility and conflicts in turn.
    method AssignCrew(fit: Fitness, actor: int, id: int, crew: Crew) returns (error: Option<Error>)
      requires Consistent(State())
      modifies this
      ensures Did(Assign(old(State()), fit, actor, id, crew), error)
      ensures Consistent(State())
    {
      ghost var before := State();
      if !(0 <= id < |trips|) { return Some(TripNotFound); }
      var trip := trips[id];
      if !trip.HasParty(actor) { return Some(NotAParty); }
      error := CheckRole(fit, id, crew, Driver);
      if error.Some? { return; }
      error := CheckRole(fit, id, crew, Vehicle);
      if error.Some? { return; }
      error := CheckRole(fit, id, crew, Guard);
      if error.Some? { return; }
      assignments := Superseded(assignments, id) + [Assignment(id, crew, true)];
      if CanTransition(trip.status, ResourcesAssigned) {
        trips := trips[id := trip.(status := ResourcesAssigned, version := trip.version + 1)];
      }
      events := events + [TripEvent(id, ResourcesAssignedEvent)];
      AssignKeeps(before, fit, actor, id, crew);
    }

    method ReportBreakdown(actor: int, id: int, now: int) returns (error: Option<Error>)
      requires Consistent(State())
      modifies this
      ensures Did(Transition(old(State()), actor, id, Breakdown, now), error)
      ensures Consistent(State())
    {
      error := Move(actor, id, Breakdown, now);
    }

    // The trip keeps waiting in Reassigning when the replacement crew is turned down.
    method Replace(fit: Fitness, actor: int, id: int, driver: Option<int>, vehicle: Option<int>, now: int)
      returns (error: Option<Error>)
      requires Consistent(State())
      modifies this
      ensures Consistent(State())
      ensures Replacement(State(), error) == Replaced(old(State()), fit, actor, id, Crew(driver, vehicle, None), now)
      ensures Reaches(old(State()), State())
    {
      ReplacedReaches(State(), fit, actor, id, Crew(driver, vehicle, None), now);
      hide Consistent, Transition, Assign, Reaches;
      if !(0 <= id < |trips|) { return Some(TripNotFound); }
      if trips[id].status != Breakdown { return Some(NotInBreakdown); }
      error := Move(actor, id, Reassigning, now);
      if error.Some? { return; }
      error := AssignCrew(fit, actor, id, Crew(driver, vehicle, None));
    }
  }

  datatype Replacement = Replacement(store: Store, error: Option<Error>)

  function Replaced(s: Store, fit: Fitness, actor: int, id: int, crew: Crew, now: int): Replacement {
    if !(0 <= id < |s.trips|) then Replacement(s, Some(TripNotFound))
    else if s.trips[id].status != Breakdown then Replacement(s, Some(NotInBreakdown))
    else
      match Transition(s, actor, id, Reassigning, now)
      case Err(e) => Replacement(s, Some(e))
      case Ok(waiting) =>
        match Assign(waiting, fit, actor, id, crew)
        case Err(e) => Replacement(waiting, Some(e))
        case Ok(replaced) => Replacement(replaced, None)
  }

  // Only a party to a trip in breakdown gets as far as asking for a new crew.
  lemma ReplacementRefusedExactlyWhen(s: Store, fit: Fitness, actor: int, id: int, crew: Crew, now: int)
    ensures var r := Replaced(s, fit, actor, id, crew, now);
            && (r.error == Some(TripNotFound) <==> !(0 <= id < |s.trips|))
            && (r.error == Some(NotInBreakdown) <==> 0 <= id < |s.trips| && s.trips[id].status != Breakdown)
            && (r.error == Some(NotAParty) <==>
                  && 0 <= id < |s.trips| && s.trips[id].status == Breakdown
                  && s.trips[id].corporateOrg != actor && s.trips[id].vendorOrg != Some(actor))
            && (r.error == Some(TripNotFound) || r.error == Some(NotInBreakdown) || r.error == Some(NotAParty) ==> r.store == s)
  {
    assert CanTransition(Breakdown, Reassigning);
    hide CanTransition, RoleCheck;
    if 0 <= id < |s.trips| && s.trips[id].status == Breakdown && Transition(s, actor, id, Reassigning, now).Ok? {
      TransitionOutcome(s, actor, id, Reassigning, now);
      RoleErrors(Transition(s, actor, id, Reassigning, now).value, fit, actor, id, crew);
    }
  }

  lemma RoleErrors(s: Store, fit: Fitness, actor: int, id: int, crew: Crew)
    requires 0 <= id < |s.trips| && s.trips[id].HasParty(actor)
    ensures Assign(s, fit, actor, id, crew).Err? ==>
              Assign(s, fit, actor, id, crew).error.NotEligible? || Assign(s, fit, actor, id, crew).error.ResourceConflict?
  {
    hide CanTransition, HasConflict;
  }

  // A replacement is a run of a transition and an assignment.
  lemma ReplacedReaches(s: Store, fit: Fitness, actor: int, id: int, crew: Crew, now: int)
    ensures Reaches(s, Replaced(s, fit, actor, id, crew, now).store)
  {
    hide Transition, Assign, Reaches;
    var r := Replaced(s, fit, actor, id, crew, now);
    var waiting := Apply(s, TransitionStep(actor, id, Reassigning, now));
    StepReaches(s, TransitionStep(actor, id, Reassigning, now));
    StepReaches(waiting, AssignStep(fit, actor, id, crew));
    ReachesOn(s, waiting, Apply(waiting, AssignStep(fit, actor, id, crew)));
    assert r.store == s || r.store == waiting || r.store == Apply(waiting, AssignStep(fit, actor, id, crew));
  }

  // A replacement takes the trip from its breakdown to its new crew; one that is turned down
  // for its crew leaves the trip waiting, with the old crew still on it.
  lemma ReplacementOutcome(s: Store, fit: Fitness, actor: int, id: int, crew: Crew, now: int)
    requires 0 <= id < |s.trips| && s.trips[id].status == Breakdown && s.trips[id].HasParty(actor)
    ensures var r := Replaced(s, fit, actor, id, crew, now);
            && id < |r.store.trips|
            && (r.error.None? ==>
                  && r.store.trips[id].status == ResourcesAssigned
                  && r.store.trips[id].version == s.trips[id].version + 2
                  && r.store.assignments == Superseded(s.assignments, id) + [Assignment(id, crew, true)])
            && (r.error.Some? ==>
                  && r.store.trips[id].status == Reassigning
                  && r.store.trips[id].version == s.trips[id].version + 1
                  && r.store.assignments == s.assignments)
  {
    assert CanTransition(Breakdown, Reassigning) && CanTransition(Reassigning, ResourcesAssigned);
    var waiting := Transition(s, actor, id, Reassigning, now).value;
    assert waiting.trips[id].status == Reassigning && waiting.trips[id].version == s.trips[id].version + 1;
    hide Transition, RoleCheck;
    assert Replaced(s, fit, actor, id, crew, now).error.None? ==> Assign(waiting, fit, actor, id, crew).Ok?;
  }
}
