// What the trip operations accept, refuse and write, in terms of the rows alone.
module TripLaws {
  import opened Common
  import opened TripStateMachine
  import opened Trips
  import opened TripRuns

  // ---- The terms ----

  ghost function Wanted(crew: Crew, role: Role): Option<int> {
    if role == Driver then crew.driver else if role == Vehicle then crew.vehicle else crew.guard
  }

  ghost predicate Over(t: Trip) {
    t.status == Completed || t.status == Cancelled || t.status == NoShow || t.status == Failed
  }

  ghost function End(t: Trip): int {
    if t.scheduledEnd.Some? then t.scheduledEnd.value else t.scheduledStart + 7_200_000
  }

  ghost predicate PartyTo(actor: int, t: Trip) {
    t.corporateOrg == actor || t.vendorOrg == Some(actor)
  }

  // Assignment k holds the resource for another trip that is not over, starts before `to` and
  // has no scheduled end up to `from`.
  ghost predicate HeldBy(s: Store, role: Role, x: int, except: int, from: int, to: int, k: int) {
    && 0 <= k < |s.assignments| && s.assignments[k].active
    && Wanted(s.assignments[k].crew, role) == Some(x)
    && s.assignments[k].trip != except && 0 <= s.assignments[k].trip < |s.trips|
    && var t := s.trips[s.assignments[k].trip];
       !Over(t) && t.scheduledStart < to && (t.scheduledEnd.None? || from < t.scheduledEnd.value)
  }

  ghost predicate Held(s: Store, role: Role, x: int, except: int, from: int, to: int) {
    exists k :: HeldBy(s, role, x, except, from, to, k)
  }

  lemma HeldExactlyWhen(s: Store, role: Role, x: int, except: int, from: int, to: int)
    ensures HasConflict(s, role, x, except, from, to) <==> Held(s, role, x, except, from, to)
  {
    forall k | 0 <= k < |s.assignments|
      ensures Conflicts(s, s.assignments[k], role, x, except, from, to) <==> HeldBy(s, role, x, except, from, to, k)
    {
    }
  }

  // ---- Never twice at once ----

  // No two trips under way or to come share a driver, a vehicle or a guard for overlapping times.
  lemma NeverTwiceAtOnce(s: Store, i: int, j: int, role: Role)
    requires Consistent(s) && 0 <= i < |s.assignments| && 0 <= j < |s.assignments|
    requires s.assignments[i].active && s.assignments[j].active && s.assignments[i].trip != s.assignments[j].trip
    requires Wanted(s.assignments[i].crew, role).Some?
    requires Wanted(s.assignments[i].crew, role) == Wanted(s.assignments[j].crew, role)
    requires 0 <= s.assignments[i].trip < |s.trips| && 0 <= s.assignments[j].trip < |s.trips|
    requires !Over(s.trips[s.assignments[i].trip]) && !Over(s.trips[s.assignments[j].trip])
    ensures var t, u := s.trips[s.assignments[i].trip], s.trips[s.assignments[j].trip];
            End(t) <= u.scheduledStart || End(u) <= t.scheduledStart
  {
    assert !DoubleBooked(s, i, j, role);
  }

  // ---- Assigning ----

  ghost predicate Eligible(s: Store, fit: Fitness, id: int, crew: Crew, role: Role)
    requires 0 <= id < |s.trips|
  {
    Wanted(crew, role).Some? ==> fit(role, Wanted(crew, role).value, s.trips[id].vendorOrg, s.trips[id].corporateOrg)
  }

  ghost predicate Free(s: Store, id: int, crew: Crew, role: Role)
    requires 0 <= id < |s.trips|
  {
    Wanted(crew, role).Some? ==>
      !Held(s, role, Wanted(crew, role).value, id, s.trips[id].scheduledStart, End(s.trips[id]))
  }

  // The roles that are looked at before this one are eligible and free.
  ghost predicate Reached(s: Store, fit: Fitness, id: int, crew: Crew, role: Role)
    requires 0 <= id < |s.trips|
  {
    && (role != Driver ==> Eligible(s, fit, id, crew, Driver) && Free(s, id, crew, Driver))
    && (role == Guard ==> Eligible(s, fit, id, crew, Vehicle) && Free(s, id, crew, Vehicle))
  }

  lemma RoleRefusedExactlyWhen(s: Store, fit: Fitness, id: int, crew: Crew, role: Role)
    requires 0 <= id < |s.trips|
    ensures RoleCheck(s, fit, Snapshot(id, s.trips[id]), crew, role)
         == if !Eligible(s, fit, id, crew, role) then Some(NotEligible(role))
            else if !Free(s, id, crew, role) then Some(ResourceConflict(role))
            else None
  {
    if Wanted(crew, role).Some? {
      HeldExactlyWhen(s, role, Wanted(crew, role).value, id, s.trips[id].scheduledStart, End(s.trips[id]));
    }
  }

  // A crew is taken on exactly when the caller is a party and all of it is eligible and free;
  // otherwise the first resource that is not decides the error.
  lemma AssignedExactlyWhen(s: Store, fit: Fitness, actor: int, id: int, crew: Crew)
    ensures !(0 <= id < |s.trips|) <==> Assign(s, fit, actor, id, crew) == Err(TripNotFound)
    ensures 0 <= id < |s.trips| ==>
              && (Assign(s, fit, actor, id, crew) == Err(NotAParty) <==> !PartyTo(actor, s.trips[id]))
              && (Assign(s, fit, actor, id, crew).Ok? <==>
                    PartyTo(actor, s.trips[id]) && forall role :: Eligible(s, fit, id, crew, role) && Free(s, id, crew, role))
              && forall role ::
                   && (Assign(s, fit, actor, id, crew) == Err(NotEligible(role)) <==>
                         && PartyTo(actor, s.trips[id])
                         && Reached(s, fit, id, crew, role) && !Eligible(s, fit, id, crew, role))
                   && (Assign(s, fit, actor, id, crew) == Err(ResourceConflict(role)) <==>
                         && PartyTo(actor, s.trips[id])
                         && Reached(s, fit, id, crew, role) && Eligible(s, fit, id, crew, role) && !Free(s, id, crew, role))
  {
    if 0 <= id < |s.trips| {
      RoleRefusedExactlyWhen(s, fit, id, crew, Driver);
      RoleRefusedExactlyWhen(s, fit, id, crew, Vehicle);
      RoleRefusedExactlyWhen(s, fit, id, crew, Guard);
      hide RoleCheck, Eligible, Free, CanTransition;
    }
  }

  // An accepted crew replaces the trip's earlier ones, for good; the trip moves on only from
  // where resources are awaited; and the call is logged either way.
  lemma AssignedRows(s: Store, fit: Fitness, actor: int, id: int, crew: Crew)
    requires Assign(s, fit, actor, id, crew).Ok?
    ensures 0 <= id < |s.trips|
    ensures var s', n, t := Assign(s, fit, actor, id, crew).value, |s.assignments|, s.trips[id];
            && |s'.assignments| == n + 1
            && s'.assignments[n].trip == id && s'.assignments[n].active && s'.assignments[n].crew == crew
            && (forall k | 0 <= k < n :: s'.assignments[k] ==
                  if s.assignments[k].trip == id then s.assignments[k].(active := false) else s.assignments[k])
            && s'.trips == (if t.status == Scheduled || t.status == Reassigning
                            then s.trips[id := t.(status := ResourcesAssigned, version := t.version + 1)] else s.trips)
            && s'.events == s.events + [TripEvent(id, ResourcesAssignedEvent)]
  {
    EnteredExactlyFrom(s.trips[id].status, ResourcesAssigned);
    hide CanTransition, AssignCheck;
  }

  // Other services' entries are kept in the log and change nothing else.
  lemma OtherLogged(s: Store, id: int, name: string)
    requires 0 <= id < |s.trips|
    ensures LogOther(s, id, name).events == s.events + [TripEvent(id, OtherEvent(name))]
    ensures LogOther(s, id, name).trips == s.trips && LogOther(s, id, name).assignments == s.assignments
  {
  }

  // ---- Whoever was assigned was eligible then ----

  // The call gave this crew to this trip, and each of them was eligible for its vendor and
  // corporate.
  ghost predicate MadeBy(step: Step, a: Assignment, t: Trip) {
    && step.AssignStep? && step.id == a.trip && step.crew == a.crew && PartyTo(step.actor, t)
    && forall role | Wanted(a.crew, role).Some? :: step.fit(role, Wanted(a.crew, role).value, t.vendorOrg, t.corporateOrg)
  }

  // What no operation ever changes.
  ghost predicate SameOrigins(s: Store, s': Store) {
    && |s.trips| <= |s'.trips| && |s.assignments| <= |s'.assignments|
    && (forall k | 0 <= k < |s.trips| ::
          s'.trips[k].vendorOrg == s.trips[k].vendorOrg && s'.trips[k].corporateOrg == s.trips[k].corporateOrg)
    && (forall k | 0 <= k < |s.assignments| ::
          s'.assignments[k].trip == s.assignments[k].trip && s'.assignments[k].crew == s.assignments[k].crew)
  }

  lemma StepOrigins(s: Store, step: Step)
    ensures var s' := Apply(s, step);
            && SameOrigins(s, s') && |s'.assignments| <= |s.assignments| + 1
            && (|s'.assignments| > |s.assignments| ==>
                  && 0 <= Last(s'.assignments).trip < |s'.trips|
                  && MadeBy(step, Last(s'.assignments), s'.trips[Last(s'.assignments).trip]))
  {
    if step.AssignStep? {
      AssignedExactlyWhen(s, step.fit, step.actor, step.id, step.crew);
      hide AssignCheck, CanTransition;
      if Assign(s, step.fit, step.actor, step.id, step.crew).Ok? {
        assert forall role :: Eligible(s, step.fit, step.id, step.crew, role);
      }
    }
  }

  ghost predicate WasMade(steps: seq<Step>, a: Assignment, t: Trip) {
    exists j :: 0 <= j < |steps| && MadeBy(steps[j], a, t)
  }

  lemma {:induction false} EveryAssignmentWasFit(s: Store, steps: seq<Step>)
    ensures SameOrigins(s, Run(s, steps))
    ensures forall k | |s.assignments| <= k < |Run(s, steps).assignments| ::
              var a := Run(s, steps).assignments[k];
              0 <= a.trip < |Run(s, steps).trips| && WasMade(steps, a, Run(s, steps).trips[a.trip])
    decreases |steps|
  {
    if steps != [] {
      var s1, s' := Apply(s, steps[0]), Run(s, steps);
      StepOrigins(s, steps[0]);
      EveryAssignmentWasFit(s1, steps[1..]);
      hide Apply, Run;
      forall k | |s.assignments| <= k < |s'.assignments|
        ensures 0 <= s'.assignments[k].trip < |s'.trips| && WasMade(steps, s'.assignments[k], s'.trips[s'.assignments[k].trip])
      {
        var a := s'.assignments[k];
        if k < |s1.assignments| {
          assert MadeBy(steps[0], a, s'.trips[a.trip]);
        } else {
          assert WasMade(steps[1..], a, s'.trips[a.trip]);
          var j :| 0 <= j < |steps| - 1 && MadeBy(steps[1..][j], a, s'.trips[a.trip]);
          assert MadeBy(steps[j + 1], a, s'.trips[a.trip]);
        }
      }
    }
  }

  // ---- Moving ----

  lemma MovedExactlyWhen(s: Store, actor: int, id: int, to: Status, now: int)
    ensures Transition(s, actor, id, to, now) == Err(TripNotFound) <==> !(0 <= id < |s.trips|)
    ensures 0 <= id < |s.trips| ==>
              && (Transition(s, actor, id, to, now) == Err(NotAParty) <==> !PartyTo(actor, s.trips[id]))
              && (Transition(s, actor, id, to, now) == Err(InvalidTransition) <==>
                    PartyTo(actor, s.trips[id]) && !CanTransition(s.trips[id].status, to))
              && (Transition(s, actor, id, to, now).Ok? <==>
                    PartyTo(actor, s.trips[id]) && CanTransition(s.trips[id].status, to))
  {
    hide CanTransition;
  }

  // ---- Creating ----

  lemma {:induction false} DuplicatesShrink(e: seq<int>)
    ensures |ElementsOf(e)| <= |e|
    ensures |ElementsOf(e)| == |e| <==> NoDuplicates(e)
  {
    if e != [] {
      var init, last := e[..|e| - 1], Last(e);
      DuplicatesShrink(init);
      assert ElementsOf(e) == ElementsOf(init) + {last};
      assert NoDuplicates(e) <==> NoDuplicates(init) && last !in init by {
        if last in init {
          var k :| 0 <= k < |init| && init[k] == last;
          assert e[k] == e[|e| - 1];
        }
        if NoDuplicates(e) { assert forall i, j | 0 <= i < j < |init| :: e[i] != e[j]; }
      }
    }
  }

  // A trip is made exactly when everybody on it is known, named once and the caller's own.
  lemma CreatedExactlyWhen(s: Store, directory: Directory, actor: int, input: NewTrip)
    ensures CreateTrip(s, directory, actor, input) == Err(EmployeesNotFound) <==>
              !NoDuplicates(input.employees) || exists e :: e in input.employees && e !in directory
    ensures CreateTrip(s, directory, actor, input) == Err(ForeignEmployee) <==>
              && NoDuplicates(input.employees) && (forall e :: e in input.employees ==> e in directory)
              && exists e :: e in input.employees && e in directory && directory[e] != actor
    ensures CreateTrip(s, directory, actor, input).Ok? <==>
              && NoDuplicates(input.employees)
              && forall e :: e in input.employees ==> e in directory && directory[e] == actor
    ensures CreateTrip(s, directory, actor, input).Ok? ==>
              var s' := CreateTrip(s, directory, actor, input).value;
              && |s'.trips| == |s.trips| + 1 && s'.trips[..|s.trips|] == s.trips && s'.assignments == s.assignments
              && Last(s'.trips).corporateOrg == actor && Last(s'.trips).vendorOrg == input.vendorOrg
              && Last(s'.trips).contract == input.contract && Last(s'.trips).plan == input.plan
              && Last(s'.trips).employees == input.employees
              && Last(s'.trips).scheduledStart == input.scheduledStart && Last(s'.trips).scheduledEnd == input.scheduledEnd
              && Last(s'.trips).status == Created && Last(s'.trips).version == 1
              && Last(s'.trips).actualStart == None && Last(s'.trips).actualEnd == None
  {
    var all := ElementsOf(input.employees);
    var found := set e | e in input.employees && e in directory;
    DuplicatesShrink(input.employees);
    SubsetSize(found, all);
    if exists e :: e in input.employees && e !in directory {
      var e :| e in input.employees && e !in directory;
      SubsetSize(found + {e}, all);
    } else {
      assert found == all;
    }
  }
}
