// Choosing a vendor, a vehicle, a driver and, where needed, a guard for one group of employees.
module Allocation {
  import opened Common
  import opened TripStateMachine
  import opened Trips
  import opened TripLaws
  import opened Plans
  import Compliance
  import opened Safety

  // A vehicle, driver or guard row: its active vendor relationships, and for vehicles the seats
  // and whether an open maintenance record keeps it off the road.
  datatype Resource = Resource(id: int, active: bool, vendors: set<int>, capacity: Option<int>, blocked: bool)

  datatype Fleet = Fleet(vehicles: seq<Resource>, drivers: seq<Resource>, guards: seq<Resource>)
  {
    function Rows(role: Role): seq<Resource> {
      match role
      case Vehicle => vehicles
      case Driver => drivers
      case Guard => guards
    }
  }

  // Everything one group's search depends on, besides the trips already made.
  datatype Request = Request(
    fit: Fitness, fleet: Fleet, rules: seq<SafetyRule>, corporate: int, seats: int, route: RouteInput, at: int)

  // ---- One candidate ----

  // The availability query of the planner; no trip is exempt from it.
  predicate IsBusy(s: Store, role: Role, id: int, at: int) {
    HasConflict(s, role, id, -1, at, at + DEFAULT_TRIP_WINDOW_MS)
  }

  datatype Verdict = CapacityInsufficient | DocumentsMissing | UnderMaintenance | AlreadyAssigned | Fit

  function Judge(s: Store, q: Request, role: Role, vendor: int, r: Resource): Verdict {
    if role.Vehicle? && (if r.capacity.Some? then r.capacity.value else 0) < q.seats then CapacityInsufficient
    else if !q.fit(role, r.id, Some(vendor), q.corporate) then DocumentsMissing
    else if role.Vehicle? && r.blocked then UnderMaintenance
    else if IsBusy(s, role, r.id, q.at) then AlreadyAssigned
    else Fit
  }

  predicate IsCandidate(vendor: int, r: Resource) {
    r.active && vendor in r.vendors
  }

  // A row of this vendor that passes every check.
  ghost predicate HasFit(s: Store, q: Request, role: Role, vendor: int) {
    exists r :: r in q.fleet.Rows(role) && IsCandidate(vendor, r) && Judge(s, q, role, vendor, r) == Fit
  }

  // The first such row.
  ghost predicate IsFirstFit(s: Store, q: Request, role: Role, vendor: int, picked: Option<Resource>) {
    if picked.None? then !HasFit(s, q, role, vendor)
    else
      exists k :: IsFirstFitAt(s, q, role, vendor, picked.value, k)
  }

  ghost predicate IsFirstFitAt(s: Store, q: Request, role: Role, vendor: int, picked: Resource, k: int) {
    var rows := q.fleet.Rows(role);
    && 0 <= k < |rows| && rows[k] == picked
    && IsCandidate(vendor, picked) && Judge(s, q, role, vendor, picked) == Fit
    && forall j | 0 <= j < k :: !(IsCandidate(vendor, rows[j]) && Judge(s, q, role, vendor, rows[j]) == Fit)
  }

  datatype Evaluation = Evaluation(role: Role, id: int, verdict: Verdict)

  // What the search writes down about these rows, in their order: each unfit candidate with the
  // first check it failed, and the first fit one.
  ghost function LogOf(s: Store, q: Request, role: Role, vendor: int, rows: seq<Resource>): seq<Evaluation> {
    if rows == [] then []
    else
      var init, r := rows[..|rows| - 1], Last(rows);
      LogOf(s, q, role, vendor, init)
      + if IsCandidate(vendor, r) && !(Judge(s, q, role, vendor, r) == Fit && FitAmong(s, q, role, vendor, init, |init|))
        then [Evaluation(role, r.id, Judge(s, q, role, vendor, r))] else []
  }

  ghost predicate FitAmong(s: Store, q: Request, role: Role, vendor: int, rows: seq<Resource>, n: int) {
    exists j :: 0 <= j < n && j < |rows| && IsCandidate(vendor, rows[j]) && Judge(s, q, role, vendor, rows[j]) == Fit
  }

  ghost predicate LoggedAt(s: Store, q: Request, role: Role, vendor: int, rows: seq<Resource>, k: int, e: Evaluation) {
    && 0 <= k < |rows| && IsCandidate(vendor, rows[k])
    && e == Evaluation(role, rows[k].id, Judge(s, q, role, vendor, rows[k]))
    && (e.verdict == Fit ==> !FitAmong(s, q, role, vendor, rows, k))
  }

  // So the log holds nothing but the unfit candidates and the one that is picked.
  lemma {:induction false} LoggedExactlyWhen(s: Store, q: Request, role: Role, vendor: int, rows: seq<Resource>, e: Evaluation)
    ensures e in LogOf(s, q, role, vendor, rows) <==> exists k :: LoggedAt(s, q, role, vendor, rows, k, e)
  {
    hide Judge;
    if rows != [] {
      var init := rows[..|rows| - 1];
      LoggedExactlyWhen(s, q, role, vendor, init, e);
      assert forall k | 0 <= k < |init| :: init[k] == rows[k];
      forall k | 0 <= k <= |init| ensures FitAmong(s, q, role, vendor, rows, k) <==> FitAmong(s, q, role, vendor, init, k) {}
      forall k | 0 <= k < |init| ensures LoggedAt(s, q, role, vendor, rows, k, e) <==> LoggedAt(s, q, role, vendor, init, k, e) {}
      hide FitAmong;
      assert e in LogOf(s, q, role, vendor, rows) <==>
             e in LogOf(s, q, role, vendor, init) || LoggedAt(s, q, role, vendor, rows, |init|, e);
    }
  }

  // Looks at every candidate, even after one has been picked. The log holds each unfit candidate
  // with the first check it failed, and the one that was picked.
  method FindEligible(s: Store, q: Request, role: Role, vendor: int)
    returns (picked: Option<Resource>, evaluations: seq<Evaluation>)
    ensures IsFirstFit(s, q, role, vendor, picked)
    ensures evaluations == LogOf(s, q, role, vendor, q.fleet.Rows(role))
  {
    hide Judge;
    var rows := q.fleet.Rows(role);
    picked, evaluations := None, [];
    ghost var at := -1;
    for k := 0 to |rows|
      invariant picked.None? ==> forall j | 0 <= j < k ::
                  !(IsCandidate(vendor, rows[j]) && Judge(s, q, role, vendor, rows[j]) == Fit)
      invariant picked.Some? ==> at < k && IsFirstFitAt(s, q, role, vendor, picked.value, at)
      invariant evaluations == LogOf(s, q, role, vendor, rows[..k])
    {
      var r := rows[k];
      assert rows[..k + 1][..k] == rows[..k] && Last(rows[..k + 1]) == r;
      assert picked.Some? ==> rows[..k][at] == rows[at];
      if IsCandidate(vendor, r) {
        var verdict := Judge(s, q, role, vendor, r);
        if verdict != Fit {
          evaluations := evaluations + [Evaluation(role, r.id, verdict)];
        } else if picked.None? {
          picked, at := Some(r), k;
          evaluations := evaluations + [Evaluation(role, r.id, Fit)];
        }
      }
    }
    assert rows[..|rows|] == rows;
  }

  // ---- One vendor ----

  datatype Attempt = NothingFree | Refused(kind: ExceptionKind) | Staffed(crew: Crew)

  // A vendor can serve the group when it has a fit vehicle and a fit driver and, should a
  // mandatory guard rule fire, a fit guard; otherwise the route itself must be safe.
  ghost predicate CanServe(s: Store, q: Request, vendor: int) {
    && HasFit(s, q, Vehicle, vendor) && HasFit(s, q, Driver, vendor)
    && (if GuardNeeded(q.rules, q.route) then HasFit(s, q, Guard, vendor) else IsSafe(q.rules, q.route))
  }

  // The exception a vendor causes that had a vehicle and a driver but still cannot serve.
  ghost function Refusal(s: Store, q: Request, vendor: int): Option<ExceptionKind> {
    if CanServe(s, q, vendor) || !HasFit(s, q, Vehicle, vendor) || !HasFit(s, q, Driver, vendor) then None
    else Some(if GuardNeeded(q.rules, q.route) then NoGuardAvailable else SafetyRuleImpossible)
  }

  ghost predicate IsCrewOf(s: Store, q: Request, vendor: int, crew: Crew) {
    && (exists r :: IsFirstFit(s, q, Vehicle, vendor, Some(r)) && crew.vehicle == Some(r.id))
    && (exists r :: IsFirstFit(s, q, Driver, vendor, Some(r)) && crew.driver == Some(r.id))
    && (if GuardNeeded(q.rules, q.route)
        then exists r :: IsFirstFit(s, q, Guard, vendor, Some(r)) && crew.guard == Some(r.id)
        else crew.guard == None)
  }

  lemma FirstFitFits(s: Store, q: Request, role: Role, vendor: int, picked: Option<Resource>)
    requires IsFirstFit(s, q, role, vendor, picked)
    ensures picked.Some? <==> HasFit(s, q, role, vendor)
    ensures picked.Some? ==> picked.value in q.fleet.Rows(role) && Judge(s, q, role, vendor, picked.value) == Fit
  {
    if picked.Some? {
      var k :| IsFirstFitAt(s, q, role, vendor, picked.value, k);
      assert q.fleet.Rows(role)[k] in q.fleet.Rows(role);
    }
  }

  method TryVendor(s: Store, q: Request, vendor: int) returns (attempt: Attempt)
    ensures attempt.Staffed? <==> CanServe(s, q, vendor)
    ensures Refusal(s, q, vendor) == if attempt.Refused? then Some(attempt.kind) else None
    ensures attempt.Staffed? ==> IsCrewOf(s, q, vendor, attempt.crew)
  {
    var vehicle, vehicleLog := FindEligible(s, q, Vehicle, vendor);
    FirstFitFits(s, q, Vehicle, vendor, vehicle);
    if vehicle.None? { return NothingFree; }
    var driver, driverLog := FindEligible(s, q, Driver, vendor);
    FirstFitFits(s, q, Driver, vendor, driver);
    if driver.None? { return NothingFree; }
    var passed, violations := EvaluateRoute(q.rules, q.route);
    if exists v :: v in violations && v.GuardRequired? && v.mandatory {
      var guard, guardLog := FindEligible(s, q, Guard, vendor);
      FirstFitFits(s, q, Guard, vendor, guard);
      if guard.None? { return Refused(NoGuardAvailable); }
      return Staffed(Crew(Some(driver.value.id), Some(vehicle.value.id), Some(guard.value.id)));
    }
    if !passed { return Refused(SafetyRuleImpossible); }
    attempt := Staffed(Crew(Some(driver.value.id), Some(vehicle.value.id), None));
  }

  // ---- The search refines the checks of the trip service ----

  lemma FitIsAccepted(s: Store, s': Store, q: Request, role: Role, vendor: int, r: Resource, trip: Snapshot, crew: Crew)
    requires Judge(s, q, role, vendor, r) == Fit && crew.Holder(role) == Some(r.id)
    requires Referenced(s) && |s.trips| <= |s'.trips| && s'.assignments == s.assignments
    requires forall k | 0 <= k < |s.trips| :: s'.trips[k] == s.trips[k]
    requires trip.row.vendorOrg == Some(vendor) && trip.row.corporateOrg == q.corporate
    requires trip.row.scheduledStart == q.at && trip.row.scheduledEnd == None
    ensures RoleCheck(s', q.fit, trip, crew, role) == None
  {
    assert !HasConflict(s, role, r.id, -1, q.at, q.at + DEFAULT_TRIP_WINDOW_MS);
    if HasConflict(s', role, r.id, trip.id, q.at, q.at + DEFAULT_TRIP_WINDOW_MS) {
      var k :| 0 <= k < |s'.assignments|
        && Conflicts(s', s'.assignments[k], role, r.id, trip.id, q.at, q.at + DEFAULT_TRIP_WINDOW_MS);
      assert Conflicts(s, s.assignments[k], role, r.id, -1, q.at, q.at + DEFAULT_TRIP_WINDOW_MS);
    }
  }

  ghost predicate CanAllTravel(directory: Directory, corporate: int, employees: seq<int>) {
    NoDuplicates(employees) && forall e :: e in employees ==> e in directory && directory[e] == corporate
  }

  function PlannedTrip(q: Request, plan: int, vendor: int, employees: seq<int>): NewTrip {
    NewTrip(Some(vendor), None, Some(plan), q.at, None, employees)
  }

  // Creating the planned trip never fails.
  lemma PlannedTripCreated(s: Store, directory: Directory, q: Request, plan: int, vendor: int, employees: seq<int>)
    requires CanAllTravel(directory, q.corporate, employees)
    ensures CreateTrip(s, directory, q.corporate, PlannedTrip(q, plan, vendor, employees)).Ok?
  {
    var found := set e | e in employees && e in directory;
    forall e ensures e in found <==> e in ElementsOf(employees) {}
    assert found == ElementsOf(employees);
    SizeOfElements(employees);
  }

  // Assigning the chosen crew to it never fails either.
  lemma PlannedCrewAccepted(s: Store, directory: Directory, q: Request, plan: int, vendor: int, employees: seq<int>, crew: Crew)
    requires Referenced(s) && IsCrewOf(s, q, vendor, crew)
    requires CreateTrip(s, directory, q.corporate, PlannedTrip(q, plan, vendor, employees)).Ok?
    ensures var s' := CreateTrip(s, directory, q.corporate, PlannedTrip(q, plan, vendor, employees)).value;
            AssignCheck(s', q.fit, q.corporate, |s.trips|, crew) == Ok(Snapshot(|s.trips|, s'.trips[|s.trips|]))
  {
    var s' := CreateTrip(s, directory, q.corporate, PlannedTrip(q, plan, vendor, employees)).value;
    var trip := Snapshot(|s.trips|, s'.trips[|s.trips|]);
    forall role, r | IsFirstFit(s, q, role, vendor, Some(r)) && crew.Holder(role) == Some(r.id)
      ensures RoleCheck(s', q.fit, trip, crew, role) == None
    {
      FirstFitFits(s, q, role, vendor, Some(r));
      FitIsAccepted(s, s', q, role, vendor, r, trip, crew);
    }
  }

  // ---- Replacement vehicles ----

  // Holds the vehicle for any live trip at all, whatever its window.
  predicate Committed(s: Store, vehicle: int) {
    exists k | 0 <= k < |s.assignments| :: Commits(s, s.assignments[k], vehicle)
  }

  predicate Commits(s: Store, a: Assignment, vehicle: int) {
    a.active && a.crew.vehicle == Some(vehicle) && 0 <= a.trip < |s.trips| && !Ignored(s.trips[a.trip].status)
  }

  predicate CanReplace(s: Store, fit: Fitness, vendor: int, corporate: int, r: Resource) {
    fit(Vehicle, r.id, Some(vendor), corporate) && !Committed(s, r.id)
  }

  const REPLACEMENT_LIMIT := 20

  function OtherCandidate(vendor: int, excluded: int): Resource -> bool {
    (r: Resource) => r.id != excluded && IsCandidate(vendor, r)
  }

  function ReplacementCandidates(fleet: Fleet, vendor: int, excluded: int): seq<Resource> {
    var all := Compliance.Filter(fleet.vehicles, OtherCandidate(vendor, excluded));
    if |all| <= REPLACEMENT_LIMIT then all else all[..REPLACEMENT_LIMIT]
  }

  ghost predicate AnotherVehicle(r: Resource, vendor: int, excluded: int) {
    r.active && vendor in r.vendors && r.id != excluded
  }

  ghost function OthersBefore(fleet: Fleet, vendor: int, excluded: int, n: nat): nat
    requires n <= |fleet.vehicles|
  {
    if n == 0 then 0
    else OthersBefore(fleet, vendor, excluded, n - 1) + if AnotherVehicle(fleet.vehicles[n - 1], vendor, excluded) then 1 else 0
  }

  // Vehicle i is one of the first twenty of the vendor's others.
  ghost predicate LookedAt(fleet: Fleet, vendor: int, excluded: int, i: int) {
    0 <= i < |fleet.vehicles| && AnotherVehicle(fleet.vehicles[i], vendor, excluded) && OthersBefore(fleet, vendor, excluded, i) < 20
  }

  lemma {:induction false} FilterPush<T(!new)>(items: seq<T>, x: T, keep: T -> bool)
    ensures Compliance.Filter(items + [x], keep) == Compliance.Filter(items, keep) + if keep(x) then [x] else []
  {
    if items != [] {
      assert (items + [x])[1..] == items[1..] + [x];
      FilterPush(items[1..], x, keep);
    }
  }

  // The candidate list holds, as its k-th, the vehicle with k others before it.
  lemma {:induction false} OthersExactly(fleet: Fleet, vendor: int, excluded: int, n: nat)
    requires n <= |fleet.vehicles|
    ensures var others := Compliance.Filter(fleet.vehicles[..n], OtherCandidate(vendor, excluded));
            && |others| == OthersBefore(fleet, vendor, excluded, n)
            && forall i | 0 <= i < n && AnotherVehicle(fleet.vehicles[i], vendor, excluded) ::
                 OthersBefore(fleet, vendor, excluded, i) < |others| && others[OthersBefore(fleet, vendor, excluded, i)] == fleet.vehicles[i]
  {
    if n > 0 {
      OthersExactly(fleet, vendor, excluded, n - 1);
      FilterPush(fleet.vehicles[..n - 1], fleet.vehicles[n - 1], OtherCandidate(vendor, excluded));
      assert fleet.vehicles[..n] == fleet.vehicles[..n - 1] + [fleet.vehicles[n - 1]];
      hide Compliance.Filter;
    }
  }

  lemma {:induction false} KthOther(fleet: Fleet, vendor: int, excluded: int, k: nat, n: nat) returns (i: nat)
    requires n <= |fleet.vehicles| && k < OthersBefore(fleet, vendor, excluded, n)
    ensures i < n && AnotherVehicle(fleet.vehicles[i], vendor, excluded) && OthersBefore(fleet, vendor, excluded, i) == k
    ensures forall j: nat | j < i && AnotherVehicle(fleet.vehicles[j], vendor, excluded) :: OthersBefore(fleet, vendor, excluded, j) < k
  {
    hide AnotherVehicle;
    if OthersBefore(fleet, vendor, excluded, n - 1) > k {
      i := KthOther(fleet, vendor, excluded, k, n - 1);
    } else {
      i := n - 1;
      forall j: nat | j < i && AnotherVehicle(fleet.vehicles[j], vendor, excluded) ensures OthersBefore(fleet, vendor, excluded, j) < k {
        FewerBefore(fleet, vendor, excluded, j, i);
      }
    }
  }

  lemma {:induction false} FewerBefore(fleet: Fleet, vendor: int, excluded: int, j: nat, i: nat)
    requires j < i <= |fleet.vehicles| && AnotherVehicle(fleet.vehicles[j], vendor, excluded)
    ensures OthersBefore(fleet, vendor, excluded, j) < OthersBefore(fleet, vendor, excluded, i)
  {
    if j < i - 1 { FewerBefore(fleet, vendor, excluded, j, i - 1); }
  }

  // Vehicle i is looked at exactly as the candidate with its number.
  lemma CandidatesExactly(fleet: Fleet, vendor: int, excluded: int)
    ensures var rows := ReplacementCandidates(fleet, vendor, excluded);
            && (forall i | LookedAt(fleet, vendor, excluded, i) ::
                  OthersBefore(fleet, vendor, excluded, i) < |rows| && rows[OthersBefore(fleet, vendor, excluded, i)] == fleet.vehicles[i])
            && |rows| <= 20 && |rows| <= OthersBefore(fleet, vendor, excluded, |fleet.vehicles|)
  {
    OthersExactly(fleet, vendor, excluded, |fleet.vehicles|);
    assert fleet.vehicles[..|fleet.vehicles|] == fleet.vehicles;
    hide Compliance.Filter, OthersBefore;
  }

  // An eligible vehicle that no trip still to be driven holds, whatever its window.
  ghost predicate StandsReady(s: Store, fit: Fitness, vendor: int, corporate: int, r: Resource) {
    && fit(Vehicle, r.id, Some(vendor), corporate)
    && forall k | 0 <= k < |s.assignments| && s.assignments[k].active && s.assignments[k].crew.vehicle == Some(r.id)
                  && 0 <= s.assignments[k].trip < |s.trips| :: Over(s.trips[s.assignments[k].trip])
  }

  lemma ReplacementExactlyWhen(s: Store, fit: Fitness, vendor: int, corporate: int, r: Resource)
    ensures CanReplace(s, fit, vendor, corporate, r) <==> StandsReady(s, fit, vendor, corporate, r)
  {
    forall k | 0 <= k < |s.assignments|
      ensures Commits(s, s.assignments[k], r.id) <==>
        && s.assignments[k].active && s.assignments[k].crew.vehicle == Some(r.id)
        && 0 <= s.assignments[k].trip < |s.trips| && !Over(s.trips[s.assignments[k].trip])
    {
    }
  }

  lemma ReplaceableExactlyWhen(s: Store, fit: Fitness, vendor: int, corporate: int, r: Resource)
    ensures CanReplace(s, fit, vendor, corporate, r) <==> fit(Vehicle, r.id, Some(vendor), corporate) && !Committed(s, r.id)
  {
  }

  // The first of the vendor's first twenty other vehicles that is eligible and free.
  method FindReplacementVehicle(s: Store, fit: Fitness, fleet: Fleet, vendor: int, excluded: int, corporate: int)
    returns (found: Option<Resource>)
    ensures found.None? ==>
              forall i | LookedAt(fleet, vendor, excluded, i) :: !StandsReady(s, fit, vendor, corporate, fleet.vehicles[i])
    ensures found.Some? ==>
              && CanReplace(s, fit, vendor, corporate, found.value)
              && exists i ::
                   && LookedAt(fleet, vendor, excluded, i) && fleet.vehicles[i] == found.value
                   && StandsReady(s, fit, vendor, corporate, found.value)
                   && forall j | j < i && LookedAt(fleet, vendor, excluded, j) :: !StandsReady(s, fit, vendor, corporate, fleet.vehicles[j])
  {
    CandidatesExactly(fleet, vendor, excluded);
    hide CanReplace, StandsReady, ReplacementCandidates, OthersBefore;
    var candidates := ReplacementCandidates(fleet, vendor, excluded);
    for k := 0 to |candidates|
      invariant forall j | 0 <= j < k :: !StandsReady(s, fit, vendor, corporate, candidates[j])
    {
      ReplaceableExactlyWhen(s, fit, vendor, corporate, candidates[k]);
      ReplacementExactlyWhen(s, fit, vendor, corporate, candidates[k]);
      if fit(Vehicle, candidates[k].id, Some(vendor), corporate) {
        if !Committed(s, candidates[k].id) {
          ghost var i := KthOther(fleet, vendor, excluded, k, |fleet.vehicles|);
          assert LookedAt(fleet, vendor, excluded, i);
          return Some(candidates[k]);
        }
      }
    }
    found := None;
  }

  // The trip service accepts such a vehicle for every trip of that vendor and corporate.
  lemma ReplacementAccepted(s: Store, fit: Fitness, vendor: int, corporate: int, r: Resource, id: int)
    requires CanReplace(s, fit, vendor, corporate, r)
    requires 0 <= id < |s.trips| && s.trips[id].vendorOrg == Some(vendor) && s.trips[id].corporateOrg == corporate
    ensures AssignCheck(s, fit, corporate, id, Crew(None, Some(r.id), None)) == Ok(Snapshot(id, s.trips[id]))
  {
    var t := s.trips[id];
    forall k | 0 <= k < |s.assignments|
      ensures !Conflicts(s, s.assignments[k], Vehicle, r.id, id, t.scheduledStart, t.WindowEnd())
    {
      assert !Commits(s, s.assignments[k], r.id);
    }
  }
}
