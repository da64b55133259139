// The daily planning loop over the tables of trips, plans and exceptions.
module Planner {
  import opened Common
  import opened TripStateMachine
  import opened Trips
  import opened TripRuns
  import opened TripServices
  import opened Plans
  import opened Allocation
  import opened GeoRouting
  import Safety
  import PlanRuns

  const DEFAULT_GROUP_SIZE := 6
  const RIDE_MINUTES := 30.0

  // ---- Demand ----

  function Ids(stops: seq<Stop>): (r: seq<int>)
    ensures |r| == |stops|
  {
    seq(|stops|, k requires 0 <= k < |stops| => stops[k].employeeId)
  }

  lemma IdsRearranged(p: seq<Stop>, q: seq<Stop>)
    requires multiset(p) == multiset(q)
    ensures multiset(Ids(p)) == multiset(Ids(q))
  {
    var f := map x | x in p :: x.employeeId;
    forall x | x in q ensures x in f { assert x in multiset(q); }
    ImageKeepsMultiset(f, p, q);
    assert Image(f, p) == Ids(p) && Image(f, q) == Ids(q);
  }

  // What the solver may answer: every employee on exactly one route, no route empty or too long.
  ghost predicate SolverAnswer(routes: seq<seq<int>>, ids: seq<int>) {
    && multiset(Flatten(routes)) == multiset(ids)
    && forall k | 0 <= k < |routes| :: 0 < |routes[k]| <= DEFAULT_GROUP_SIZE
  }

  ghost predicate Grouping(groups: seq<seq<Stop>>, demand: seq<Stop>) {
    && multiset(Flatten(groups)) == multiset(demand)
    && forall k | 0 <= k < |groups| :: 0 < |groups[k]| <= DEFAULT_GROUP_SIZE
  }

  function ImageAll<K, V>(f: map<K, V>, lists: seq<seq<K>>): (r: seq<seq<V>>)
    requires forall x :: x in Flatten(lists) ==> x in f
    ensures |r| == |lists|
    ensures forall k | 0 <= k < |r| :: |r[k]| == |lists[k]|
    ensures forall k, m | 0 <= k < |r| && 0 <= m < |r[k]| :: lists[k][m] in f && r[k][m] == f[lists[k][m]]
    ensures Flatten(r) == Image(f, Flatten(lists))
  {
    if lists == [] then []
    else
      assert forall x :: x in lists[0] ==> x in Flatten(lists);
      assert forall x :: x in Flatten(lists[1..]) ==> x in Flatten(lists);
      assert Image(f, Flatten(lists)) == Image(f, lists[0]) + Image(f, Flatten(lists[1..]));
      var rest := ImageAll(f, lists[1..]);
      assert ([Image(f, lists[0])] + rest)[1..] == rest;
      [Image(f, lists[0])] + rest
  }

  function ById(stops: seq<Stop>): (r: map<int, Stop>)
    ensures forall x :: x in r <==> x in Ids(stops)
    ensures forall x | x in r :: r[x].employeeId == x
    ensures NoDuplicates(Ids(stops)) ==> forall k | 0 <= k < |stops| :: r[Ids(stops)[k]] == stops[k]
  {
    if stops == [] then map[]
    else
      var init, last := stops[..|stops| - 1], Last(stops);
      assert Ids(stops) == Ids(init) + [last.employeeId];
      assert forall k | 0 <= k < |init| :: Ids(stops)[k] == Ids(init)[k] && Ids(init)[k] in Ids(init);
      assert Ids(stops)[|init|] == last.employeeId;
      assert NoDuplicates(Ids(stops)) ==> NoDuplicates(Ids(init)) && last.employeeId !in Ids(init);
      ById(init)[last.employeeId := last]
  }

  // The solver's routes when every home is known and it answered; otherwise loads of at most six,
  // as few as possible, by proximity or, with a home unknown, in roster order.
  ghost predicate GroupsFormed(metric: Metric, demand: seq<Stop>, solved: Option<seq<seq<int>>>, groups: seq<seq<Stop>>) {
    if demand != [] && solved.Some? && forall k | 0 <= k < |demand| :: KnowsHome(demand[k]) then
      && |groups| == |solved.value|
      && (forall k | 0 <= k < |groups| :: |groups[k]| == |solved.value[k]|)
      && (forall k, m | 0 <= k < |groups| && 0 <= m < |groups[k]| && m < |solved.value[k]| ::
            groups[k][m].employeeId == solved.value[k][m])
    else
      && |groups| == (|demand| + 5) / 6
      && (forall k | 0 <= k < |groups| :: 0 < |groups[k]| <= 6)
      && (if forall k | 0 <= k < |demand| :: KnowsHome(demand[k])
          then exists positions :: GroupedByProximity(metric, demand, groups, positions)
          else Flatten(groups) == demand)
  }

  lemma SolvedGroups(metric: Metric, demand: seq<Stop>, routes: seq<seq<int>>)
    requires NoDuplicates(Ids(demand)) && SolverAnswer(routes, Ids(demand))
    requires demand != [] && forall k | 0 <= k < |demand| :: KnowsHome(demand[k])
    ensures forall x :: x in Flatten(routes) ==> x in ById(demand)
    ensures Grouping(ImageAll(ById(demand), routes), demand)
    ensures GroupsFormed(metric, demand, Some(routes), ImageAll(ById(demand), routes))
  {
    var byId := ById(demand);
    forall x | x in Flatten(routes) ensures x in byId {
      assert x in multiset(Flatten(routes));
      assert x in multiset(Ids(demand));
    }
    ImageKeepsMultiset(byId, Flatten(routes), Ids(demand));
    assert Image(byId, Ids(demand)) == demand;
  }

  // Uses the solver's routes when every home is known and it answered, and clusters otherwise.
  method GroupAndRoute(metric: Metric, demand: seq<Stop>, solved: Option<seq<seq<int>>>)
    returns (groups: seq<seq<Stop>>)
    requires NoDuplicates(Ids(demand))
    requires solved.Some? ==> SolverAnswer(solved.value, Ids(demand))
    ensures Grouping(groups, demand) && GroupsFormed(metric, demand, solved, groups)
  {
    if demand != [] && AllLocated(demand) && solved.Some? {
      assert forall k | 0 <= k < |demand| :: KnowsHome(demand[k]);
      SolvedGroups(metric, demand, solved.value);
      hide Grouping, GroupsFormed;
      groups := ImageAll(ById(demand), solved.value);
    } else {
      groups := ClusterByProximity(metric, demand, DEFAULT_GROUP_SIZE);
    }
  }

  // ---- Planning one group ----

  function RouteOf(stops: seq<Stop>, at: int): Safety.RouteInput {
    Safety.RouteInput(at,
      seq(|stops|, k requires 0 <= k < |stops| => Safety.Passenger(stops[k].gender, k == |stops| - 1)),
      false, RIDE_MINUTES)
  }

  // The exception rows left by the vendors that refused.
  ghost function Refusals(s: Store, q: Request, plan: int, vendors: seq<int>): seq<PlanException> {
    if vendors == [] then []
    else
      var init := Refusals(s, q, plan, vendors[..|vendors| - 1]);
      var refusal := Refusal(s, q, Last(vendors));
      if refusal.Some? then init + [PlanException(plan, refusal.value, q.seats, true)] else init
  }

  // The first vendor that can serve the group.
  ghost predicate IsFirstVendor(s: Store, q: Request, vendors: seq<int>, v: int) {
    0 <= v < |vendors| && CanServe(s, q, vendors[v]) && forall j | 0 <= j < v :: !CanServe(s, q, vendors[j])
  }

  // Trip `id` was made for this request, on top of the tables `s`.
  ghost predicate TripMade(s: Store, s': Store, q: Request, plan: int, vendor: int, employees: seq<int>, crew: Crew) {
    && s'.trips == s.trips + [Trip(q.corporate, Some(vendor), None, Some(plan), employees, q.at, None, None, None, Created, 1)]
    && s'.assignments == s.assignments + [Assignment(|s.trips|, crew, true)]
    && IsCrewOf(s, q, vendor, crew)
  }

  datatype Outcome = Outcome(trip: Option<int>, guardAssigned: bool)

  // What planning the group came to, its stops ordered as `route`.
  ghost predicate GroupPlanned(s: Store, s': Store, q: Request, plan: int, vendors: seq<int>, employees: seq<int>,
                               outcome: Outcome, raised: seq<PlanException>) {
    match outcome.trip
    case None =>
      && s' == s
      && (forall v | 0 <= v < |vendors| :: !CanServe(s, q, vendors[v]))
      && raised == Refusals(s, q, plan, vendors) + [PlanException(plan, NoEligibleVehicle, q.seats, true)]
      && !outcome.guardAssigned
    case Some(id) =>
      && id == |s.trips|
      && exists v, crew ::
           && IsFirstVendor(s, q, vendors, v)
           && TripMade(s, s', q, plan, vendors[v], employees, crew)
           && raised == Refusals(s, q, plan, vendors[..v])
           && outcome.guardAssigned == crew.guard.Some?
           && outcome.guardAssigned == Safety.GuardNeeded(q.rules, q.route)
  }

  // Creating and staffing the planned trip appends exactly one row to each table.
  lemma PlannedTripMade(s: Store, directory: Directory, q: Request, plan: int, vendor: int, employees: seq<int>, crew: Crew)
    requires Referenced(s) && IsCrewOf(s, q, vendor, crew) && CanAllTravel(directory, q.corporate, employees)
    ensures CreateTrip(s, directory, q.corporate, PlannedTrip(q, plan, vendor, employees)).Ok?
    ensures var s1 := CreateTrip(s, directory, q.corporate, PlannedTrip(q, plan, vendor, employees)).value;
            && Assign(s1, q.fit, q.corporate, |s.trips|, crew).Ok?
            && TripMade(s, Assign(s1, q.fit, q.corporate, |s.trips|, crew).value, q, plan, vendor, employees, crew)
  {
    PlannedTripCreated(s, directory, q, plan, vendor, employees);
    PlannedCrewAccepted(s, directory, q, plan, vendor, employees, crew);
    var s1 := CreateTrip(s, directory, q.corporate, PlannedTrip(q, plan, vendor, employees)).value;
    assert Trips.Superseded(s1.assignments, |s.trips|) == s.assignments;
  }

  // It is a run of a creation and an assignment.
  lemma PlannedTripReaches(s: Store, directory: Directory, q: Request, plan: int, vendor: int, employees: seq<int>, crew: Crew)
    requires Referenced(s) && IsCrewOf(s, q, vendor, crew) && CanAllTravel(directory, q.corporate, employees)
    requires CreateTrip(s, directory, q.corporate, PlannedTrip(q, plan, vendor, employees)).Ok?
    requires Assign(CreateTrip(s, directory, q.corporate, PlannedTrip(q, plan, vendor, employees)).value,
                    q.fit, q.corporate, |s.trips|, crew).Ok?
    ensures Reaches(s, Assign(CreateTrip(s, directory, q.corporate, PlannedTrip(q, plan, vendor, employees)).value,
                              q.fit, q.corporate, |s.trips|, crew).value)
  {
    hide CreateTrip, Assign, Reaches;
    var create := CreateStep(directory, q.corporate, PlannedTrip(q, plan, vendor, employees));
    var assign := AssignStep(q.fit, q.corporate, |s.trips|, crew);
    StepReaches(s, create);
    StepReaches(Apply(s, create), assign);
    ReachesOn(s, Apply(s, create), Apply(Apply(s, create), assign));
  }

  // A trip made without a guard breaks no mandatory safety rule on its planned stop order. One
  // made with a guard breaks none exactly when the route broke only guard rules without it.
  lemma PlannedTripSafeExactlyWhen(s: Store, s': Store, q: Request, plan: int, vendors: seq<int>, employees: seq<int>,
                                   outcome: Outcome, raised: seq<PlanException>)
    requires GroupPlanned(s, s', q, plan, vendors, employees, outcome, raised) && outcome.trip.Some?
    requires !q.route.hasGuard
    ensures !outcome.guardAssigned ==> Safety.IsSafe(q.rules, q.route)
    ensures Safety.IsSafe(q.rules, q.route.(hasGuard := outcome.guardAssigned))
       <==> forall k | 0 <= k < |q.rules| :: Safety.Breaks(q.rules, q.route, k) ==> q.rules[k].GuardRequired?
  {
    var v: int, crew: Crew :| IsFirstVendor(s, q, vendors, v) && outcome.guardAssigned == crew.guard.Some?
      && outcome.guardAssigned == Safety.GuardNeeded(q.rules, q.route);
    Safety.GuardedRouteSafeExactlyWhen(q.rules, q.route);
    assert q.route.(hasGuard := false) == q.route;
  }

  // ---- One round after another ----

  // What a plan is made with, besides the tables.
  datatype Setup = Setup(metric: Metric, fit: Fitness, fleet: Fleet, rules: seq<Safety.SafetyRule>,
                         corporate: int, plan: int, at: int, vendors: seq<int>)
  {
    function RequestFor(route: seq<Stop>): Request {
      Request(fit, fleet, rules, corporate, |route|, RouteOf(route, at), at)
    }
  }

  // Planning one group: the trips before and after, the route, what it came to, the rows it left.
  datatype Round = Round(before: Store, after: Store, route: seq<Stop>, outcome: Outcome, rows: seq<PlanException>)

  ghost predicate RoundOf(u: Setup, group: seq<Stop>, r: Round) {
    && IsRouteOf(u.metric, group, r.route)
    && GroupPlanned(r.before, r.after, u.RequestFor(r.route), u.plan, u.vendors, Ids(r.route), r.outcome, r.rows)
  }

  // Round k plans group k, on the trips that the rounds before it have left.
  ghost predicate Rounds(u: Setup, s: Store, s': Store, groups: seq<seq<Stop>>, rounds: seq<Round>)
    decreases |rounds|
  {
    if rounds == [] then groups == [] && s' == s
    else
      && groups != [] && |groups| == |rounds|
      && RoundOf(u, Last(groups), Last(rounds)) && Last(rounds).after == s'
      && Rounds(u, s, Last(rounds).before, groups[..|groups| - 1], rounds[..|rounds| - 1])
  }

  lemma RoundsPush(u: Setup, s: Store, s': Store, groups: seq<seq<Stop>>, rounds: seq<Round>, group: seq<Stop>, r: Round)
    requires Rounds(u, s, s', groups, rounds) && RoundOf(u, group, r) && r.before == s'
    ensures Rounds(u, s, r.after, groups + [group], rounds + [r])
  {
    assert (groups + [group])[..|groups|] == groups && (rounds + [r])[..|rounds|] == rounds;
  }

  lemma {:induction false} RoundAt(u: Setup, s: Store, s': Store, groups: seq<seq<Stop>>, rounds: seq<Round>, k: int)
    requires Rounds(u, s, s', groups, rounds) && 0 <= k < |rounds|
    ensures |groups| == |rounds| && RoundOf(u, groups[k], rounds[k])
    decreases |rounds|
  {
    hide RoundOf;
    var n := |rounds| - 1;
    if k < n { RoundAt(u, s, Last(rounds).before, groups[..n], rounds[..n], k); }
  }

  // Some trip operations lead from before the round to after it.
  ghost predicate RoundReached(r: Round) {
    Reaches(r.before, r.after)
  }

  ghost predicate AllReached(rounds: seq<Round>) {
    forall k | 0 <= k < |rounds| :: RoundReached(rounds[k])
  }

  // All the rounds together are a run of trip operations.
  lemma {:induction false} RoundsReach(u: Setup, s: Store, s': Store, groups: seq<seq<Stop>>, rounds: seq<Round>)
    requires Rounds(u, s, s', groups, rounds) && AllReached(rounds)
    ensures Reaches(s, s')
    decreases |rounds|
  {
    hide Reaches, RoundOf;
    StepReaches(s, LogStep(0, ""));
    if rounds != [] {
      var n := |rounds| - 1;
      RoundsReach(u, s, rounds[n].before, groups[..n], rounds[..n]);
      assert RoundReached(rounds[n]);
      ReachesOn(s, rounds[n].before, s');
    }
  }

  // The groups nobody served, in the order they were planned, and the groups that got a trip.
  function UnservedGroups(groups: seq<seq<Stop>>, rounds: seq<Round>): seq<seq<Stop>>
    requires |groups| == |rounds|
  {
    if groups == [] then []
    else
      var n := |groups| - 1;
      UnservedGroups(groups[..n], rounds[..n]) + if rounds[n].outcome.trip.None? then [groups[n]] else []
  }

  function ServedGroups(groups: seq<seq<Stop>>, rounds: seq<Round>): seq<seq<Stop>>
    requires |groups| == |rounds|
  {
    if groups == [] then []
    else
      var n := |groups| - 1;
      ServedGroups(groups[..n], rounds[..n]) + if rounds[n].outcome.trip.Some? then [groups[n]] else []
  }

  function Rows(rounds: seq<Round>): seq<PlanException> {
    if rounds == [] then [] else Rows(rounds[..|rounds| - 1]) + Last(rounds).rows
  }

  function Guarded(rounds: seq<Round>): nat {
    if rounds == [] then 0 else Guarded(rounds[..|rounds| - 1]) + if Last(rounds).outcome.guardAssigned then 1 else 0
  }

  // What a round adds to these.
  lemma PushedRound(groups: seq<seq<Stop>>, rounds: seq<Round>, group: seq<Stop>, r: Round)
    requires |groups| == |rounds|
    ensures UnservedGroups(groups + [group], rounds + [r]) == UnservedGroups(groups, rounds) + if r.outcome.trip.None? then [group] else []
    ensures ServedGroups(groups + [group], rounds + [r]) == ServedGroups(groups, rounds) + if r.outcome.trip.Some? then [group] else []
    ensures Rows(rounds + [r]) == Rows(rounds) + r.rows
    ensures Guarded(rounds + [r]) == Guarded(rounds) + if r.outcome.guardAssigned then 1 else 0
  {
    assert (groups + [group])[..|groups|] == groups && (rounds + [r])[..|rounds|] == rounds;
  }

  function SummaryOf(demand: nat, groups: seq<seq<Stop>>, rounds: seq<Round>): Summary
    requires |groups| == |rounds|
  {
    Summary(demand, |ServedGroups(groups, rounds)|, |UnservedGroups(groups, rounds)|, Guarded(rounds), |Flatten(UnservedGroups(groups, rounds))|)
  }

  lemma OnlyGuardedWithTrip(u: Setup, group: seq<Stop>, r: Round)
    requires RoundOf(u, group, r)
    ensures r.outcome.trip.None? ==> !r.outcome.guardAssigned
  {
  }

  // The tally after one more group.
  lemma NextRound(u: Setup, s: Store, s': Store, demand: nat, groups: seq<seq<Stop>>, k: nat, rounds: seq<Round>, r: Round)
    requires k < |groups| && |rounds| == k
    requires Rounds(u, s, s', groups[..k], rounds) && RoundOf(u, groups[k], r) && r.before == s'
    ensures Rounds(u, s, r.after, groups[..k + 1], rounds + [r])
    ensures Rows(rounds + [r]) == Rows(rounds) + r.rows
    ensures var done, next := SummaryOf(demand, groups[..k], rounds), SummaryOf(demand, groups[..k + 1], rounds + [r]);
            next == if r.outcome.trip.Some?
              then done.(trips := done.trips + 1, guards := done.guards + if r.outcome.guardAssigned then 1 else 0)
              else done.(exceptions := done.exceptions + 1, unassigned := done.unassigned + |groups[k]|,
                         guards := done.guards + if r.outcome.guardAssigned then 1 else 0)
  {
    hide RoundOf, Rounds, UnservedGroups, ServedGroups, Rows, Guarded, Flatten;
    assert groups[..k + 1] == groups[..k] + [groups[k]];
    RoundsPush(u, s, s', groups[..k], rounds, groups[k], r);
    PushedRound(groups[..k], rounds, groups[k], r);
    FlattenPush(UnservedGroups(groups[..k], rounds), groups[k]);
    if r.outcome.trip.Some? {
      assert UnservedGroups(groups[..k + 1], rounds + [r]) == UnservedGroups(groups[..k], rounds);
    } else {
      assert ServedGroups(groups[..k + 1], rounds + [r]) == ServedGroups(groups[..k], rounds);
    }
  }

  // ---- Generating a plan ----

  function EmployeeLists(made: seq<Trip>): (r: seq<seq<int>>)
    ensures |r| == |made|
  {
    seq(|made|, k requires 0 <= k < |made| => made[k].employees)
  }

  // The group sizes in the rows that report a group nobody could serve.
  function UnservedSizes(raised: seq<PlanException>): seq<int> {
    if raised == [] then []
    else
      var init, e := UnservedSizes(raised[..|raised| - 1]), Last(raised);
      if e.kind == NoEligibleVehicle then init + [e.groupSize] else init
  }

  function Sizes(groups: seq<seq<Stop>>): seq<int> {
    seq(|groups|, k requires 0 <= k < |groups| => |groups[k]|)
  }

  // The tables grew by one staffed trip of this plan after another.
  ghost predicate StaffedTrips(s: Store, s': Store, fleet: Fleet, corporate: int, plan: int, at: int) {
    && s.trips <= s'.trips && s.assignments <= s'.assignments
    && |s'.trips| - |s.trips| == |s'.assignments| - |s.assignments|
    && forall k | 0 <= k < |s'.trips| - |s.trips| ::
         StaffedAt(s, s', k, fleet, corporate, plan, at)
  }

  ghost predicate StaffedAt(s: Store, s': Store, k: nat, fleet: Fleet, corporate: int, plan: int, at: int)
    requires |s.trips| + k < |s'.trips| && |s.assignments| + k < |s'.assignments|
  {
    var id, t, a := |s.trips| + k, s'.trips[|s.trips| + k], s'.assignments[|s.assignments| + k];
    && t.corporateOrg == corporate && t.plan == Some(plan) && t.status == Created
    && t.scheduledStart == at && t.scheduledEnd == None
    && a.active && a.trip == id && a.crew.driver.Some? && a.crew.vehicle.Some?
    && exists r :: r in fleet.vehicles && a.crew.vehicle == Some(r.id) && r.capacity.Some? && r.capacity.value >= |t.employees|
  }

  // Every employee of the groups dealt with is on one new trip or in one failed group.
  ghost predicate Conserved(made: seq<Trip>, failed: seq<seq<Stop>>, groups: seq<seq<Stop>>) {
    && multiset(Flatten(EmployeeLists(made))) + multiset(Ids(Flatten(failed))) == multiset(Ids(Flatten(groups)))
    && |made| + |failed| == |groups|
  }

  // Each failed group left its exception row, in order.
  ghost predicate Reported(raised: seq<PlanException>, failed: seq<seq<Stop>>, plan: int) {
    && (forall k | 0 <= k < |raised| :: raised[k].plan == plan && raised[k].open)
    && UnservedSizes(raised) == Sizes(failed)
  }

  function GuardedCount(assignments: seq<Assignment>): nat {
    if assignments == [] then 0
    else GuardedCount(assignments[..|assignments| - 1]) + if Last(assignments).crew.guard.Some? then 1 else 0
  }

  // No two trips of the plan share a driver, a vehicle or a guard.
  ghost predicate SharesNothing(assignments: seq<Assignment>) {
    forall i, j, role: Role | 0 <= i < j < |assignments| :: DisjointIn(assignments[i].crew, assignments[j].crew, role)
  }

  ghost predicate DisjointIn(crew: Crew, other: Crew, role: Role) {
    crew.Holder(role).None? || crew.Holder(role) != other.Holder(role)
  }

  lemma PairSharesNothing(s: Store, s': Store, fleet: Fleet, corporate: int, plan: int, at: int, i: nat, j: nat, role: Role)
    requires Referenced(s') && NoDoubleBooking(s')
    requires i < j && |s.trips| + j < |s'.trips| && |s.assignments| + j < |s'.assignments|
    requires StaffedAt(s, s', i, fleet, corporate, plan, at) && StaffedAt(s, s', j, fleet, corporate, plan, at)
    ensures DisjointIn(s'.assignments[|s.assignments| + i].crew, s'.assignments[|s.assignments| + j].crew, role)
  {
    assert !DoubleBooked(s', |s.assignments| + i, |s.assignments| + j, role);
  }

  lemma TripsOfPlanShareNothing(s: Store, s': Store, fleet: Fleet, corporate: int, plan: int, at: int)
    requires Consistent(s') && StaffedTrips(s, s', fleet, corporate, plan, at)
    ensures SharesNothing(s'.assignments[|s.assignments|..])
  {
    var made := s'.assignments[|s.assignments|..];
    hide StaffedAt, NoDoubleBooking, Referenced, DisjointIn;
    forall i, j, role: Role | 0 <= i < j < |made| ensures DisjointIn(made[i].crew, made[j].crew, role) {
      PairSharesNothing(s, s', fleet, corporate, plan, at, i, j, role);
    }
  }

  lemma {:induction false} RefusalRows(s: Store, q: Request, plan: int, vendors: seq<int>)
    ensures forall e :: e in Refusals(s, q, plan, vendors) ==> e.plan == plan && e.open && e.kind != NoEligibleVehicle
  {
    if vendors != [] { RefusalRows(s, q, plan, vendors[..|vendors| - 1]); }
  }

  lemma {:induction false} UnservedUnchanged(raised: seq<PlanException>, more: seq<PlanException>)
    requires forall e :: e in more ==> e.kind != NoEligibleVehicle
    ensures UnservedSizes(raised + more) == UnservedSizes(raised)
  {
    if more == [] {
      assert raised + more == raised;
    } else {
      var init := more[..|more| - 1];
      assert (raised + more)[..|raised + more| - 1] == raised + init;
      assert Last(raised + more) == Last(more) && Last(more) in more;
      UnservedUnchanged(raised, init);
    }
  }

  lemma IdsJoin(p: seq<Stop>, q: seq<Stop>)
    ensures Ids(p + q) == Ids(p) + Ids(q)
  {
  }

  lemma ConservedByTrip(made: seq<Trip>, failed: seq<seq<Stop>>, groups: seq<seq<Stop>>, trip: Trip, group: seq<Stop>)
    requires Conserved(made, failed, groups) && multiset(trip.employees) == multiset(Ids(group))
    ensures Conserved(made + [trip], failed, groups + [group])
  {
    assert EmployeeLists(made + [trip]) == EmployeeLists(made) + [trip.employees];
    FlattenPush(EmployeeLists(made), trip.employees);
    FlattenPush(groups, group);
    IdsJoin(Flatten(groups), group);
  }

  lemma ConservedByFailure(made: seq<Trip>, failed: seq<seq<Stop>>, groups: seq<seq<Stop>>, group: seq<Stop>)
    requires Conserved(made, failed, groups)
    ensures Conserved(made, failed + [group], groups + [group])
  {
    FlattenPush(failed, group);
    FlattenPush(groups, group);
    IdsJoin(Flatten(failed), group);
    IdsJoin(Flatten(groups), group);
  }

  lemma ReportedByTrip(raised: seq<PlanException>, failed: seq<seq<Stop>>, plan: int,
                       s: Store, q: Request, vendors: seq<int>)
    requires Reported(raised, failed, plan)
    ensures Reported(raised + Refusals(s, q, plan, vendors), failed, plan)
  {
    RefusalRows(s, q, plan, vendors);
    UnservedUnchanged(raised, Refusals(s, q, plan, vendors));
  }

  lemma ReportedByFailure(raised: seq<PlanException>, failed: seq<seq<Stop>>, plan: int,
                          s: Store, q: Request, vendors: seq<int>, group: seq<Stop>)
    requires Reported(raised, failed, plan) && q.seats == |group|
    ensures Reported(raised + (Refusals(s, q, plan, vendors) + [PlanException(plan, NoEligibleVehicle, q.seats, true)]),
                     failed + [group], plan)
  {
    var row := PlanException(plan, NoEligibleVehicle, q.seats, true);
    var refused := raised + Refusals(s, q, plan, vendors);
    ReportedByTrip(raised, failed, plan, s, q, vendors);
    assert raised + (Refusals(s, q, plan, vendors) + [row]) == refused + [row];
    assert (refused + [row])[..|refused|] == refused;
    assert Sizes(failed + [group]) == Sizes(failed) + [|group|];
  }

  lemma StaffedByTrip(s: Store, s1: Store, s2: Store, q: Request, plan: int, vendor: int, employees: seq<int>, crew: Crew)
    requires StaffedTrips(s, s1, q.fleet, q.corporate, plan, q.at)
    requires TripMade(s1, s2, q, plan, vendor, employees, crew) && |employees| == q.seats && q.seats > 0
    ensures StaffedTrips(s, s2, q.fleet, q.corporate, plan, q.at)
  {
    var r :| IsFirstFit(s1, q, Vehicle, vendor, Some(r)) && crew.vehicle == Some(r.id);
    FirstFitFits(s1, q, Vehicle, vendor, Some(r));
    forall k | 0 <= k < |s2.trips| - |s.trips|
      ensures StaffedAt(s, s2, k, q.fleet, q.corporate, plan, q.at)
    {
      if k < |s1.trips| - |s.trips| { assert StaffedAt(s, s1, k, q.fleet, q.corporate, plan, q.at); }
    }
  }

  // Each trip carries the employees of one served group, in order.
  ghost predicate Matched(made: seq<Trip>, served: seq<seq<Stop>>) {
    |made| == |served| && forall k | 0 <= k < |made| :: multiset(made[k].employees) == multiset(Ids(served[k]))
  }

  // Everything that holds after some of the groups.
  ghost predicate Tracked(s: Store, s': Store, fleet: Fleet, corporate: int, plan: int, at: int,
                          raised: seq<PlanException>, failed: seq<seq<Stop>>, groups: seq<seq<Stop>>) {
    && StaffedTrips(s, s', fleet, corporate, plan, at)
    && Conserved(s'.trips[|s.trips|..], failed, groups)
    && Reported(raised, failed, plan)
  }

  lemma GroupFailed(s: Store, s1: Store, q: Request, plan: int, vendors: seq<int>, group: seq<Stop>,
                    raised: seq<PlanException>, failed: seq<seq<Stop>>, groups: seq<seq<Stop>>)
    requires Tracked(s, s1, q.fleet, q.corporate, plan, q.at, raised, failed, groups) && q.seats == |group|
    ensures Tracked(s, s1, q.fleet, q.corporate, plan, q.at,
                    raised + (Refusals(s1, q, plan, vendors) + [PlanException(plan, NoEligibleVehicle, q.seats, true)]),
                    failed + [group], groups + [group])
    ensures |Flatten(failed + [group])| == |Flatten(failed)| + |group|
  {
    FlattenPush(failed, group);
    ReportedByFailure(raised, failed, plan, s1, q, vendors, group);
    ConservedByFailure(s1.trips[|s.trips|..], failed, groups, group);
  }

  lemma GroupMade(s: Store, s1: Store, s2: Store, q: Request, plan: int, vendors: seq<int>, vendor: int, crew: Crew,
                  group: seq<Stop>, route: seq<Stop>,
                  raised: seq<PlanException>, failed: seq<seq<Stop>>, groups: seq<seq<Stop>>)
    requires Tracked(s, s1, q.fleet, q.corporate, plan, q.at, raised, failed, groups)
    requires multiset(route) == multiset(group) && q.seats == |route| > 0
    requires TripMade(s1, s2, q, plan, vendor, Ids(route), crew)
    ensures Tracked(s, s2, q.fleet, q.corporate, plan, q.at,
                    raised + Refusals(s1, q, plan, vendors), failed, groups + [group])
    ensures GuardedCount(s2.assignments[|s.assignments|..])
         == GuardedCount(s1.assignments[|s.assignments|..]) + (if crew.guard.Some? then 1 else 0)
  {
    var trip, a := s2.trips[|s1.trips|], Assignment(|s1.trips|, crew, true);
    var made := s1.assignments[|s.assignments|..];
    ReportedByTrip(raised, failed, plan, s1, q, vendors);
    IdsRearranged(route, group);
    ConservedByTrip(s1.trips[|s.trips|..], failed, groups, trip, group);
    assert s2.trips[|s.trips|..] == s1.trips[|s.trips|..] + [trip];
    StaffedByTrip(s, s1, s2, q, plan, vendor, Ids(route), crew);
    assert s2.assignments[|s.assignments|..] == made + [a];
    assert (made + [a])[..|made|] == made;
  }

  lemma GroupDone(s: Store, s1: Store, s2: Store, q: Request, plan: int, vendors: seq<int>, group: seq<Stop>, route: seq<Stop>,
                  outcome: Outcome, raised: seq<PlanException>, more: seq<PlanException>,
                  failed: seq<seq<Stop>>, groups: seq<seq<Stop>>)
    requires Tracked(s, s1, q.fleet, q.corporate, plan, q.at, raised, failed, groups)
    requires multiset(route) == multiset(group) && |route| == |group| && q.seats == |route| > 0
    requires GroupPlanned(s1, s2, q, plan, vendors, Ids(route), outcome, more)
    ensures var failed' := if outcome.trip.Some? then failed else failed + [group];
            && Tracked(s, s2, q.fleet, q.corporate, plan, q.at, raised + more, failed', groups + [group])
            && |Flatten(failed')| == |Flatten(failed)| + (if outcome.trip.Some? then 0 else |group|)
    ensures |s.trips| <= |s1.trips| && |s2.trips| == |s1.trips| + (if outcome.trip.Some? then 1 else 0)
    ensures s2.trips[|s.trips|..|s1.trips|] == s1.trips[|s.trips|..]
    ensures outcome.trip.Some? ==> Last(s2.trips).employees == Ids(route)
    ensures |s.assignments| <= |s1.assignments| <= |s2.assignments|
    ensures GuardedCount(s2.assignments[|s.assignments|..])
         == GuardedCount(s1.assignments[|s.assignments|..]) + (if outcome.guardAssigned then 1 else 0)
  {
    if outcome.trip.None? {
      GroupFailed(s, s1, q, plan, vendors, group, raised, failed, groups);
    } else {
      var v, crew :| IsFirstVendor(s1, q, vendors, v) && TripMade(s1, s2, q, plan, vendors[v], Ids(route), crew)
        && more == Refusals(s1, q, plan, vendors[..v]) && outcome.guardAssigned == crew.guard.Some?;
      GroupMade(s, s1, s2, q, plan, vendors[..v], vendors[v], crew, group, route, raised, failed, groups);
    }
  }

  lemma NothingTracked(s: Store, fleet: Fleet, corporate: int, plan: int, at: int)
    ensures Tracked(s, s, fleet, corporate, plan, at, [], [], []) && GuardedCount(s.assignments[|s.assignments|..]) == 0
  {
    assert EmployeeLists(s.trips[|s.trips|..]) == [];
  }

  lemma GroupingFacts(groups: seq<seq<Stop>>, demand: seq<Stop>)
    requires Grouping(groups, demand)
    ensures multiset(Flatten(groups)) == multiset(demand) && forall k | 0 <= k < |groups| :: |groups[k]| > 0
  {
  }

  lemma RouteFacts(metric: Metric, group: seq<Stop>, route: seq<Stop>)
    requires IsRouteOf(metric, group, route)
    ensures multiset(route) == multiset(group) && |route| == |group|
  {
  }

  // What the rounds amount to.
  lemma {:induction false} RoundsTally(u: Setup, s: Store, s': Store, groups: seq<seq<Stop>>, rounds: seq<Round>)
    requires Rounds(u, s, s', groups, rounds) && |groups| == |rounds|
    requires forall k | 0 <= k < |groups| :: |groups[k]| > 0
    ensures Tracked(s, s', u.fleet, u.corporate, u.plan, u.at, Rows(rounds), UnservedGroups(groups, rounds), groups)
    ensures |s.trips| <= |s'.trips| && |s.assignments| <= |s'.assignments|
    ensures Matched(s'.trips[|s.trips|..], ServedGroups(groups, rounds))
    ensures Guarded(rounds) == GuardedCount(s'.assignments[|s.assignments|..])
    decreases |rounds|
  {
    hide IsRouteOf, Tracked, GroupPlanned, GuardedCount, Rows, Guarded, UnservedGroups, ServedGroups, Matched;
    if rounds == [] {
      NothingYet();
      NothingTracked(s, u.fleet, u.corporate, u.plan, u.at);
      assert s'.trips[|s.trips|..] == [];
      NoneMatched();
    } else {
      var n := |rounds| - 1;
      var r, group, s1 := rounds[n], groups[n], rounds[n].before;
      assert Rounds(u, s, s1, groups[..n], rounds[..n]) && RoundOf(u, group, r) && r.after == s';
      hide Rounds;
      RoundsTally(u, s, s1, groups[..n], rounds[..n]);
      RouteFacts(u.metric, group, r.route);
      PushedRound(groups[..n], rounds[..n], group, r);
      assert groups == groups[..n] + [group] && rounds == rounds[..n] + [r];
      GroupDone(s, s1, s', u.RequestFor(r.route), u.plan, u.vendors, group, r.route, r.outcome,
                Rows(rounds[..n]), r.rows, UnservedGroups(groups[..n], rounds[..n]), groups[..n]);
      assert UnservedGroups(groups, rounds)
          == if r.outcome.trip.Some? then UnservedGroups(groups[..n], rounds[..n]) else UnservedGroups(groups[..n], rounds[..n]) + [group];
      RoundMatched(s, s1, s', group, r, ServedGroups(groups[..n], rounds[..n]));
    }
  }

  lemma NoneMatched()
    ensures Matched([], [])
  {
  }

  lemma RoundMatched(s: Store, s1: Store, s': Store, group: seq<Stop>, r: Round, served: seq<seq<Stop>>)
    requires |s.trips| <= |s1.trips| && |s'.trips| == |s1.trips| + (if r.outcome.trip.Some? then 1 else 0)
    requires s'.trips[|s.trips|..|s1.trips|] == s1.trips[|s.trips|..]
    requires r.outcome.trip.Some? ==> Last(s'.trips).employees == Ids(r.route)
    requires Matched(s1.trips[|s.trips|..], served) && multiset(r.route) == multiset(group)
    ensures Matched(s'.trips[|s.trips|..], served + if r.outcome.trip.Some? then [group] else [])
  {
    IdsRearranged(r.route, group);
    var before, after := s1.trips[|s.trips|..], s'.trips[|s.trips|..];
    assert forall k | 0 <= k < |before| :: after[k] == s'.trips[|s.trips|..|s1.trips|][k];
  }

  lemma NothingYet()
    ensures UnservedGroups([], []) == [] && ServedGroups([], []) == [] && Rows([]) == [] && Guarded([]) == 0
  {
  }

  // ---- Ready, and yet with open exceptions ----

  // Some vendor before the one that served the group had refused it with an exception.
  ghost predicate RefusedFirst(u: Setup, r: Round) {
    exists v, j ::
      && IsFirstVendor(r.before, u.RequestFor(r.route), u.vendors, v) && 0 <= j < v
      && Refusal(r.before, u.RequestFor(r.route), u.vendors[j]).Some?
  }

  ghost predicate LeavesRows(u: Setup, r: Round) {
    r.outcome.trip.None? || RefusedFirst(u, r)
  }

  lemma {:induction false} RefusalsExactlyWhen(s: Store, q: Request, plan: int, vendors: seq<int>)
    ensures Refusals(s, q, plan, vendors) != [] <==> exists j :: 0 <= j < |vendors| && Refusal(s, q, vendors[j]).Some?
  {
    hide Refusal;
    if vendors != [] { RefusalsExactlyWhen(s, q, plan, vendors[..|vendors| - 1]); }
  }

  lemma RoundRows(u: Setup, group: seq<Stop>, r: Round)
    requires RoundOf(u, group, r)
    ensures forall e :: e in r.rows ==> e.plan == u.plan && e.open
    ensures r.rows != [] <==> LeavesRows(u, r)
  {
    var q := u.RequestFor(r.route);
    hide IsRouteOf, Refusal, CanServe, TripMade, Refusals;
    if r.outcome.trip.None? {
      RefusalRows(r.before, q, u.plan, u.vendors);
    } else {
      var v :| IsFirstVendor(r.before, q, u.vendors, v) && r.rows == Refusals(r.before, q, u.plan, u.vendors[..v]);
      RefusalRows(r.before, q, u.plan, u.vendors[..v]);
      RefusalsExactlyWhen(r.before, q, u.plan, u.vendors[..v]);
      assert forall w | IsFirstVendor(r.before, q, u.vendors, w) :: w == v;
    }
  }

  lemma {:induction false} RowsExactlyWhen(u: Setup, s: Store, s': Store, groups: seq<seq<Stop>>, rounds: seq<Round>)
    requires Rounds(u, s, s', groups, rounds)
    ensures forall e :: e in Rows(rounds) ==> e.plan == u.plan && e.open
    ensures Rows(rounds) != [] <==> exists k :: 0 <= k < |rounds| && LeavesRows(u, rounds[k])
    decreases |rounds|
  {
    hide RoundOf, LeavesRows;
    if rounds != [] {
      var n := |rounds| - 1;
      assert Rounds(u, s, Last(rounds).before, groups[..n], rounds[..n]) && RoundOf(u, Last(groups), Last(rounds));
      hide Rounds;
      RowsExactlyWhen(u, s, Last(rounds).before, groups[..n], rounds[..n]);
      RoundRows(u, Last(groups), Last(rounds));
      assert forall k | 0 <= k < n :: rounds[..n][k] == rounds[k];
    }
  }

  lemma {:induction false} NoneFailedExactlyWhen(groups: seq<seq<Stop>>, rounds: seq<Round>)
    requires |groups| == |rounds|
    ensures UnservedGroups(groups, rounds) == [] <==> forall k | 0 <= k < |rounds| :: rounds[k].outcome.trip.Some?
  {
    if groups != [] {
      var n := |groups| - 1;
      NoneFailedExactlyWhen(groups[..n], rounds[..n]);
      assert forall k | 0 <= k < n :: rounds[..n][k] == rounds[k];
    }
  }

  // A new plan is ready exactly when every group got a trip. It has open exceptions all the same
  // exactly when, for some group, a vendor tried before the one that served it had refused.
  lemma ReadyWithExceptionsExactlyWhen(u: Setup, s: Store, s': Store, groups: seq<seq<Stop>>, rounds: seq<Round>,
                                       plans: seq<Plan>, key: PlanKey, demand: nat, before: seq<PlanException>)
    requires Rounds(u, s, s', groups, rounds) && |groups| == |rounds| && u.plan == |plans|
    requires forall k | 0 <= k < |before| :: before[k].plan < |plans|
    ensures var done := Finish(plans + [NextPlan(plans, key)], StartGeneration(plans, key), SummaryOf(demand, groups, rounds));
            && (done[u.plan].status == Ready <==> forall k | 0 <= k < |rounds| :: rounds[k].outcome.trip.Some?)
            && (done[u.plan].status == Ready ==>
                  (HasOpenExceptions(before + Rows(rounds), u.plan)
                   <==> exists k :: 0 <= k < |rounds| && RefusedFirst(u, rounds[k])))
  {
    NoneFailedExactlyWhen(groups, rounds);
    RowsExactlyWhen(u, s, s', groups, rounds);
    hide Rounds, RefusedFirst, Rows, UnservedGroups;
    var all, rows := before + Rows(rounds), Rows(rounds);
    assert HasOpenExceptions(all, u.plan) <==> rows != [] by {
      if rows != [] {
        assert rows[0] in rows && all[|before|] == rows[0];
      }
    }
  }

  // One vendor has a vehicle and a driver but no guard, the next one has a guard as well.
  const WAITING := Stop(5, None, None, None)
  const SHARED := Fleet([Resource(1, true, {1, 2}, Some(4), false)],
                        [Resource(2, true, {1, 2}, None, false)],
                        [Resource(3, true, {2}, None, false)])
  const GUARDED := Setup((_, _) => 0.0, (_, _, _, _) => true, SHARED, [Safety.GuardRequired(true, None)], 9, 0, 0, [1, 2])
  const CREW := Crew(Some(2), Some(1), Some(3))

  lemma NobodyBusy(q: Request, role: Role, vendor: int, r: Resource)
    requires q == GUARDED.RequestFor([WAITING]) && r in SHARED.Rows(role)
    ensures Judge(TripRuns.EMPTY, q, role, vendor, r) == Fit
  {
  }

  lemma OnlySecondVendorServes()
    ensures var q := GUARDED.RequestFor([WAITING]);
            && Refusal(TripRuns.EMPTY, q, 1) == Some(NoGuardAvailable)
            && IsFirstVendor(TripRuns.EMPTY, q, [1, 2], 1)
            && IsCrewOf(TripRuns.EMPTY, q, 2, CREW) && Safety.GuardNeeded(q.rules, q.route)
  {
    var q := GUARDED.RequestFor([WAITING]);
    assert Safety.Breaks(q.rules, q.route, 0);
    forall role, vendor, r | r in SHARED.Rows(role) ensures Judge(TripRuns.EMPTY, q, role, vendor, r) == Fit {
      NobodyBusy(q, role, vendor, r);
    }
    hide Judge;
    forall role: Role, vendor | vendor in SHARED.Rows(role)[0].vendors
      ensures HasFit(TripRuns.EMPTY, q, role, vendor)
      ensures IsFirstFit(TripRuns.EMPTY, q, role, vendor, Some(SHARED.Rows(role)[0]))
    {
      var r := SHARED.Rows(role)[0];
      assert r in q.fleet.Rows(role) && IsCandidate(vendor, r);
      assert IsFirstFitAt(TripRuns.EMPTY, q, role, vendor, r, 0);
    }
    assert !HasFit(TripRuns.EMPTY, q, Guard, 1);
  }

  lemma SecondVendorRound() returns (round: Round)
    ensures RoundOf(GUARDED, [WAITING], round) && RoundReached(round) && round.before == TripRuns.EMPTY
    ensures round.route == [WAITING] && round.outcome.trip.Some?
  {
    var q := GUARDED.RequestFor([WAITING]);
    var directory: Directory := map[5 := 9];
    OnlySecondVendorServes();
    PlannedTripMade(TripRuns.EMPTY, directory, q, 0, 2, [5], CREW);
    PlannedTripReaches(TripRuns.EMPTY, directory, q, 0, 2, [5], CREW);
    assert Ids([WAITING]) == [5] && [1, 2][..1] == [1] && [1][..0] == [];
    assert IsRouteOf(GUARDED.metric, [WAITING], [WAITING]);
    hide CanServe, IsCrewOf, Safety.GuardNeeded, Refusal, CreateTrip, Assign, Reaches, IsRouteOf, TripMade, IsFirstVendor, RouteOf, Ids;
    var created := CreateTrip(TripRuns.EMPTY, directory, 9, PlannedTrip(q, 0, 2, [5])).value;
    var after := Assign(created, q.fit, 9, 0, CREW).value;
    round := Round(TripRuns.EMPTY, after, [WAITING], Outcome(Some(0), true), [PlanException(0, NoGuardAvailable, 1, true)]);
    assert Refusals(TripRuns.EMPTY, q, 0, [1]) == round.rows;
    assert TripMade(TripRuns.EMPTY, after, q, 0, [1, 2][1], [5], CREW);
  }

  // The first vendor's refusal leaves an open exception on a plan that becomes ready.
  lemma ReadyDespiteException(key: PlanKey) returns (round: Round)
    ensures Rounds(GUARDED, TripRuns.EMPTY, round.after, [[WAITING]], [round])
    ensures Finish([NextPlan([], key)], StartGeneration([], key), SummaryOf(1, [[WAITING]], [round]))[0].status == Ready
    ensures HasOpenExceptions(Rows([round]), 0)
  {
    var q := GUARDED.RequestFor([WAITING]);
    round := SecondVendorRound();
    OnlySecondVendorServes();
    hide RoundOf, IsCrewOf, Safety.GuardNeeded, IsFirstVendor, Refusal;
    assert [[WAITING]][..0] == [] && [round][..0] == [];
    assert Rounds(GUARDED, TripRuns.EMPTY, round.after, [[WAITING]], [round]);
    assert RefusedFirst(GUARDED, round) by {
      assert IsFirstVendor(TripRuns.EMPTY, q, [1, 2], 1) && Refusal(TripRuns.EMPTY, q, [1, 2][0]).Some?;
    }
    hide Rounds, RefusedFirst;
    ReadyWithExceptionsExactlyWhen(GUARDED, TripRuns.EMPTY, round.after, [[WAITING]], [round], [], key, 1, []);
    assert [] + [NextPlan([], key)] == [NextPlan([], key)] && [] + Rows([round]) == Rows([round]);
  }

  lemma PartTravels(directory: Directory, corporate: int, before: seq<int>, part: seq<int>, after: seq<int>)
    requires CanAllTravel(directory, corporate, before + part + after)
    ensures CanAllTravel(directory, corporate, part)
  {
    var all := before + part + after;
    forall e | e in part ensures e in directory && directory[e] == corporate {
      assert e in all;
    }
    forall i, j | 0 <= i < j < |part| ensures part[i] != part[j] {
      assert all[|before| + i] == part[i] && all[|before| + j] == part[j];
    }
  }

  lemma GroupCanTravel(directory: Directory, corporate: int, demand: seq<Stop>, groups: seq<seq<Stop>>, k: nat)
    requires CanAllTravel(directory, corporate, Ids(demand))
    requires multiset(Flatten(groups)) == multiset(demand) && k < |groups|
    ensures CanAllTravel(directory, corporate, Ids(groups[k]))
  {
    var all := Flatten(groups);
    IdsRearranged(demand, all);
    RearrangedNoDuplicates(Ids(demand), Ids(all));
    forall e | e in Ids(all) ensures e in Ids(demand) {
      assert e in multiset(Ids(all)) && e in multiset(Ids(demand));
    }
    FlattenSplit(groups, k);
    IdsJoin(Flatten(groups[..k]) + groups[k], Flatten(groups[k + 1..]));
    IdsJoin(Flatten(groups[..k]), groups[k]);
    PartTravels(directory, corporate, Ids(Flatten(groups[..k])), Ids(groups[k]), Ids(Flatten(groups[k + 1..])));
  }

  // With no employee demanded twice, each is on exactly one trip or in exactly one failed group,
  // and the unassigned ones are the demand less those on trips.
  lemma EveryoneAccountedFor(demand: seq<Stop>, groups: seq<seq<Stop>>, made: seq<Trip>, failed: seq<seq<Stop>>)
    requires NoDuplicates(Ids(demand)) && Grouping(groups, demand) && Conserved(made, failed, groups)
    ensures var placed := Flatten(EmployeeLists(made)) + Ids(Flatten(failed));
            NoDuplicates(placed) && forall e :: e in placed <==> e in Ids(demand)
    ensures |Flatten(failed)| == |demand| - |Flatten(EmployeeLists(made))|
  {
    var placed := Flatten(EmployeeLists(made)) + Ids(Flatten(failed));
    IdsRearranged(Flatten(groups), demand);
    assert multiset(placed) == multiset(Ids(demand));
    RearrangedNoDuplicates(Ids(demand), placed);
    forall e ensures e in placed <==> e in Ids(demand) {
      assert e in placed <==> e in multiset(placed);
      assert e in Ids(demand) <==> e in multiset(Ids(demand));
    }
    assert |multiset(placed)| == |multiset(Ids(demand))|;
  }

  class PlanningService {
    const trips: TripService
    var plans: seq<Plan>
    var exceptions: seq<PlanException>

    constructor (trips: TripService)
      ensures this.trips == trips && plans == [] && exceptions == []
    {
      this.trips := trips;
      plans, exceptions := [], [];
    }

    method MakeTrip(directory: Directory, q: Request, plan: int, vendor: int, employees: seq<int>, crew: Crew)
      returns (id: int)
      requires Consistent(trips.State())
      requires CanAllTravel(directory, q.corporate, employees) && IsCrewOf(trips.State(), q, vendor, crew)
      modifies trips
      ensures Consistent(trips.State())
      ensures id == |old(trips.State()).trips|
      ensures TripMade(old(trips.State()), trips.State(), q, plan, vendor, employees, crew)
      ensures Reaches(old(trips.State()), trips.State())
    {
      PlannedTripMade(trips.State(), directory, q, plan, vendor, employees, crew);
      PlannedTripReaches(trips.State(), directory, q, plan, vendor, employees, crew);
      hide Reaches;
      var error;
      id, error := trips.Create(directory, q.corporate, PlannedTrip(q, plan, vendor, employees));
      error := trips.AssignCrew(q.fit, q.corporate, id, crew);
    }

    // Tries the vendors in turn and makes the trip with the first that can serve the group.
    method SearchVendors(directory: Directory, q: Request, plan: int, vendors: seq<int>, employees: seq<int>)
      returns (outcome: Outcome)
      requires Consistent(trips.State())
      requires CanAllTravel(directory, q.corporate, employees)
      modifies `exceptions, trips
      ensures Consistent(trips.State()) && Reaches(old(trips.State()), trips.State())
      ensures old(exceptions) <= exceptions
      ensures GroupPlanned(old(trips.State()), trips.State(), q, plan, vendors, employees, outcome,
                           exceptions[|old(exceptions)|..])
    {
      ghost var s := trips.State();
      ghost var before := exceptions;
      StepReaches(s, LogStep(0, ""));
      hide Reaches;
      for k := 0 to |vendors|
        invariant trips.State() == s
        invariant forall j | 0 <= j < k :: !CanServe(s, q, vendors[j])
        invariant exceptions == before + Refusals(s, q, plan, vendors[..k])
      {
        var attempt := TryVendor(Store(trips.trips, trips.assignments, trips.events), q, vendors[k]);
        if attempt.Staffed? {
          var id := MakeTrip(directory, q, plan, vendors[k], employees, attempt.crew);
          outcome := Outcome(Some(id), attempt.crew.guard.Some?);
          assert IsFirstVendor(s, q, vendors, k);
          assert exceptions[|before|..] == Refusals(s, q, plan, vendors[..k]);
          return;
        }
        assert vendors[..k + 1][..k] == vendors[..k];
        if attempt.Refused? {
          exceptions := exceptions + [PlanException(plan, attempt.kind, q.seats, true)];
        }
      }
      assert vendors[..|vendors|] == vendors;
      exceptions := exceptions + [PlanException(plan, NoEligibleVehicle, q.seats, true)];
      outcome := Outcome(None, false);
    }

    method PlanGroup(directory: Directory, u: Setup, group: seq<Stop>) returns (outcome: Outcome, ghost round: Round)
      requires Consistent(trips.State())
      requires SymmetricMetric(u.metric)
      requires CanAllTravel(directory, u.corporate, Ids(group))
      modifies `exceptions, trips
      ensures Consistent(trips.State())
      ensures RoundOf(u, group, round) && RoundReached(round) && round.outcome == outcome
      ensures round.before == old(trips.State()) && round.after == trips.State()
      ensures exceptions == old(exceptions) + round.rows
    {
      var ordered := OrderRouteByDistance(u.metric, group);
      IdsRearranged(group, ordered);
      RearrangedNoDuplicates(Ids(group), Ids(ordered));
      forall e | e in Ids(ordered) ensures e in Ids(group) {
        assert e in multiset(Ids(ordered)) && e in multiset(Ids(group));
      }
      outcome := SearchVendors(directory, u.RequestFor(ordered), u.plan, u.vendors, Ids(ordered));
      round := Round(old(trips.State()), trips.State(), ordered, outcome, exceptions[|old(exceptions)|..]);
    }

    // One group after another; the counters end up in the plan's summary.
    method PlanGroups(directory: Directory, u: Setup, demand: seq<Stop>, groups: seq<seq<Stop>>)
      returns (summary: Summary, ghost rounds: seq<Round>)
      requires Consistent(trips.State())
      requires SymmetricMetric(u.metric)
      requires CanAllTravel(directory, u.corporate, Ids(demand)) && Grouping(groups, demand)
      modifies `exceptions, trips
      ensures Consistent(trips.State())
      ensures |rounds| == |groups| && Rounds(u, old(trips.State()), trips.State(), groups, rounds)
      ensures AllReached(rounds)
      ensures exceptions == old(exceptions) + Rows(rounds)
      ensures summary == SummaryOf(|demand|, groups, rounds)
    {
      hide Consistent, CanAllTravel, IsRouteOf, Grouping, RoundOf, RoundReached, GroupPlanned;
      ghost var s, e0 := trips.State(), exceptions;
      var tripsCreated, exceptionsRaised, guardsAssigned, unassigned := 0, 0, 0, 0;
      rounds := [];
      GroupingFacts(groups, demand);
      forall k | 0 <= k < |groups| ensures CanAllTravel(directory, u.corporate, Ids(groups[k])) {
        GroupCanTravel(directory, u.corporate, demand, groups, k);
      }
      NothingYet();
      assert groups[..0] == [] && Rounds(u, s, s, groups[..0], rounds);
      assert SummaryOf(|demand|, groups[..0], rounds) == Summary(|demand|, 0, 0, 0, 0);
      hide Rounds, UnservedGroups, ServedGroups, Rows, Guarded, Flatten, SummaryOf;
      for k := 0 to |groups|
        invariant Consistent(trips.State())
        invariant |rounds| == k && Rounds(u, s, trips.State(), groups[..k], rounds) && AllReached(rounds)
        invariant exceptions == e0 + Rows(rounds)
        invariant Summary(|demand|, tripsCreated, exceptionsRaised, guardsAssigned, unassigned)
               == SummaryOf(|demand|, groups[..k], rounds)
      {
        ghost var s1 := trips.State();
        var outcome;
        ghost var round;
        outcome, round := PlanGroup(directory, u, groups[k]);
        NextRound(u, s, s1, |demand|, groups, k, rounds, round);
        OnlyGuardedWithTrip(u, groups[k], round);
        rounds := rounds + [round];
        if outcome.trip.Some? {
          tripsCreated := tripsCreated + 1;
          if outcome.guardAssigned { guardsAssigned := guardsAssigned + 1; }
        } else {
          exceptionsRaised := exceptionsRaised + 1;
          unassigned := unassigned + |groups[k]|;
        }
      }
      assert groups[..|groups|] == groups;
      summary := Summary(|demand|, tripsCreated, exceptionsRaised, guardsAssigned, unassigned);
    }

    // Starts a new version of the plan, plans every group, and closes the previous version.
    method Generate(directory: Directory, metric: Metric, fit: Fitness, fleet: Fleet, rules: seq<Safety.SafetyRule>,
                    actor: int, key: PlanKey, at: int, demand: seq<Stop>, vendors: seq<int>,
                    solved: Option<seq<seq<int>>>)
      returns (plan: int, error: Option<PlanError>, ghost groups: seq<seq<Stop>>, ghost rounds: seq<Round>)
      requires Consistent(trips.State())
      requires SymmetricMetric(metric)
      requires CanAllTravel(directory, actor, Ids(demand))
      requires solved.Some? ==> SolverAnswer(solved.value, Ids(demand))
      modifies this, trips
      ensures Consistent(trips.State())
      ensures key.corporate != actor ==>
                error == Some(NotThisCorporate) && plans == old(plans) && exceptions == old(exceptions)
                && trips.State() == old(trips.State())
      ensures key.corporate == actor ==>
                && error == None && plan == |old(plans)|
                && Grouping(groups, demand) && GroupsFormed(metric, demand, solved, groups) && |rounds| == |groups|
                && Rounds(Setup(metric, fit, fleet, rules, actor, plan, at, vendors),
                          old(trips.State()), trips.State(), groups, rounds)
                && AllReached(rounds)
                && exceptions == old(exceptions) + Rows(rounds)
                && plans == Finish(old(plans) + [NextPlan(old(plans), key)], StartGeneration(old(plans), key),
                                   SummaryOf(|demand|, groups, rounds))
                && Tracked(old(trips.State()), trips.State(), fleet, actor, plan, at,
                           Rows(rounds), UnservedGroups(groups, rounds), groups)
                && Matched(trips.trips[|old(trips.trips)|..], ServedGroups(groups, rounds))
                && SharesNothing(trips.assignments[|old(trips.assignments)|..])
    {
      groups, rounds := [], [];
      plan := |plans|;
      if key.corporate != actor {
        return plan, Some(NotThisCorporate), [], [];
      }
      hide Consistent, CanAllTravel, GroupsFormed, Rounds, UnservedGroups, ServedGroups, Rows, Guarded, AllReached, StaffedAt, Finish, SharesNothing;
      var generation := StartGeneration(plans, key);
      plans := plans + [NextPlan(plans, key)];
      var formed := GroupAndRoute(metric, demand, solved);
      groups := formed;
      var setup := Setup(metric, fit, fleet, rules, actor, plan, at, vendors);
      var summary;
      summary, rounds := PlanGroups(directory, setup, demand, formed);
      plans := Finish(plans, generation, summary);
      error := None;
      GroupingFacts(groups, demand);
      RoundsTally(setup, old(trips.State()), trips.State(), groups, rounds);
      TripsOfPlanShareNothing(old(trips.State()), trips.State(), fleet, actor, plan, at);
    }

    // Schedules one trip if it is the plan's and still only created.
    method ScheduleOne(actor: int, id: int, now: int, k: nat) returns (refused: Option<Error>)
      requires Consistent(trips.State()) && k < |trips.trips|
      modifies trips
      ensures Consistent(trips.State()) && |trips.trips| == |old(trips.trips)|
      ensures ScheduleTrips(old(trips.State()), actor, id, now, k)
           == if refused.Some? then Scheduling(trips.State(), refused) else ScheduleTrips(trips.State(), actor, id, now, k + 1)
    {
      hide Consistent, Transition, ScheduleTrips;
      ScheduleNext(trips.State(), actor, id, now, k);
      refused := None;
      if trips.trips[k].plan == Some(id) && trips.trips[k].status == Created {
        refused := trips.Move(actor, k, Scheduled, now);
      }
    }

    // Schedules the plan's trips that are still only created, stopping at the first refusal.
    method Schedule(actor: int, id: int, now: int) returns (refused: Option<Error>)
      requires Consistent(trips.State())
      modifies trips
      ensures Consistent(trips.State())
      ensures var done := ScheduleTrips(old(trips.State()), actor, id, now, 0);
              trips.State() == done.store && refused == done.error
    {
      hide Consistent, Transition, Reaches, ScheduleTrips;
      var k := 0;
      while k < |trips.trips|
        invariant 0 <= k <= |trips.trips|
        invariant Consistent(trips.State())
        invariant ScheduleTrips(trips.State(), actor, id, now, k) == ScheduleTrips(old(trips.State()), actor, id, now, 0)
        decreases |trips.trips| - k
      {
        refused := ScheduleOne(actor, id, now, k);
        if refused.Some? { return; }
        k := k + 1;
      }
      ScheduleEnd(trips.State(), actor, id, now);
      refused := None;
    }

    // Publishes a plan without open exceptions: retires the published one of the same day and
    // schedules the plan's trips.
    method Publish(actor: int, id: int, now: int) returns (error: Option<PlanError>)
      requires Consistent(trips.State())
      modifies this, trips
      ensures Consistent(trips.State()) && exceptions == old(exceptions)
      ensures Reaches(old(trips.State()), trips.State())
      ensures var check := PublishCheck(old(plans), old(exceptions), actor, id);
              if check.Some? then error == check && plans == old(plans) && trips.State() == old(trips.State())
              else
                var done := ScheduleTrips(old(trips.State()), actor, id, now, 0);
                && trips.State() == done.store
                && (match done.error
                    case None => error == None && plans == WithStatus(Retire(old(plans), id), id, Published)
                    case Some(e) => error == Some(TripNotMoved(e)) && plans == Retire(old(plans), id))
      ensures error == None ==> !HasOpenExceptions(exceptions, id) && NoCreatedTrips(trips.State(), id)
      ensures PlanRuns.Publish(PlanRuns.Board(old(plans), old(exceptions), old(trips.State()), []), actor, id, now)
           == PlanRuns.Board(plans, exceptions, trips.State(), [])
    {
      error := PublishCheck(plans, exceptions, actor, id);
      StepReaches(trips.State(), LogStep(0, ""));
      if error.Some? { return; }
      hide Reaches, ScheduleTrips, Retire, Consistent;
      plans := Retire(plans, id);
      ScheduleMovesOn(trips.State(), actor, id, now, 0);
      ScheduleReaches(trips.State(), actor, id, now, 0);
      var refused := Schedule(actor, id, now);
      if refused.Some? { return Some(TripNotMoved(refused.value)); }
      plans := WithStatus(plans, id, Published);
      error := None;
    }
  }
}
