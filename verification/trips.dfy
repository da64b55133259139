// Trips, their resource assignments and their event log, and the operations on them.
// A table is a sequence of rows, and a row's identifier is its position.
module Trips {
  import opened Common
  import opened TripStateMachine

  // ---- Rows ----

  const DEFAULT_TRIP_WINDOW_MS := 2 * 60 * 60 * 1000

  datatype Trip = Trip(
    corporateOrg: int,
    vendorOrg: Option<int>,
    contract: Option<int>,
    plan: Option<int>,
    employees: seq<int>,
    scheduledStart: int,
    scheduledEnd: Option<int>,
    actualStart: Option<int>,
    actualEnd: Option<int>,
    status: Status,
    version: int)
  {
    // The end of the window the trip occupies; two hours when none was scheduled.
    function WindowEnd(): int {
      if scheduledEnd.Some? then scheduledEnd.value else scheduledStart + DEFAULT_TRIP_WINDOW_MS
    }

    predicate HasParty(org: int) {
      corporateOrg == org || vendorOrg == Some(org)
    }

    predicate Live() { !IsTerminal(status) }
  }

  datatype Role = Driver | Vehicle | Guard

  // The resources named by an assignment or by a request for one.
  datatype Crew = Crew(driver: Option<int>, vehicle: Option<int>, guard: Option<int>)
  {
    function Holder(role: Role): Option<int> {
      match role
      case Driver => driver
      case Vehicle => vehicle
      case Guard => guard
    }
  }

  datatype Assignment = Assignment(trip: int, crew: Crew, active: bool)

  datatype EventKind = StatusSet(status: Status) | ResourcesAssignedEvent | OtherEvent(name: string)

  datatype TripEvent = TripEvent(trip: int, kind: EventKind)

  datatype Store = Store(trips: seq<Trip>, assignments: seq<Assignment>, events: seq<TripEvent>)

  datatype Error =
    | TripNotFound
    | NotAParty
    | InvalidTransition
    | StaleVersion
    | NotEligible(role: Role)
    | ResourceConflict(role: Role)
    | EmployeesNotFound
    | ForeignEmployee
    | NotInBreakdown

  // Is the resource compliance-eligible for this vendor and corporate right now?
  type Fitness = (Role, int, Option<int>, int) -> bool

  // The corporate each known employee belongs to.
  type Directory = map<int, int>

  datatype NewTrip = NewTrip(
    vendorOrg: Option<int>, contract: Option<int>, plan: Option<int>,
    scheduledStart: int, scheduledEnd: Option<int>, employees: seq<int>)

  // ---- Conflicts ----

  // The statuses the conflict query leaves out.
  predicate Ignored(s: Status) {
    s in {Cancelled, Completed, Failed, NoShow}
  }

  // They are exactly the statuses without an outgoing edge.
  lemma IgnoredExactlyTerminal(s: Status)
    ensures Ignored(s) <==> IsTerminal(s)
  {
  }

  predicate Conflicts(s: Store, a: Assignment, role: Role, id: int, excluding: int, start: int, end: int) {
    && a.active && a.crew.Holder(role) == Some(id) && a.trip != excluding
    && 0 <= a.trip < |s.trips|
    && var t := s.trips[a.trip];
       && !Ignored(t.status)
       && t.scheduledStart < end
       && (t.scheduledEnd.None? || t.scheduledEnd.value > start)
  }

  predicate HasConflict(s: Store, role: Role, id: int, excluding: int, start: int, end: int) {
    exists k | 0 <= k < |s.assignments| :: Conflicts(s, s.assignments[k], role, id, excluding, start, end)
  }

  // ---- Operations ----
  // A service call reads a row, decides, and commits. `Check` is the reading part and yields
  // the row as it was read; `Commit` is the write, guarded by that row's version.

  datatype Snapshot = Snapshot(id: nat, row: Trip)

  function CreateTrip(s: Store, directory: Directory, actor: int, input: NewTrip): Result<Store, Error> {
    var found := set e | e in input.employees && e in directory;
    if |found| != |input.employees| then Err(EmployeesNotFound)
    else if exists e :: e in found && directory[e] != actor then Err(ForeignEmployee)
    else
      var trip := Trip(actor, input.vendorOrg, input.contract, input.plan, input.employees,
                       input.scheduledStart, input.scheduledEnd, None, None, Created, 1);
      Ok(s.(trips := s.trips + [trip], events := s.events + [TripEvent(|s.trips|, StatusSet(Created))]))
  }

  function ReadTrip(s: Store, actor: int, id: int): Result<Snapshot, Error> {
    if !(0 <= id < |s.trips|) then Err(TripNotFound)
    else if !s.trips[id].HasParty(actor) then Err(NotAParty)
    else Ok(Snapshot(id, s.trips[id]))
  }

  function TransitionCheck(s: Store, actor: int, id: int, to: Status): Result<Snapshot, Error> {
    match ReadTrip(s, actor, id)
    case Err(e) => Err(e)
    case Ok(snap) => if CanTransition(snap.row.status, to) then Ok(snap) else Err(InvalidTransition)
  }

  function TransitionCommit(s: Store, snap: Snapshot, to: Status, now: int): Result<Store, Error> {
    if !(snap.id < |s.trips| && s.trips[snap.id].version == snap.row.version) then Err(StaleVersion)
    else
      var trip := s.trips[snap.id];
      var moved := trip.(
        status := to,
        version := trip.version + 1,
        actualStart := if to == Running && snap.row.actualStart.None? then Some(now) else trip.actualStart,
        actualEnd := if to == Completed then Some(now) else trip.actualEnd);
      Ok(s.(trips := s.trips[snap.id := moved], events := s.events + [TripEvent(snap.id, StatusSet(to))]))
  }

  function Transition(s: Store, actor: int, id: int, to: Status, now: int): Result<Store, Error> {
    match TransitionCheck(s, actor, id, to)
    case Err(e) => Err(e)
    case Ok(snap) => TransitionCommit(s, snap, to, now)
  }

  function RoleCheck(s: Store, fit: Fitness, snap: Snapshot, crew: Crew, role: Role): Option<Error> {
    match crew.Holder(role)
    case None => None
    case Some(id) =>
      if !fit(role, id, snap.row.vendorOrg, snap.row.corporateOrg) then Some(NotEligible(role))
      else if HasConflict(s, role, id, snap.id, snap.row.scheduledStart, snap.row.WindowEnd())
        then Some(ResourceConflict(role))
      else None
  }

  function AssignCheck(s: Store, fit: Fitness, actor: int, id: int, crew: Crew): Result<Snapshot, Error> {
    match ReadTrip(s, actor, id)
    case Err(e) => Err(e)
    case Ok(snap) =>
      match (RoleCheck(s, fit, snap, crew, Driver), RoleCheck(s, fit, snap, crew, Vehicle), RoleCheck(s, fit, snap, crew, Guard))
      case (Some(e), _, _) => Err(e)
      case (None, Some(e), _) => Err(e)
      case (None, None, Some(e)) => Err(e)
      case (None, None, None) => Ok(snap)
  }

  function Superseded(assignments: seq<Assignment>, trip: int): (r: seq<Assignment>)
    ensures |r| == |assignments|
  {
    seq(|assignments|, k requires 0 <= k < |assignments| =>
      if assignments[k].trip == trip then assignments[k].(active := false) else assignments[k])
  }

  // The version is guarded only where the status changes too.
  function AssignCommit(s: Store, snap: Snapshot, crew: Crew): Result<Store, Error> {
    if !(snap.id < |s.trips|) then Err(TripNotFound)
    else
      var moves := CanTransition(snap.row.status, ResourcesAssigned);
      if moves && s.trips[snap.id].version != snap.row.version then Err(StaleVersion)
      else
        var trip := s.trips[snap.id];
        Ok(Store(
          if moves then s.trips[snap.id := trip.(status := ResourcesAssigned, version := trip.version + 1)] else s.trips,
          Superseded(s.assignments, snap.id) + [Assignment(snap.id, crew, true)],
          s.events + [TripEvent(snap.id, ResourcesAssignedEvent)]))
  }

  function Assign(s: Store, fit: Fitness, actor: int, id: int, crew: Crew): Result<Store, Error> {
    match AssignCheck(s, fit, actor, id, crew)
    case Err(e) => Err(e)
    case Ok(snap) => AssignCommit(s, snap, crew)
  }

  // Events that other services write to a trip's log: one-time-passcode steps, no-shows.
  function LogOther(s: Store, id: int, name: string): Store {
    if 0 <= id < |s.trips| then s.(events := s.events + [TripEvent(id, OtherEvent(name))]) else s
  }

  // ---- Replaying the log ----

  // The statuses a trip has had according to the log. An assignment event counts only where
  // the state machine has the edge.
  function Trail(events: seq<TripEvent>, id: int): seq<Status> {
    if events == [] then []
    else
      var before := Trail(events[..|events| - 1], id);
      var e := Last(events);
      if e.trip != id then before
      else
        match e.kind
        case StatusSet(s) => before + [s]
        case ResourcesAssignedEvent =>
          if before != [] && CanTransition(Last(before), ResourcesAssigned) then before + [ResourcesAssigned] else before
        case OtherEvent(_) => before
  }

  // What appending one event does to a trail.
  lemma TrailPush(events: seq<TripEvent>, e: TripEvent, id: int)
    ensures e.trip != id ==> Trail(events + [e], id) == Trail(events, id)
    ensures e.trip == id && e.kind.StatusSet? ==> Trail(events + [e], id) == Trail(events, id) + [e.kind.status]
    ensures e.trip == id && e.kind.OtherEvent? ==> Trail(events + [e], id) == Trail(events, id)
    ensures e.trip == id && e.kind.ResourcesAssignedEvent? && Trail(events, id) != [] ==>
              Trail(events + [e], id) == Trail(events, id)
                + if CanTransition(Last(Trail(events, id)), ResourcesAssigned) then [ResourcesAssigned] else []
  {
    assert (events + [e])[..|events|] == events;
  }

  // ---- What every store reached by whole service calls satisfies ----

  ghost predicate Referenced(s: Store) {
    && (forall k | 0 <= k < |s.assignments| :: 0 <= s.assignments[k].trip < |s.trips|)
    && (forall k | 0 <= k < |s.events| :: 0 <= s.events[k].trip < |s.trips|)
  }

  ghost predicate OneActive(s: Store) {
    forall i, j | 0 <= i < j < |s.assignments| && s.assignments[i].active && s.assignments[j].active ::
      s.assignments[i].trip != s.assignments[j].trip
  }

  ghost predicate Overlap(t: Trip, u: Trip) {
    t.scheduledStart < u.WindowEnd() && u.scheduledStart < t.WindowEnd()
  }

  // Two assignments give one resource to two live trips at once.
  ghost predicate Clash(s: Store, a: Assignment, b: Assignment, role: Role)
    requires 0 <= a.trip < |s.trips| && 0 <= b.trip < |s.trips|
  {
    && a.active && b.active && a.trip != b.trip
    && a.crew.Holder(role).Some? && a.crew.Holder(role) == b.crew.Holder(role)
    && s.trips[a.trip].Live() && s.trips[b.trip].Live()
    && Overlap(s.trips[a.trip], s.trips[b.trip])
  }

  ghost predicate DoubleBooked(s: Store, i: int, j: int, role: Role)
    requires Referenced(s) && 0 <= i < |s.assignments| && 0 <= j < |s.assignments|
  {
    Clash(s, s.assignments[i], s.assignments[j], role)
  }

  ghost predicate NoDoubleBooking(s: Store)
    requires Referenced(s)
  {
    forall i, j, role | 0 <= i < |s.assignments| && 0 <= j < |s.assignments| :: !DoubleBooked(s, i, j, role)
  }

  // The row is where its history leads: a path of the state machine from its creation to its
  // current status, as long as its version.
  ghost predicate RowFollows(t: Trip, trail: seq<Status>) {
    && trail != [] && trail[0] == Created && IsPath(trail)
    && Last(trail) == t.status && |trail| == t.version
  }

  // The log replays to the row, and the recorded times match the statuses visited.
  ghost predicate RowMatchesTrail(t: Trip, trail: seq<Status>) {
    && RowFollows(t, trail)
    && (t.actualStart.Some? <==> Running in trail)
    && (t.actualEnd.Some? <==> Completed in trail)
  }

  ghost predicate LogReplays(s: Store) {
    forall id | 0 <= id < |s.trips| :: RowMatchesTrail(s.trips[id], Trail(s.events, id))
  }

  ghost predicate Consistent(s: Store) {
    Referenced(s) && OneActive(s) && NoDoubleBooking(s) && LogReplays(s)
  }
}
