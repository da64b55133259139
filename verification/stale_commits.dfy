// The trip services when reads may be stale: a call reads and checks at one moment and
// commits at a later one, and any other calls may commit in between.
module StaleCommits {
  import opened Common
  import opened TripStateMachine
  import opened Trips
  import TripRuns

  // ---- Interleavings ----

  // A call that has read its row and passed its checks, but has not committed.
  datatype Pending =
    | PendingTransition(snap: Snapshot, to: Status)
    | PendingAssign(snap: Snapshot, crew: Crew)

  // `history` records, per trip, the statuses committed to its row.
  datatype System = System(store: Store, pending: seq<Pending>, history: seq<seq<Status>>)

  datatype Step =
    | CreateStep(directory: Directory, actor: int, input: NewTrip)
    | ReadForTransition(actor: int, id: int, to: Status)
    | ReadForAssign(fit: Fitness, actor: int, id: int, crew: Crew)
    | CommitStep(call: nat, now: int)

  // Adds the status of a row to its history when the row's version has changed.
  function Recorded(history: seq<seq<Status>>, before: Store, after: Store, id: nat): seq<seq<Status>>
    requires id < |history| && id < |before.trips| && id < |after.trips|
  {
    if after.trips[id].version == before.trips[id].version then history
    else history[id := history[id] + [after.trips[id].status]]
  }

  function Commit(s: Store, call: Pending, now: int): Result<Store, Error> {
    match call
    case PendingTransition(snap, to) => TransitionCommit(s, snap, to, now)
    case PendingAssign(snap, crew) => AssignCommit(s, snap, crew)
  }

  function Apply(y: System, step: Step): System
    requires |y.history| == |y.store.trips|
  {
    match step
    case CreateStep(directory, actor, input) =>
      (match CreateTrip(y.store, directory, actor, input)
       case Ok(s) => y.(store := s, history := y.history + [[Created]])
       case Err(_) => y)
    case ReadForTransition(actor, id, to) =>
      (match TransitionCheck(y.store, actor, id, to)
       case Ok(snap) => y.(pending := y.pending + [PendingTransition(snap, to)])
       case Err(_) => y)
    case ReadForAssign(fit, actor, id, crew) =>
      (match AssignCheck(y.store, fit, actor, id, crew)
       case Ok(snap) => y.(pending := y.pending + [PendingAssign(snap, crew)])
       case Err(_) => y)
    case CommitStep(call, now) =>
      if call >= |y.pending| then y
      else
        var rest := y.(pending := y.pending[..call] + y.pending[call + 1..]);
        match Commit(y.store, y.pending[call], now)
        case Ok(s) => rest.(store := s, history := Recorded(y.history, y.store, s, y.pending[call].snap.id))
        case Err(_) => rest
  }

  function Run(y: System, steps: seq<Step>): System
    requires Legal(y)
    decreases |steps|
  {
    if steps == [] then y else StepLegal(y, steps[0]); Run(Apply(y, steps[0]), steps[1..])
  }

  // ---- What survives any interleaving ----

  // A pending call read the row as it was at some version, and the edge it wants was there.
  ghost predicate SnapshotLegal(y: System, call: Pending) {
    var snap := call.snap;
    && snap.id < |y.store.trips| && snap.id < |y.history|
    && 1 <= snap.row.version <= |y.history[snap.id]|
    && y.history[snap.id][snap.row.version - 1] == snap.row.status
    && (call.PendingTransition? ==> CanTransition(snap.row.status, call.to))
  }

  ghost predicate Legal(y: System) {
    && |y.history| == |y.store.trips|
    && (forall id | 0 <= id < |y.history| :: RowFollows(y.store.trips[id], y.history[id]))
    && Referenced(y.store) && OneActive(y.store)
    && (forall k | 0 <= k < |y.pending| :: SnapshotLegal(y, y.pending[k]))
  }

  lemma CommitRow(y: System, call: Pending, now: int)
    requires Legal(y) && SnapshotLegal(y, call) && Commit(y.store, call, now).Ok?
    ensures var s := Commit(y.store, call, now).value;
            && |s.trips| == |y.store.trips|
            && (forall id | 0 <= id < |s.trips| && id != call.snap.id :: s.trips[id] == y.store.trips[id])
            && RowFollows(s.trips[call.snap.id], Recorded(y.history, y.store, s, call.snap.id)[call.snap.id])
  {
    var id := call.snap.id;
    assert RowFollows(y.store.trips[id], y.history[id]);
  }

  lemma SnapshotsKeep(y: System, y': System, call: Pending)
    requires SnapshotLegal(y, call)
    requires |y.store.trips| <= |y'.store.trips| && |y.history| <= |y'.history|
    requires forall id | 0 <= id < |y.history| :: y.history[id] <= y'.history[id]
    ensures SnapshotLegal(y', call)
  {
    assert y.history[call.snap.id] <= y'.history[call.snap.id];
  }

  ghost predicate HistoriesGrow(y: System, y': System) {
    |y.history| <= |y'.history| && forall id | 0 <= id < |y.history| :: y.history[id] <= y'.history[id]
  }

  lemma CommitRows(y: System, call: Pending, now: int)
    requires Legal(y) && SnapshotLegal(y, call) && Commit(y.store, call, now).Ok?
    ensures var s := Commit(y.store, call, now).value;
            var history := Recorded(y.history, y.store, s, call.snap.id);
            && |history| == |s.trips|
            && (forall id | 0 <= id < |history| :: RowFollows(s.trips[id], history[id]))
            && (forall id | 0 <= id < |history| :: y.history[id] <= history[id])
  {
    CommitRow(y, call, now);
    var s := Commit(y.store, call, now).value;
    hide RowFollows, SnapshotLegal, Commit;
    forall id | 0 <= id < |s.trips| ensures RowFollows(s.trips[id], Recorded(y.history, y.store, s, call.snap.id)[id]) {
      assert RowFollows(y.store.trips[id], y.history[id]);
    }
  }

  lemma CommitTables(y: System, call: Pending, now: int)
    requires Legal(y) && Commit(y.store, call, now).Ok?
    ensures Referenced(Commit(y.store, call, now).value) && OneActive(Commit(y.store, call, now).value)
  {
    hide CanTransition, RowFollows, SnapshotLegal;
  }

  lemma CommitLegal(y: System, call: nat, now: int)
    requires Legal(y) && call < |y.pending|
    ensures Legal(Apply(y, CommitStep(call, now))) && HistoriesGrow(y, Apply(y, CommitStep(call, now)))
  {
    var y' := Apply(y, CommitStep(call, now));
    assert SnapshotLegal(y, y.pending[call]);
    if Commit(y.store, y.pending[call], now).Ok? {
      CommitRows(y, y.pending[call], now);
      CommitTables(y, y.pending[call], now);
    }
    hide CanTransition, RowFollows, SnapshotLegal, Recorded, Commit, Referenced, OneActive;
    forall k | 0 <= k < |y'.pending| ensures SnapshotLegal(y', y'.pending[k]) {
      SnapshotsKeep(y, y', y.pending[if k < call then k else k + 1]);
    }
  }

  lemma ReadLegal(y: System, id: int)
    requires Legal(y) && 0 <= id < |y.store.trips|
    ensures 1 <= y.store.trips[id].version <= |y.history[id]|
    ensures y.history[id][y.store.trips[id].version - 1] == y.store.trips[id].status
  {
    assert RowFollows(y.store.trips[id], y.history[id]);
  }

  lemma CreateLegal(y: System, directory: Directory, actor: int, input: NewTrip)
    requires Legal(y)
    ensures var y' := Apply(y, CreateStep(directory, actor, input)); Legal(y') && HistoriesGrow(y, y')
  {
    var y' := Apply(y, CreateStep(directory, actor, input));
    assert forall id | 0 <= id < |y.store.trips| :: y'.store.trips[id] == y.store.trips[id];
    assert Referenced(y'.store) && OneActive(y'.store);
    assert |y'.store.trips| > |y.store.trips| ==> RowFollows(Last(y'.store.trips), [Created]);
    assert forall id | 0 <= id < |y.history| :: y'.history[id] == y.history[id];
    hide CanTransition, RowFollows, SnapshotLegal, CreateTrip, Referenced, OneActive;
    forall k | 0 <= k < |y'.pending| ensures SnapshotLegal(y', y'.pending[k]) {
      SnapshotsKeep(y, y', y.pending[k]);
    }
  }

  lemma ReadsLegal(y: System, step: Step)
    requires Legal(y) && (step.ReadForTransition? || step.ReadForAssign?)
    ensures Legal(Apply(y, step)) && HistoriesGrow(y, Apply(y, step))
  {
    var y' := Apply(y, step);
    assert y'.store == y.store && y'.history == y.history && y.pending <= y'.pending;
    if |y'.pending| > |y.pending| {
      ReadLegal(y, Last(y'.pending).snap.id);
      assert SnapshotLegal(y', Last(y'.pending));
      assert y'.pending == y.pending + [Last(y'.pending)];
    }
    hide CanTransition, RowFollows, RoleCheck, Referenced, OneActive, AssignCheck, TransitionCheck;
    forall k | 0 <= k < |y'.pending| ensures SnapshotLegal(y', y'.pending[k]) {
      if k < |y.pending| { SnapshotsKeep(y, y', y.pending[k]); }
    }
  }

  lemma StepLegal(y: System, step: Step)
    requires Legal(y)
    ensures Legal(Apply(y, step)) && HistoriesGrow(y, Apply(y, step))
  {
    match step
    case CommitStep(call, now) =>
      if call < |y.pending| { CommitLegal(y, call, now); }
    case CreateStep(directory, actor, input) => CreateLegal(y, directory, actor, input);
    case _ => ReadsLegal(y, step);
  }

  // However reads and commits interleave, every committed status change is an edge, the version
  // counts the changes and so determines the status, each trip has at most one active
  // assignment, and what was recorded is never rewritten.
  lemma {:induction false} RunLegal(y: System, steps: seq<Step>)
    requires Legal(y)
    ensures Legal(Run(y, steps)) && HistoriesGrow(y, Run(y, steps))
    decreases |steps|
  {
    if steps != [] {
      var y1 := Apply(y, steps[0]);
      StepLegal(y, steps[0]);
      RunLegal(y1, steps[1..]);
      forall id | 0 <= id < |y.history| ensures y.history[id] <= Run(y, steps).history[id] {
        assert y.history[id] <= y1.history[id] <= Run(y1, steps[1..]).history[id];
      }
    }
  }

  lemma SameVersionSameStatus(y: System, steps: seq<Step>, id: int)
    requires Legal(y) && 0 <= id < |y.store.trips|
    ensures id < |Run(y, steps).store.trips|
    ensures var t, t' := y.store.trips[id], Run(y, steps).store.trips[id];
            && t.version <= t'.version
            && (t.version == t'.version ==> t.status == t'.status)
            && (IsTerminal(t.status) ==> t.version == t'.version)
  {
    var y' := Run(y, steps);
    RunLegal(y, steps);
    hide CanTransition, SnapshotLegal, Run, IsTerminal;
    var h, h' := y.history[id], y'.history[id];
    assert RowFollows(y.store.trips[id], h) && RowFollows(y'.store.trips[id], h');
    assert h <= h' && h'[|h| - 1] == h[|h| - 1];
    if IsTerminal(h[|h| - 1]) { TerminalIsLast(h', |h| - 1); }
  }

  // ---- What does not survive ----

  lemma RunFirst(y: System, step: Step, rest: seq<Step>)
    requires Legal(y)
    ensures Legal(Apply(y, step))
    ensures Run(y, [step] + rest) == Run(Apply(y, step), rest)
  {
    StepLegal(y, step);
    assert ([step] + rest)[1..] == rest;
  }

  const ANYONE: Fitness := (_, _, _, _) => true
  const NEW_TRIP := NewTrip(None, None, None, 0, None, [])
  const ROW := Trip(1, None, None, None, [], 0, None, None, None, Created, 1)
  const CREW := Crew(Some(7), None, None)
  const EMPTY := System(Store([], [], []), [], [])
  const MADE0 := TripEvent(0, StatusSet(Created))
  const MADE1 := TripEvent(1, StatusSet(Created))

  lemma CreateFirst()
    ensures Legal(EMPTY)
    ensures Apply(EMPTY, CreateStep(map[], 1, NEW_TRIP)) == System(Store([ROW], [], [MADE0]), [], [[Created]])
  {
    assert forall e :: e in NEW_TRIP.employees ==> false;
  }

  lemma CreateSecond()
    ensures Apply(System(Store([ROW], [], [MADE0]), [], [[Created]]), CreateStep(map[], 1, NEW_TRIP))
         == System(Store([ROW, ROW], [], [MADE0, MADE1]), [], [[Created], [Created]])
  {
    assert forall e :: e in NEW_TRIP.employees ==> false;
  }

  // Two checks can both pass before either commits, and then both commit.
  const CALL0 := PendingAssign(Snapshot(0, ROW), CREW)
  const CALL1 := PendingAssign(Snapshot(1, ROW), CREW)
  const TWO_TRIPS := System(Store([ROW, ROW], [], [MADE0, MADE1]), [], [[Created], [Created]])
  const BOTH_CHECKED := TWO_TRIPS.(pending := [CALL0, CALL1])
  const FIRST_ASSIGNED := System(
    Store([ROW, ROW], [Assignment(0, CREW, true)], [MADE0, MADE1, TripEvent(0, ResourcesAssignedEvent)]),
    [CALL1], [[Created], [Created]])

  lemma BothChecked()
    ensures Apply(Apply(TWO_TRIPS, ReadForAssign(ANYONE, 1, 0, CREW)), ReadForAssign(ANYONE, 1, 1, CREW)) == BOTH_CHECKED
  {
    assert Apply(TWO_TRIPS, ReadForAssign(ANYONE, 1, 0, CREW)) == TWO_TRIPS.(pending := [CALL0]);
  }

  lemma FirstAssigned()
    ensures Apply(BOTH_CHECKED, CommitStep(0, 0)) == FIRST_ASSIGNED
  {
    assert [CALL0, CALL1][..0] + [CALL0, CALL1][1..] == [CALL1];
    assert Superseded([], 0) == [];
  }

  lemma BothAssigned(y: System)
    requires y == FIRST_ASSIGNED
    ensures var s := Apply(y, CommitStep(0, 0)).store;
            s.trips == [ROW, ROW] && s.assignments == [Assignment(0, CREW, true), Assignment(1, CREW, true)]
  {
    assert Superseded(y.store.assignments, 1) == y.store.assignments;
  }

  lemma StaleChecksDoubleBook() returns (steps: seq<Step>)
    ensures Legal(EMPTY)
    ensures var s := Run(EMPTY, steps).store; Referenced(s) && !NoDoubleBooking(s)
  {
    var create := CreateStep(map[], 1, NEW_TRIP);
    var read0, read1 := ReadForAssign(ANYONE, 1, 0, CREW), ReadForAssign(ANYONE, 1, 1, CREW);
    var last := [CommitStep(0, 0)] + [];
    var s5 := [CommitStep(0, 0)] + last;
    var s4 := [read1] + s5;
    var s3 := [read0] + s4;
    var s2 := [create] + s3;
    steps := [create] + s2;
    CreateFirst();
    RunFirst(EMPTY, create, s2);
    CreateSecond();
    RunFirst(Apply(EMPTY, create), create, s3);
    BothChecked();
    RunFirst(TWO_TRIPS, read0, s4);
    RunFirst(Apply(TWO_TRIPS, read0), read1, s5);
    FirstAssigned();
    RunFirst(BOTH_CHECKED, CommitStep(0, 0), last);
    RunFirst(FIRST_ASSIGNED, CommitStep(0, 0), []);
    BothAssigned(FIRST_ASSIGNED);
    assert DoubleBooked(Run(EMPTY, steps).store, 0, 1, Driver);
  }

  // An assignment that read the trip before it was scheduled logs an event that, replayed,
  // moves the trip although the commit did not.
  const MOVED := ROW.(status := Scheduled, version := 2)
  const MOVE := TripEvent(0, StatusSet(Scheduled))
  const CALL := PendingAssign(Snapshot(0, ROW), CREW)
  const BOTH_READ := System(Store([ROW], [], [MADE0]), [CALL, PendingTransition(Snapshot(0, ROW), Scheduled)], [[Created]])
  const SCHEDULED := System(Store([MOVED], [], [MADE0, MOVE]), [CALL], [[Created, Scheduled]])
  const LATE := System(
    Store([MOVED], [Assignment(0, CREW, true)], [MADE0, MOVE, TripEvent(0, ResourcesAssignedEvent)]),
    [], [[Created, Scheduled]])

  lemma MoveCommitted()
    ensures Apply(BOTH_READ, CommitStep(1, 0)) == SCHEDULED
  {
    var calls := BOTH_READ.pending;
    assert calls[..1] + calls[2..] == [CALL];
    assert BOTH_READ.store.trips[0 := MOVED] == [MOVED];
    assert [Created] + [Scheduled] == [Created, Scheduled];
    assert [[Created]][0 := [Created, Scheduled]] == [[Created, Scheduled]];
  }

  lemma AssignCommittedLate()
    ensures Apply(SCHEDULED, CommitStep(0, 0)) == LATE
  {
  }

  lemma LateTrail()
    ensures Trail(LATE.store.events, 0) == [Created, Scheduled, ResourcesAssigned]
  {
    TrailPush([], MADE0, 0);
    TrailPush([MADE0], MOVE, 0);
    TrailPush([MADE0, MOVE], TripEvent(0, ResourcesAssignedEvent), 0);
    assert [] + [MADE0] == [MADE0];
    assert [MADE0] + [MOVE] == [MADE0, MOVE];
    assert [MADE0, MOVE] + [TripEvent(0, ResourcesAssignedEvent)] == LATE.store.events;
  }

  lemma StaleAssignBreaksReplay() returns (steps: seq<Step>)
    ensures Legal(EMPTY)
    ensures !LogReplays(Run(EMPTY, steps).store)
  {
    var create := CreateStep(map[], 1, NEW_TRIP);
    var read, schedule := ReadForAssign(ANYONE, 1, 0, CREW), ReadForTransition(1, 0, Scheduled);
    var y1 := System(Store([ROW], [], [MADE0]), [], [[Created]]);
    var y2 := y1.(pending := [CALL]);
    var last := [CommitStep(0, 0)] + [];
    var s4 := [CommitStep(1, 0)] + last;
    var s3 := [schedule] + s4;
    var s2 := [read] + s3;
    steps := [create] + s2;
    CreateFirst();
    RunFirst(EMPTY, create, s2);
    assert Apply(y1, read) == y2;
    RunFirst(y1, read, s3);
    assert Apply(y2, schedule) == BOTH_READ;
    RunFirst(y2, schedule, s4);
    MoveCommitted();
    RunFirst(BOTH_READ, CommitStep(1, 0), last);
    AssignCommittedLate();
    RunFirst(SCHEDULED, CommitStep(0, 0), []);
    LateTrail();
    assert !RowMatchesTrail(LATE.store.trips[0], Trail(LATE.store.events, 0));
  }

  // ---- Exactly when a late assignment does no harm ----

  // No other live trip that overlaps this one, by the windows the trips occupy, holds any of
  // the crew.
  ghost predicate StillFree(s: Store, id: nat, crew: Crew)
    requires Referenced(s) && id < |s.trips|
  {
    forall k, role: Role | 0 <= k < |s.assignments| :: !Clash(s, s.assignments[k], Assignment(id, crew, true), role)
  }

  // A check that passes shows the crew free.
  lemma PassingCheckIsFree(s: Store, fit: Fitness, actor: int, id: int, crew: Crew)
    requires Referenced(s) && AssignCheck(s, fit, actor, id, crew).Ok?
    ensures StillFree(s, id, crew)
  {
    forall k, role: Role | 0 <= k < |s.assignments|
      ensures !Clash(s, s.assignments[k], Assignment(id, crew, true), role)
    {
      if Clash(s, s.assignments[k], Assignment(id, crew, true), role) {
        TripRuns.CheckedCrewIsFree(s, fit, actor, id, crew, k, role);
      }
    }
  }

  // The assignment's trip has no scheduled end and its two-hour window is over before this
  // trip starts; the conflict query takes it to go on for ever.
  ghost predicate OnlyOpenEnded(s: Store, a: Assignment, b: Assignment, role: Role)
    requires 0 <= a.trip < |s.trips| && 0 <= b.trip < |s.trips|
  {
    && a.active && a.trip != b.trip
    && a.crew.Holder(role).Some? && a.crew.Holder(role) == b.crew.Holder(role)
    && s.trips[a.trip].Live() && s.trips[a.trip].scheduledEnd.None?
    && s.trips[a.trip].scheduledStart < s.trips[b.trip].WindowEnd()
    && s.trips[a.trip].WindowEnd() <= s.trips[b.trip].scheduledStart
  }

  // So the query reports more than overlaps, and this is the difference.
  lemma ConflictExactlyWhen(s: Store, id: nat, crew: Crew, k: nat, role: Role)
    requires Referenced(s) && id < |s.trips| && k < |s.assignments|
    requires crew.Holder(role).Some? && s.trips[id].Live()
    ensures Conflicts(s, s.assignments[k], role, crew.Holder(role).value, id, s.trips[id].scheduledStart, s.trips[id].WindowEnd())
       <==> || Clash(s, s.assignments[k], Assignment(id, crew, true), role)
            || OnlyOpenEnded(s, s.assignments[k], Assignment(id, crew, true), role)
  {
    IgnoredExactlyTerminal(s.trips[s.assignments[k].trip].status);
  }

  // An open-ended trip from midnight keeps its driver from one at ten that it does not overlap.
  lemma FreeCrewTurnedDown()
    ensures var hour := 60 * 60 * 1000;
            var s := Store([ROW, ROW.(scheduledStart := 10 * hour, scheduledEnd := Some(12 * hour))], [Assignment(0, CREW, true)], []);
            Referenced(s) && StillFree(s, 1, CREW) && AssignCheck(s, ANYONE, 1, 1, CREW) == Err(ResourceConflict(Driver))
  {
    var hour := 60 * 60 * 1000;
    var s := Store([ROW, ROW.(scheduledStart := 10 * hour, scheduledEnd := Some(12 * hour))], [Assignment(0, CREW, true)], []);
    assert Conflicts(s, s.assignments[0], Driver, 7, 1, 10 * hour, 12 * hour);
  }

  lemma ClashIsDoubleBooking(s: Store, snap: Snapshot, crew: Crew, k: nat, role: Role)
    requires Referenced(s) && snap.id < |s.trips| && k < |s.assignments|
    requires snap.row.version == s.trips[snap.id].version ==> snap.row.status == s.trips[snap.id].status
    requires AssignCommit(s, snap, crew).Ok?
    ensures Referenced(AssignCommit(s, snap, crew).value)
    ensures var clash := Clash(s, s.assignments[k], Assignment(snap.id, crew, true), role);
            && (DoubleBooked(AssignCommit(s, snap, crew).value, k, |s.assignments|, role) <==> clash)
            && (DoubleBooked(AssignCommit(s, snap, crew).value, |s.assignments|, k, role) <==> clash)
  {
  }

  lemma OldPairsStay(s: Store, snap: Snapshot, crew: Crew, i: nat, j: nat, role: Role)
    requires Referenced(s) && snap.id < |s.trips| && i < |s.assignments| && j < |s.assignments|
    requires snap.row.version == s.trips[snap.id].version ==> snap.row.status == s.trips[snap.id].status
    requires AssignCommit(s, snap, crew).Ok? && Referenced(AssignCommit(s, snap, crew).value)
    ensures DoubleBooked(AssignCommit(s, snap, crew).value, i, j, role) ==> DoubleBooked(s, i, j, role)
  {
  }

  lemma OneMoreAssignment(s: Store, snap: Snapshot, crew: Crew)
    requires Referenced(s) && snap.id < |s.trips| && AssignCommit(s, snap, crew).Ok?
    ensures var s' := AssignCommit(s, snap, crew).value;
            && Referenced(s') && |s'.assignments| == |s.assignments| + 1
            && forall role :: !DoubleBooked(s', |s.assignments|, |s.assignments|, role)
  {
  }

  // A late commit books nobody twice exactly when no overlapping trip has taken the crew by then.
  lemma LateAssignBooksExactlyWhen(s: Store, snap: Snapshot, crew: Crew)
    requires Referenced(s) && NoDoubleBooking(s) && snap.id < |s.trips|
    requires snap.row.version == s.trips[snap.id].version ==> snap.row.status == s.trips[snap.id].status
    requires AssignCommit(s, snap, crew).Ok?
    ensures Referenced(AssignCommit(s, snap, crew).value)
    ensures NoDoubleBooking(AssignCommit(s, snap, crew).value) <==> StillFree(s, snap.id, crew)
  {
    OneMoreAssignment(s, snap, crew);
    hide Clash, AssignCommit, Referenced, DoubleBooked;
    var s' := AssignCommit(s, snap, crew).value;
    var last := |s.assignments|;
    if StillFree(s, snap.id, crew) {
      forall i, j, role | 0 <= i <= last && 0 <= j <= last ensures !DoubleBooked(s', i, j, role) {
        if i < last && j < last {
          OldPairsStay(s, snap, crew, i, j, role);
        } else if i < last {
          ClashIsDoubleBooking(s, snap, crew, i, role);
        } else if j < last {
          ClashIsDoubleBooking(s, snap, crew, j, role);
        }
      }
    } else {
      var k, role :| 0 <= k < last && Clash(s, s.assignments[k], Assignment(snap.id, crew, true), role);
      ClashIsDoubleBooking(s, snap, crew, k, role);
    }
  }

  lemma OtherRowsReplay(s: Store, snap: Snapshot, crew: Crew, id: int)
    requires LogReplays(s) && snap.id < |s.trips| && AssignCommit(s, snap, crew).Ok?
    requires 0 <= id < |s.trips| && id != snap.id
    ensures var s' := AssignCommit(s, snap, crew).value;
            RowMatchesTrail(s'.trips[id], Trail(s'.events, id))
  {
    TrailPush(s.events, TripEvent(snap.id, ResourcesAssignedEvent), id);
    assert RowMatchesTrail(s.trips[id], Trail(s.events, id));
  }

  lemma OwnRowReplays(s: Store, snap: Snapshot, crew: Crew)
    requires snap.id < |s.trips| && RowMatchesTrail(s.trips[snap.id], Trail(s.events, snap.id))
    requires snap.row.version == s.trips[snap.id].version ==> snap.row.status == s.trips[snap.id].status
    requires AssignCommit(s, snap, crew).Ok?
    ensures var s' := AssignCommit(s, snap, crew).value;
            RowMatchesTrail(s'.trips[snap.id], Trail(s'.events, snap.id))
            <==> (CanTransition(s.trips[snap.id].status, ResourcesAssigned) ==> CanTransition(snap.row.status, ResourcesAssigned))
  {
    TrailPush(s.events, TripEvent(snap.id, ResourcesAssignedEvent), snap.id);
    hide CanTransition, Trail;
  }

  // The log still replays exactly when the trip has not, since it was read, gained the edge
  // that the assignment event stands for.
  lemma LateAssignReplaysExactlyWhen(s: Store, snap: Snapshot, crew: Crew)
    requires LogReplays(s) && snap.id < |s.trips|
    requires snap.row.version == s.trips[snap.id].version ==> snap.row.status == s.trips[snap.id].status
    requires AssignCommit(s, snap, crew).Ok?
    ensures LogReplays(AssignCommit(s, snap, crew).value)
       <==> (CanTransition(s.trips[snap.id].status, ResourcesAssigned) ==> CanTransition(snap.row.status, ResourcesAssigned))
  {
    hide RowMatchesTrail, CanTransition, Trail;
    var s' := AssignCommit(s, snap, crew).value;
    forall id | 0 <= id < |s'.trips| && id != snap.id ensures RowMatchesTrail(s'.trips[id], Trail(s'.events, id)) {
      OtherRowsReplay(s, snap, crew, id);
    }
    OwnRowReplays(s, snap, crew);
  }

  // ---- In every system that can be reached ----

  // A pending call's row is as it was read unless its version has moved on.
  lemma SnapshotMatches(y: System, call: nat)
    requires Legal(y) && call < |y.pending|
    ensures var snap := y.pending[call].snap;
            && snap.id < |y.store.trips|
            && (snap.row.version == y.store.trips[snap.id].version ==> snap.row.status == y.store.trips[snap.id].status)
  {
    assert SnapshotLegal(y, y.pending[call]);
    assert RowFollows(y.store.trips[y.pending[call].snap.id], y.history[y.pending[call].snap.id]);
  }

  lemma ReachedIsLegal(steps: seq<Step>)
    ensures Legal(EMPTY) && Legal(Run(EMPTY, steps))
  {
    RunLegal(EMPTY, steps);
  }

  function Reached(steps: seq<Step>): (y: System)
    ensures Legal(y)
  {
    ReachedIsLegal(steps);
    Run(EMPTY, steps)
  }

  // Whatever reads and commits came before, the commit of a pending assignment keeps bookings
  // apart exactly when the crew is still free, and the log in step exactly when the trip has not
  // gained the edge since.
  lemma ReachedCommitHarmlessExactlyWhen(steps: seq<Step>, call: nat, now: int)
    requires call < |Reached(steps).pending| && Reached(steps).pending[call].PendingAssign?
    requires Commit(Reached(steps).store, Reached(steps).pending[call], now).Ok?
    ensures var y := Reached(steps);
            var snap, crew, y' := y.pending[call].snap, y.pending[call].crew, Apply(y, CommitStep(call, now));
            && snap.id < |y.store.trips| && Referenced(y'.store)
            && (NoDoubleBooking(y.store) ==> (NoDoubleBooking(y'.store) <==> StillFree(y.store, snap.id, crew)))
            && (LogReplays(y.store) ==>
                  (LogReplays(y'.store) <==>
                     (CanTransition(y.store.trips[snap.id].status, ResourcesAssigned) ==> CanTransition(snap.row.status, ResourcesAssigned))))
  {
    var y := Reached(steps);
    var snap, crew := y.pending[call].snap, y.pending[call].crew;
    SnapshotMatches(y, call);
    OneMoreAssignment(y.store, snap, crew);
    hide Legal, CanTransition, StillFree, NoDoubleBooking, LogReplays, AssignCommit;
    assert Apply(y, CommitStep(call, now)).store == AssignCommit(y.store, snap, crew).value;
    if NoDoubleBooking(y.store) { LateAssignBooksExactlyWhen(y.store, snap, crew); }
    if LogReplays(y.store) { LateAssignReplaysExactlyWhen(y.store, snap, crew); }
  }
}
