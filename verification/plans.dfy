// Transport plans: versioned rows, their exceptions, and the steps of generating and publishing.
module Plans {
  import opened Common
  import opened TripStateMachine
  import opened Trips
  import TripRuns

  datatype PlanStatus = Draft | Optimizing | Validating | WithExceptions | Ready | Published | Superseded | Withdrawn

  datatype PlanKey = PlanKey(corporate: int, shift: int, date: int)

  datatype Summary = Summary(demand: int, trips: int, exceptions: int, guards: int, unassigned: int)

  datatype Plan = Plan(key: PlanKey, version: int, supersedes: Option<int>, status: PlanStatus, summary: Option<Summary>)

  datatype ExceptionKind = NoEligibleVehicle | NoGuardAvailable | SafetyRuleImpossible

  datatype PlanException = PlanException(plan: int, kind: ExceptionKind, groupSize: int, open: bool)

  datatype PlanError = PlanNotFound | NotThisCorporate | UnresolvedExceptions | NotPublishable | TripNotMoved(error: Error)

  // ---- Starting ----

  // Among the first n plans, the one with this key and the highest version.
  function Latest(plans: seq<Plan>, key: PlanKey, n: nat): (r: Option<nat>)
    requires n <= |plans|
    ensures r.Some? ==> r.value < n && plans[r.value].key == key
  {
    if n == 0 then None
    else
      var before := Latest(plans, key, n - 1);
      if plans[n - 1].key == key && (before.None? || plans[n - 1].version > plans[before.value].version)
      then Some(n - 1) else before
  }

  function NextPlan(plans: seq<Plan>, key: PlanKey): Plan {
    var previous := Latest(plans, key, |plans|);
    Plan(key, (if previous.Some? then plans[previous.value].version else 0) + 1, previous, Optimizing, None)
  }

  // A generation under way: its plan, and the previous plan as it was read at the start.
  datatype Generation = Generation(plan: nat, previous: Option<nat>, previousStatus: PlanStatus)

  function StartGeneration(plans: seq<Plan>, key: PlanKey): Generation {
    var previous := Latest(plans, key, |plans|);
    Generation(|plans|, previous, if previous.Some? then plans[previous.value].status else Draft)
  }

  // ---- Finishing ----

  function WithStatus(plans: seq<Plan>, id: nat, status: PlanStatus): (r: seq<Plan>)
    requires id < |plans|
    ensures |r| == |plans|
  {
    plans[id := plans[id].(status := status)]
  }

  function Finish(plans: seq<Plan>, g: Generation, summary: Summary): (r: seq<Plan>)
    requires g.plan < |plans| && (g.previous.Some? ==> g.previous.value < |plans|)
    ensures |r| == |plans|
  {
    var done := plans[g.plan := plans[g.plan].(
      status := if summary.exceptions > 0 then WithExceptions else Ready, summary := Some(summary))];
    if g.previous.Some? && g.previousStatus != Superseded then WithStatus(done, g.previous.value, Superseded) else done
  }

  // ---- Publishing ----

  predicate HasOpenExceptions(exceptions: seq<PlanException>, id: int) {
    exists k | 0 <= k < |exceptions| :: exceptions[k].plan == id && exceptions[k].open
  }

  function PublishCheck(plans: seq<Plan>, exceptions: seq<PlanException>, actor: int, id: int): Option<PlanError> {
    if !(0 <= id < |plans|) then Some(PlanNotFound)
    else if plans[id].key.corporate != actor then Some(NotThisCorporate)
    else if HasOpenExceptions(exceptions, id) then Some(UnresolvedExceptions)
    else if plans[id].status != Ready && plans[id].status != WithExceptions then Some(NotPublishable)
    else None
  }

  // The first of the first n plans with this key that is published.
  function PublishedAmong(plans: seq<Plan>, key: PlanKey, n: nat): (r: Option<nat>)
    requires n <= |plans|
    ensures r.Some? ==> r.value < n && plans[r.value].key == key && plans[r.value].status == Published
    ensures r.None? ==> forall i | 0 <= i < n :: plans[i].key != key || plans[i].status != Published
  {
    if n == 0 then None
    else
      var before := PublishedAmong(plans, key, n - 1);
      if before.Some? then before
      else if plans[n - 1].key == key && plans[n - 1].status == Published then Some(n - 1)
      else None
  }

  function Retire(plans: seq<Plan>, id: nat): (r: seq<Plan>)
    requires id < |plans|
    ensures |r| == |plans|
  {
    var published := PublishedAmong(plans, plans[id].key, |plans|);
    if published.Some? && published.value != id then WithStatus(plans, published.value, Superseded) else plans
  }

  datatype Scheduling = Scheduling(store: Store, error: Option<Error>)

  // Schedules the plan's trips that are still only created, from trip `from` on; stops at the
  // first that cannot be moved.
  function ScheduleTrips(s: Store, actor: int, plan: int, now: int, from: nat): (r: Scheduling)
    requires from <= |s.trips|
    ensures |r.store.trips| == |s.trips|
    decreases |s.trips| - from
  {
    if from == |s.trips| then Scheduling(s, None)
    else if s.trips[from].plan == Some(plan) && s.trips[from].status == Created then
      match Transition(s, actor, from, Scheduled, now)
      case Err(e) => Scheduling(s, Some(e))
      case Ok(s') => ScheduleTrips(s', actor, plan, now, from + 1)
    else ScheduleTrips(s, actor, plan, now, from + 1)
  }

  ghost predicate NoCreatedTrips(s: Store, plan: int) {
    NoneCreatedFrom(s, plan, 0)
  }

  lemma ScheduleEnd(s: Store, actor: int, plan: int, now: int)
    ensures ScheduleTrips(s, actor, plan, now, |s.trips|) == Scheduling(s, None)
  {
  }

  // One step of it.
  lemma ScheduleNext(s: Store, actor: int, plan: int, now: int, from: nat)
    requires from < |s.trips|
    ensures var t, rest := Transition(s, actor, from, Scheduled, now), ScheduleTrips(s, actor, plan, now, from);
            if s.trips[from].plan == Some(plan) && s.trips[from].status == Created then
              match t
              case Err(e) => rest == Scheduling(s, Some(e))
              case Ok(s') => |s'.trips| == |s.trips| && rest == ScheduleTrips(s', actor, plan, now, from + 1)
            else rest == ScheduleTrips(s, actor, plan, now, from + 1)
  {
    if Transition(s, actor, from, Scheduled, now).Ok? { TransitionMovesOn(s, actor, from, Scheduled, now); }
    hide Transition;
  }

  // Of the trips from `from` on, none of the plan is in Created.
  ghost predicate NoneCreatedFrom(s: Store, plan: int, from: nat) {
    forall k | from <= k < |s.trips| :: !(s.trips[k].plan == Some(plan) && s.trips[k].status == Created)
  }

  // Rows never change plan and never go back to Created.
  ghost predicate TripsMoveOn(s: Store, s': Store) {
    && |s.trips| <= |s'.trips|
    && forall k | 0 <= k < |s.trips| ::
         s'.trips[k].plan == s.trips[k].plan && (s'.trips[k].status == Created ==> s.trips[k].status == Created)
  }

  lemma TransitionMovesOn(s: Store, actor: int, id: int, to: Status, now: int)
    requires Transition(s, actor, id, to, now).Ok?
    ensures var s' := Transition(s, actor, id, to, now).value;
            TripsMoveOn(s, s') && |s'.trips| == |s.trips| && 0 <= id < |s.trips| && s'.trips[id].status == to
  {
    TripRuns.TransitionOutcome(s, actor, id, to, now);
    EdgeFacts(s.trips[id].status, to);
    hide Transition, CanTransition;
  }

  lemma MovesOnFurther(s: Store, s1: Store, s2: Store, plan: int, from: nat)
    requires TripsMoveOn(s, s1) && TripsMoveOn(s1, s2) && from < |s.trips|
    requires !(s1.trips[from].plan == Some(plan) && s1.trips[from].status == Created)
    ensures TripsMoveOn(s, s2)
    ensures NoneCreatedFrom(s2, plan, from + 1) ==> NoneCreatedFrom(s2, plan, from)
  {
  }

  lemma {:induction false} ScheduleMovesOn(s: Store, actor: int, plan: int, now: int, from: nat)
    requires from <= |s.trips|
    ensures var r := ScheduleTrips(s, actor, plan, now, from);
            TripsMoveOn(s, r.store) && (r.error.None? ==> NoneCreatedFrom(r.store, plan, from))
    decreases |s.trips| - from
  {
    hide Transition;
    if from < |s.trips| {
      var r := ScheduleTrips(s, actor, plan, now, from);
      var moves := s.trips[from].plan == Some(plan) && s.trips[from].status == Created;
      var t := Transition(s, actor, from, Scheduled, now);
      if t.Ok? { TransitionMovesOn(s, actor, from, Scheduled, now); }
      var next := if moves && t.Ok? then t.value else s;
      assert moves && t.Err? ==> r.store == s && r.error.Some?;
      assert !moves || t.Ok? ==> r == ScheduleTrips(next, actor, plan, now, from + 1);
      if !moves || t.Ok? {
        ScheduleMovesOn(next, actor, plan, now, from + 1);
        hide ScheduleTrips, TripsMoveOn, NoneCreatedFrom;
        MovesOnFurther(s, next, r.store, plan, from);
      }
    }
  }

  // Scheduling is a run of transitions.
  lemma {:induction false} ScheduleReaches(s: Store, actor: int, plan: int, now: int, from: nat)
    requires from <= |s.trips|
    ensures TripRuns.Reaches(s, ScheduleTrips(s, actor, plan, now, from).store)
    decreases |s.trips| - from
  {
    hide TripRuns.Reaches, Transition;
    var step := TripRuns.TransitionStep(actor, from, Scheduled, now);
    TripRuns.StepReaches(s, step);
    if from < |s.trips| {
      var moved := s.trips[from].plan == Some(plan) && s.trips[from].status == Created;
      if moved && Transition(s, actor, from, Scheduled, now).Ok? {
        var s1 := TripRuns.Apply(s, step);
        TransitionMovesOn(s, actor, from, Scheduled, now);
        ScheduleReaches(s1, actor, plan, now, from + 1);
        TripRuns.ReachesOn(s, s1, ScheduleTrips(s1, actor, plan, now, from + 1).store);
      } else if !moved {
        ScheduleReaches(s, actor, plan, now, from + 1);
      }
    }
  }
}
