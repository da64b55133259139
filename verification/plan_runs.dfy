// Safety of plans when generations, publications and trip operations interleave freely.
module PlanRuns {
  import opened Common
  import opened TripStateMachine
  import opened Trips
  import opened Plans
  import TripRuns

  datatype Board = Board(plans: seq<Plan>, exceptions: seq<PlanException>, store: Store, running: seq<Generation>)

  // A generation starts, plans its groups one by one, and may never finish.
  datatype Step =
    | StartStep(key: PlanKey)
    | PlanTripStep(g: nat, directory: Directory, actor: int, input: NewTrip)
    | RaiseStep(g: nat, kind: ExceptionKind, groupSize: int)
    | FinishStep(g: nat, summary: Summary)
    | PublishStep(actor: int, id: int, now: int)
    | TripStep(step: TripRuns.Step)

  function Publish(b: Board, actor: int, id: int, now: int): Board {
    if PublishCheck(b.plans, b.exceptions, actor, id).Some? then b
    else
      var retired := Retire(b.plans, id);
      var scheduled := ScheduleTrips(b.store, actor, id, now, 0);
      Board(if scheduled.error.None? then WithStatus(retired, id, Published) else retired,
            b.exceptions, scheduled.store, b.running)
  }

  function Apply(b: Board, step: Step): Board
    requires RunningKnown(b)
  {
    match step
    case StartStep(key) =>
      b.(plans := b.plans + [NextPlan(b.plans, key)], running := b.running + [StartGeneration(b.plans, key)])
    case PlanTripStep(g, directory, actor, input) =>
      if g >= |b.running| then b
      else b.(store := TripRuns.OrUnchanged(b.store, CreateTrip(b.store, directory, actor, input.(plan := Some(b.running[g].plan)))))
    case RaiseStep(g, kind, size) =>
      if g >= |b.running| then b
      else b.(exceptions := b.exceptions + [PlanException(b.running[g].plan, kind, size, true)])
    case FinishStep(g, summary) =>
      if g >= |b.running| then b
      else b.(plans := Finish(b.plans, b.running[g], summary), running := RemoveAt(b.running, g))
    case PublishStep(actor, id, now) => Publish(b, actor, id, now)
    case TripStep(s) => if KnownPlan(b, s) then b.(store := TripRuns.Apply(b.store, s)) else b
  }

  // A trip made by hand may name a plan, which the database requires to exist.
  predicate KnownPlan(b: Board, step: TripRuns.Step) {
    step.CreateStep? && step.input.plan.Some? ==> 0 <= step.input.plan.value < |b.plans|
  }

  // The step makes a trip by hand for a plan that is already published.
  predicate JoinsPublished(b: Board, step: Step) {
    && step.TripStep? && step.step.CreateStep? && step.step.input.plan.Some?
    && 0 <= step.step.input.plan.value < |b.plans|
    && b.plans[step.step.input.plan.value].status == Published
    && CreateTrip(b.store, step.step.directory, step.step.actor, step.step.input).Ok?
  }

  // ---- Invariants ----

  ghost predicate RunningKnown(b: Board) {
    forall g | 0 <= g < |b.running| ::
      b.running[g].plan < |b.plans| && (b.running[g].previous.Some? ==> b.running[g].previous.value < |b.plans|)
  }

  function CountKey(plans: seq<Plan>, key: PlanKey, n: nat): nat
    requires n <= |plans|
  {
    if n == 0 then 0 else CountKey(plans, key, n - 1) + if plans[n - 1].key == key then 1 else 0
  }

  function LastBefore(plans: seq<Plan>, key: PlanKey, n: nat): (r: Option<nat>)
    requires n <= |plans|
    ensures r.Some? ==> r.value < n && plans[r.value].key == key
  {
    if n == 0 then None else if plans[n - 1].key == key then Some(n - 1) else LastBefore(plans, key, n - 1)
  }

  // The plans of one key are numbered 1, 2, 3, ... and each supersedes the one before it.
  ghost predicate Linked(plans: seq<Plan>) {
    forall i | 0 <= i < |plans| :: LinkedAt(plans, i)
  }

  ghost predicate LinkedAt(plans: seq<Plan>, i: int)
    requires 0 <= i < |plans|
  {
    && plans[i].version == CountKey(plans, plans[i].key, i) + 1
    && plans[i].supersedes == LastBefore(plans, plans[i].key, i)
  }

  ghost predicate OnePublished(plans: seq<Plan>) {
    forall i, j | 0 <= i < j < |plans| && plans[i].key == plans[j].key ::
      !(plans[i].status == Published && plans[j].status == Published)
  }

  ghost predicate Unfinished(p: Plan) {
    p.status == Optimizing || p.status == Superseded
  }

  ghost predicate RunningUnfinished(b: Board)
    requires RunningKnown(b)
  {
    && (forall g | 0 <= g < |b.running| :: Unfinished(b.plans[b.running[g].plan]))
    && (forall g, h | 0 <= g < h < |b.running| :: b.running[g].plan != b.running[h].plan)
  }

  // A published plan has no open exception and has left none of its trips merely created.
  ghost predicate PublishedClean(b: Board) {
    forall i | 0 <= i < |b.plans| && b.plans[i].status == Published :: Clean(b, i)
  }

  ghost predicate Clean(b: Board, i: int) {
    !HasOpenExceptions(b.exceptions, i) && NoCreatedTrips(b.store, i)
  }

  ghost predicate NewlyPublished(b: Board, b': Board, i: int)
    requires 0 <= i < |b.plans|
  {
    i < |b'.plans| && b.plans[i].status != Published && b'.plans[i].status == Published
  }

  ghost predicate PlansExist(b: Board) {
    && (forall k | 0 <= k < |b.store.trips| && b.store.trips[k].plan.Some? :: 0 <= b.store.trips[k].plan.value < |b.plans|)
    && (forall k | 0 <= k < |b.exceptions| :: 0 <= b.exceptions[k].plan < |b.plans|)
  }

  ghost predicate Sound(b: Board) {
    RunningKnown(b) && Linked(b.plans) && OnePublished(b.plans) && RunningUnfinished(b) && PlansExist(b)
  }

  // ---- Versions ----

  lemma {:induction false} LatestIsLast(plans: seq<Plan>, key: PlanKey, n: nat)
    requires Linked(plans) && n <= |plans|
    ensures Latest(plans, key, n) == LastBefore(plans, key, n)
    ensures LastBefore(plans, key, n).Some? ==> plans[LastBefore(plans, key, n).value].version == CountKey(plans, key, n)
    ensures LastBefore(plans, key, n).None? ==> CountKey(plans, key, n) == 0
  {
    if n > 0 {
      assert LinkedAt(plans, n - 1);
      LatestIsLast(plans, key, n - 1);
    }
  }

  lemma {:induction false} SamePrefix(plans: seq<Plan>, plans': seq<Plan>, key: PlanKey, n: nat)
    requires n <= |plans| && n <= |plans'|
    requires forall i | 0 <= i < n :: plans'[i].key == plans[i].key
    ensures CountKey(plans', key, n) == CountKey(plans, key, n)
    ensures LastBefore(plans', key, n) == LastBefore(plans, key, n)
  {
    if n > 0 { SamePrefix(plans, plans', key, n - 1); }
  }

  // Finishing and publishing touch only the status and the summary of plans.
  ghost predicate SameIdentity(plans: seq<Plan>, plans': seq<Plan>) {
    && |plans'| == |plans|
    && forall i | 0 <= i < |plans| ::
         && plans'[i].key == plans[i].key && plans'[i].version == plans[i].version
         && plans'[i].supersedes == plans[i].supersedes
  }

  lemma LinkedUnaffected(plans: seq<Plan>, plans': seq<Plan>)
    requires Linked(plans) && SameIdentity(plans, plans')
    ensures Linked(plans')
  {
    forall i | 0 <= i < |plans'| ensures LinkedAt(plans', i) {
      assert LinkedAt(plans, i);
      SamePrefix(plans, plans', plans[i].key, i);
    }
  }

  lemma LinkedPush(plans: seq<Plan>, p: Plan)
    requires Linked(plans)
    requires p.version == CountKey(plans, p.key, |plans|) + 1
    requires p.supersedes == LastBefore(plans, p.key, |plans|)
    ensures Linked(plans + [p])
  {
    var plans' := plans + [p];
    forall i | 0 <= i < |plans'| ensures LinkedAt(plans', i) {
      if i < |plans| { assert LinkedAt(plans, i); }
      SamePrefix(plans, plans', plans'[i].key, i);
    }
  }

  lemma StartLinked(plans: seq<Plan>, key: PlanKey)
    requires Linked(plans)
    ensures Linked(plans + [NextPlan(plans, key)])
  {
    LatestIsLast(plans, key, |plans|);
    LinkedPush(plans, NextPlan(plans, key));
  }

  // ---- Each step ----

  lemma StartSound(b: Board, key: PlanKey)
    requires Sound(b)
    ensures Sound(Apply(b, StartStep(key)))
    ensures PublishedClean(b) ==> PublishedClean(Apply(b, StartStep(key)))
  {
    var b' := Apply(b, StartStep(key));
    StartLinked(b.plans, key);
    assert forall g | 0 <= g < |b.running| :: b'.running[g] == b.running[g];
  }

  lemma RaiseSound(b: Board, g: nat, kind: ExceptionKind, size: int)
    requires Sound(b) && g < |b.running|
    ensures Sound(Apply(b, RaiseStep(g, kind, size)))
    ensures PublishedClean(b) ==> PublishedClean(Apply(b, RaiseStep(g, kind, size)))
  {
    var b' := Apply(b, RaiseStep(g, kind, size));
    assert Unfinished(b.plans[b.running[g].plan]);
    forall i | 0 <= i < |b.plans| && b.plans[i].status == Published && !HasOpenExceptions(b.exceptions, i)
      ensures !HasOpenExceptions(b'.exceptions, i)
    {
    }
  }

  lemma PlanTripSound(b: Board, g: nat, directory: Directory, actor: int, input: NewTrip)
    requires Sound(b) && g < |b.running|
    ensures Sound(Apply(b, PlanTripStep(g, directory, actor, input)))
    ensures PublishedClean(b) ==> PublishedClean(Apply(b, PlanTripStep(g, directory, actor, input)))
  {
    assert Unfinished(b.plans[b.running[g].plan]);
  }

  // What a step may do to the statuses: `chosen` is the only plan that may become published.
  ghost predicate StatusesMove(plans: seq<Plan>, plans': seq<Plan>, chosen: int)
    requires |plans| == |plans'|
  {
    forall i | 0 <= i < |plans| && i != chosen ::
      && (plans'[i].status == Published ==> plans[i].status == Published)
      && (Unfinished(plans[i]) ==> Unfinished(plans'[i]))
  }

  lemma FinishMoves(plans: seq<Plan>, g: Generation, summary: Summary)
    requires g.plan < |plans| && (g.previous.Some? ==> g.previous.value < |plans|)
    ensures SameIdentity(plans, Finish(plans, g, summary))
    ensures StatusesMove(plans, Finish(plans, g, summary), g.plan)
    ensures Finish(plans, g, summary)[g.plan].status != Published
  {
  }

  lemma OthersStillRunning(b: Board, g: nat, plans': seq<Plan>)
    requires RunningKnown(b) && RunningUnfinished(b) && g < |b.running|
    requires |plans'| == |b.plans| && StatusesMove(b.plans, plans', b.running[g].plan)
    ensures var b' := b.(plans := plans', running := RemoveAt(b.running, g));
            RunningKnown(b') && RunningUnfinished(b')
  {
    var rest := RemoveAt(b.running, g);
    forall h | 0 <= h < |rest|
      ensures rest[h] == b.running[if h < g then h else h + 1]
      ensures Unfinished(plans'[rest[h].plan])
    {
      assert Unfinished(b.plans[b.running[if h < g then h else h + 1].plan]);
    }
  }

  lemma NoneNewlyPublished(b: Board, plans': seq<Plan>)
    requires OnePublished(b.plans) && SameIdentity(b.plans, plans')
    requires forall i | 0 <= i < |plans'| && plans'[i].status == Published :: b.plans[i].status == Published
    ensures OnePublished(plans') && (PublishedClean(b) ==> PublishedClean(b.(plans := plans')))
  {
  }

  lemma FinishSound(b: Board, g: nat, summary: Summary)
    requires Sound(b) && g < |b.running|
    ensures Sound(Apply(b, FinishStep(g, summary)))
    ensures PublishedClean(b) ==> PublishedClean(Apply(b, FinishStep(g, summary)))
  {
    var plans' := Finish(b.plans, b.running[g], summary);
    FinishMoves(b.plans, b.running[g], summary);
    LinkedUnaffected(b.plans, plans');
    OthersStillRunning(b, g, plans');
    NoneNewlyPublished(b, plans');
  }

  lemma RetireMoves(plans: seq<Plan>, id: nat)
    requires id < |plans| && OnePublished(plans)
    ensures SameIdentity(plans, Retire(plans, id)) && StatusesMove(plans, Retire(plans, id), -1)
    ensures forall i | 0 <= i < |plans| && i != id && plans[i].key == plans[id].key ::
              Retire(plans, id)[i].status != Published
  {
  }

  lemma AllStillRunning(b: Board, b': Board, chosen: int)
    requires RunningKnown(b) && RunningUnfinished(b) && b'.running == b.running
    requires |b'.plans| == |b.plans| && StatusesMove(b.plans, b'.plans, chosen)
    requires 0 <= chosen < |b.plans| && !Unfinished(b.plans[chosen])
    ensures RunningKnown(b') && RunningUnfinished(b')
  {
    forall g | 0 <= g < |b.running| ensures Unfinished(b'.plans[b'.running[g].plan]) {
      assert Unfinished(b.plans[b.running[g].plan]);
    }
  }

  lemma PublishedStaysClean(b: Board, b': Board, id: nat)
    requires PublishedClean(b) && |b'.plans| == |b.plans| && StatusesMove(b.plans, b'.plans, id)
    requires b'.exceptions == b.exceptions && TripsMoveOn(b.store, b'.store)
    requires |b'.store.trips| == |b.store.trips|
    requires id < |b.plans| && !HasOpenExceptions(b.exceptions, id)
    requires b'.plans[id].status == Published ==> NoCreatedTrips(b'.store, id)
    ensures PublishedClean(b')
  {
    forall i | 0 <= i < |b'.plans| && b'.plans[i].status == Published
      ensures !HasOpenExceptions(b'.exceptions, i) && NoCreatedTrips(b'.store, i)
    {
      if i != id { assert NoCreatedTrips(b.store, i); }
    }
  }

  lemma PublishedOnce(plans: seq<Plan>, retired: seq<Plan>, id: nat)
    requires id < |plans| && OnePublished(plans)
    requires SameIdentity(plans, retired) && StatusesMove(plans, retired, -1)
    requires forall i | 0 <= i < |plans| && i != id && plans[i].key == plans[id].key :: retired[i].status != Published
    ensures OnePublished(retired) && OnePublished(WithStatus(retired, id, Published))
  {
  }

  lemma PublishSound(b: Board, actor: int, id: int, now: int)
    requires Sound(b)
    ensures Sound(Apply(b, PublishStep(actor, id, now)))
    ensures PublishedClean(b) ==> PublishedClean(Apply(b, PublishStep(actor, id, now)))
    ensures forall i | 0 <= i < |b.plans| :: NewlyPublished(b, Apply(b, PublishStep(actor, id, now)), i) ==>
              Clean(Apply(b, PublishStep(actor, id, now)), i)
  {
    if PublishCheck(b.plans, b.exceptions, actor, id).None? {
      var b' := Publish(b, actor, id, now);
      RetireMoves(b.plans, id);
      PublishedOnce(b.plans, Retire(b.plans, id), id);
      ScheduleMovesOn(b.store, actor, id, now, 0);
      var scheduled := ScheduleTrips(b.store, actor, id, now, 0);
      assert scheduled.error.None? ==> NoCreatedTrips(scheduled.store, id);
      hide Retire, ScheduleTrips, HasOpenExceptions, NoCreatedTrips, Linked, OnePublished, PublishedClean;
      assert SameIdentity(b.plans, b'.plans);
      LinkedUnaffected(b.plans, b'.plans);
      AllStillRunning(b, b', id);
      if PublishedClean(b) { PublishedStaysClean(b, b', id); }
      assert PlansExist(b');
    }
  }

  // A trip operation moves rows on and may add one trip.
  lemma TripStepMovesOn(s: Store, step: TripRuns.Step)
    ensures var s' := TripRuns.Apply(s, step);
            && TripsMoveOn(s, s')
            && (|s'.trips| > |s.trips| ==>
                  && step.CreateStep? && CreateTrip(s, step.directory, step.actor, step.input).Ok?
                  && |s'.trips| == |s.trips| + 1
                  && Last(s'.trips).plan == step.input.plan && Last(s'.trips).status == Created)
            && (step.CreateStep? && CreateTrip(s, step.directory, step.actor, step.input).Ok? ==> |s'.trips| > |s.trips|)
  {
    if step.TransitionStep? && Transition(s, step.actor, step.id, step.to, step.now).Ok? {
      TransitionMovesOn(s, step.actor, step.id, step.to, step.now);
    }
  }

  // A published plan stays clean unless a trip is made for it by hand.
  lemma TripStepSound(b: Board, s: TripRuns.Step)
    requires Sound(b)
    ensures Sound(Apply(b, TripStep(s)))
    ensures PublishedClean(b) ==> (PublishedClean(Apply(b, TripStep(s))) <==> !JoinsPublished(b, TripStep(s)))
  {
    var b' := Apply(b, TripStep(s));
    TripStepMovesOn(b.store, s);
    hide TripRuns.Apply, CreateTrip;
    if JoinsPublished(b, TripStep(s)) {
      assert !NoCreatedTrips(b'.store, s.input.plan.value) by {
        assert b'.store.trips[|b.store.trips|].status == Created;
      }
    } else if PublishedClean(b) {
      forall i | 0 <= i < |b.plans| && b.plans[i].status == Published ensures Clean(b', i) {
        assert Clean(b, i);
      }
    }
  }

  // ---- Whole runs ----

  lemma StepSound(b: Board, step: Step)
    requires Sound(b)
    ensures Sound(Apply(b, step))
    ensures PublishedClean(b) ==> (PublishedClean(Apply(b, step)) <==> !JoinsPublished(b, step))
  {
    match step
    case StartStep(key) => StartSound(b, key);
    case PlanTripStep(g, directory, actor, input) => if g < |b.running| { PlanTripSound(b, g, directory, actor, input); }
    case RaiseStep(g, kind, size) => if g < |b.running| { RaiseSound(b, g, kind, size); }
    case FinishStep(g, summary) => if g < |b.running| { FinishSound(b, g, summary); }
    case PublishStep(actor, id, now) => PublishSound(b, actor, id, now);
    case TripStep(s) => TripStepSound(b, s);
  }

  // A plan becomes published only by being published, and only while it is clean.
  lemma PublishedWhenClean(b: Board, step: Step, i: int)
    requires Sound(b) && 0 <= i < |b.plans| && NewlyPublished(b, Apply(b, step), i)
    ensures step.PublishStep? && step.id == i && Clean(Apply(b, step), i)
  {
    if step.PublishStep? {
      PublishSound(b, step.actor, step.id, step.now);
      if PublishCheck(b.plans, b.exceptions, step.actor, step.id).None? { RetireMoves(b.plans, step.id); }
    } else if step.FinishStep? && step.g < |b.running| {
      FinishMoves(b.plans, b.running[step.g], step.summary);
    }
  }

  const EMPTY := Board([], [], TripRuns.EMPTY, [])

  // A run, as the boards it passes through.
  ghost predicate IsRun(boards: seq<Board>, steps: seq<Step>) {
    && |boards| == |steps| + 1 && boards[0] == EMPTY
    && forall k | 0 <= k < |steps| :: RunningKnown(boards[k]) && boards[k + 1] == Apply(boards[k], steps[k])
  }

  // Any steps at all make a run.
  lemma {:induction false} EveryStepsRun(steps: seq<Step>) returns (boards: seq<Board>)
    ensures IsRun(boards, steps)
  {
    if steps == [] {
      boards := [EMPTY];
    } else {
      var init, last := steps[..|steps| - 1], Last(steps);
      var before := EveryStepsRun(init);
      EveryRunIsSound(before, init, |init|);
      boards := before + [Apply(Last(before), last)];
      hide Apply, RunningKnown;
      forall k | 0 <= k < |steps| ensures RunningKnown(boards[k]) && boards[k + 1] == Apply(boards[k], steps[k]) {
        if k < |init| { assert RunningKnown(before[k]) && before[k + 1] == Apply(before[k], init[k]); }
      }
    }
  }

  // However generations, publications and trip operations interleave, plans stay numbered and
  // linked, and at most one plan per shift and day is published.
  lemma {:induction false} EveryRunIsSound(boards: seq<Board>, steps: seq<Step>, k: nat)
    requires IsRun(boards, steps) && k <= |steps|
    ensures Sound(boards[k])
  {
    if k == 0 {
    } else {
      hide Apply, Sound;
      EveryRunIsSound(boards, steps, k - 1);
      StepSound(boards[k - 1], steps[k - 1]);
    }
  }

  // And no published plan has an open exception or a trip that is merely created, as long as
  // nobody makes a trip by hand for a plan that is already published.
  lemma {:induction false} PublishedPlansAreClean(boards: seq<Board>, steps: seq<Step>, k: nat)
    requires IsRun(boards, steps) && k <= |steps|
    requires forall j | 0 <= j < k :: !JoinsPublished(boards[j], steps[j])
    ensures PublishedClean(boards[k])
  {
    if k > 0 {
      hide Apply, Sound, PublishedClean, JoinsPublished;
      PublishedPlansAreClean(boards, steps, k - 1);
      EveryRunIsSound(boards, steps, k - 1);
      StepSound(boards[k - 1], steps[k - 1]);
    }
  }

  // ---- Trips on the board ----

  // Whatever a step does to the trips, trip operations could have done.
  lemma StepReaches(b: Board, step: Step)
    requires Sound(b)
    ensures TripRuns.Reaches(b.store, Apply(b, step).store)
  {
    hide TripRuns.Reaches, CreateTrip, Linked, OnePublished, RunningUnfinished, PlansExist;
    TripRuns.StepReaches(b.store, TripRuns.LogStep(0, ""));
    match step
    case PlanTripStep(g, directory, actor, input) =>
      if g < |b.running| {
        TripRuns.StepReaches(b.store, TripRuns.CreateStep(directory, actor, input.(plan := Some(b.running[g].plan))));
      }
    case PublishStep(actor, id, now) => ScheduleReaches(b.store, actor, id, now, 0);
    case TripStep(s) => TripRuns.StepReaches(b.store, s);
    case _ =>
  }

  lemma {:induction false} BoardReached(boards: seq<Board>, steps: seq<Step>, k: nat)
    requires IsRun(boards, steps) && k <= |steps|
    ensures TripRuns.Reaches(TripRuns.EMPTY, boards[k].store)
  {
    hide TripRuns.Reaches, Apply, Sound;
    if k == 0 {
      TripRuns.StepReaches(TripRuns.EMPTY, TripRuns.LogStep(0, ""));
    } else {
      BoardReached(boards, steps, k - 1);
      EveryRunIsSound(boards, steps, k - 1);
      StepReaches(boards[k - 1], steps[k - 1]);
      TripRuns.ReachesOn(TripRuns.EMPTY, boards[k - 1].store, boards[k].store);
    }
  }

  // So no run of generations, publications and trip operations double-books a resource, leaves
  // two active assignments on a trip, or lets the log disagree with a row.
  lemma EveryRunIsConsistent(boards: seq<Board>, steps: seq<Step>, k: nat)
    requires IsRun(boards, steps) && k <= |steps|
    ensures Consistent(boards[k].store)
  {
    BoardReached(boards, steps, k);
    TripRuns.ReachedIsConsistent(TripRuns.EMPTY, boards[k].store);
  }

  // ---- A run in which a published plan stops being clean ----

  const NIGHT := PlanKey(1, 1, 1)
  const NOTHING := Summary(0, 0, 0, 0, 0)
  const MADE := Plan(NIGHT, 1, None, Optimizing, None)
  const STARTED := Board([MADE], [], TripRuns.EMPTY, [Generation(0, None, Draft)])
  const FINISHED := Board([MADE.(status := Ready, summary := Some(NOTHING))], [], TripRuns.EMPTY, [])
  const OUT := FINISHED.(plans := [MADE.(status := Published, summary := Some(NOTHING))])
  const JOIN := TripStep(TripRuns.CreateStep(map[], 1, NewTrip(None, None, Some(0), 0, None, [])))

  lemma EmptyPlanPublished()
    ensures Apply(EMPTY, StartStep(NIGHT)) == STARTED
    ensures RunningKnown(STARTED) && Apply(STARTED, FinishStep(0, NOTHING)) == FINISHED
    ensures RunningKnown(FINISHED) && Apply(FINISHED, PublishStep(1, 0, 0)) == OUT
  {
    assert Latest([], NIGHT, 0) == None;
    assert FINISHED.store.trips == [];
    assert !HasOpenExceptions([], 0);
  }

  // A plan without trips is generated and published, and then a trip is made for it by hand.
  lemma TripJoinsPublished() returns (boards: seq<Board>, steps: seq<Step>)
    ensures IsRun(boards, steps) && |steps| == 4
    ensures boards[3] == OUT && PublishedClean(OUT)
    ensures boards[4].plans == OUT.plans && !PublishedClean(boards[4])
  {
    EmptyPlanPublished();
    steps := [StartStep(NIGHT), FinishStep(0, NOTHING), PublishStep(1, 0, 0), JOIN];
    boards := [EMPTY, STARTED, FINISHED, OUT, Apply(OUT, JOIN)];
    assert forall e :: e in JOIN.step.input.employees ==> false;
    assert JoinsPublished(OUT, JOIN);
    assert PublishedClean(OUT);
    hide Apply;
    assert IsRun(boards, steps) by {
      forall k | 0 <= k < |steps| ensures RunningKnown(boards[k]) && boards[k + 1] == Apply(boards[k], steps[k]) {
        assert k == 0 || k == 1 || k == 2 || k == 3;
      }
    }
    EveryRunIsSound(boards, steps, 3);
    StepSound(boards[3], steps[3]);
    SamePlans(OUT);
  }

  lemma SamePlans(b: Board)
    requires RunningKnown(b)
    ensures Apply(b, JOIN).plans == b.plans
  {
  }
}
