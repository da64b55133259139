// What generating and publishing do to the rows of plans and trips, row by row.
module PlanLaws {
  import opened Common
  import opened TripStateMachine
  import opened Trips
  import opened TripRuns
  import opened TripLaws
  import opened Plans
  import opened PlanRuns

  // ---- Generating ----

  // The plan of that shift and day with the highest version, the first such if there are more.
  ghost predicate IsNewestOf(plans: seq<Plan>, key: PlanKey, i: int) {
    && 0 <= i < |plans| && plans[i].key == key
    && (forall j | 0 <= j < |plans| && plans[j].key == key :: plans[j].version <= plans[i].version)
    && (forall j | 0 <= j < i && plans[j].key == key :: plans[j].version < plans[i].version)
  }

  lemma {:induction false} LatestIsNewest(plans: seq<Plan>, key: PlanKey, n: nat)
    requires n <= |plans|
    ensures forall i :: IsNewestOf(plans[..n], key, i) <==> (i >= 0 && Latest(plans, key, n) == Some(i))
    ensures Latest(plans, key, n).None? <==> forall i | 0 <= i < n :: plans[i].key != key
  {
    if n > 0 {
      LatestIsNewest(plans, key, n - 1);
      var before := plans[..n - 1];
      var earlier, latest := Latest(plans, key, n - 1), Latest(plans, key, n);
      assert earlier.Some? ==> IsNewestOf(before, key, earlier.value);
      assert forall j | 0 <= j < n - 1 :: plans[..n][j] == before[j];
      if latest.Some? { assert IsNewestOf(plans[..n], key, latest.value); }
      forall i | IsNewestOf(plans[..n], key, i) ensures i >= 0 && latest == Some(i) {
        assert plans[..n][i].key == key;
      }
    }
  }

  // The new plan follows the newest one; when it is finished that one is superseded, and no other
  // plan is touched.
  lemma GeneratedExactly(plans: seq<Plan>, key: PlanKey, summary: Summary)
    ensures var done := Finish(plans + [NextPlan(plans, key)], StartGeneration(plans, key), summary);
            && |done| == |plans| + 1
            && done[|plans|].key == key && done[|plans|].summary == Some(summary)
            && done[|plans|].status == (if summary.exceptions > 0 then WithExceptions else Ready)
            && (forall i | 0 <= i < |plans| ::
                  done[i] == if IsNewestOf(plans, key, i) then plans[i].(status := Superseded) else plans[i])
            && (forall i :: IsNewestOf(plans, key, i) ==>
                  done[|plans|].version == plans[i].version + 1 && done[|plans|].supersedes == Some(i))
            && ((forall i | 0 <= i < |plans| :: plans[i].key != key) ==>
                  done[|plans|].version == 1 && done[|plans|].supersedes == None)
  {
    LatestIsNewest(plans, key, |plans|);
    assert plans[..|plans|] == plans;
    hide IsNewestOf, Latest;
  }

  // ---- Publishing ----

  ghost predicate HasOpen(exceptions: seq<PlanException>, id: int) {
    exists k :: 0 <= k < |exceptions| && exceptions[k].plan == id && exceptions[k].open
  }

  // Only the plan's corporate may publish it, without open exceptions, once it is generated.
  lemma PublishableExactlyWhen(plans: seq<Plan>, exceptions: seq<PlanException>, actor: int, id: int)
    ensures var check := PublishCheck(plans, exceptions, actor, id);
            && (check == Some(PlanNotFound) <==> !(0 <= id < |plans|))
            && (0 <= id < |plans| ==>
                  var own, generated := plans[id].key.corporate == actor, plans[id].status == Ready || plans[id].status == WithExceptions;
                  && (check == Some(NotThisCorporate) <==> !own)
                  && (check == Some(UnresolvedExceptions) <==> own && HasOpen(exceptions, id))
                  && (check == Some(NotPublishable) <==> own && !HasOpen(exceptions, id) && !generated)
                  && (check == None <==> own && !HasOpen(exceptions, id) && generated))
  {
  }

  // The plan published before for the same shift and day is superseded, and no other one touched.
  lemma RetiredExactly(plans: seq<Plan>, id: nat)
    requires id < |plans| && OnePublished(plans)
    ensures forall i | 0 <= i < |plans| ::
              Retire(plans, id)[i] == if i != id && plans[i].key == plans[id].key && plans[i].status == Published && plans[id].status != Published
                                      then plans[i].(status := Superseded) else plans[i]
  {
  }

  // ---- Scheduling ----

  ghost predicate Due(t: Trip, plan: int) {
    t.plan == Some(plan) && t.status == Created
  }

  // The tables after scheduling the trips from `from` on.
  ghost predicate OnlyDueScheduled(s: Store, s': Store, plan: int, from: int) {
    && |s'.trips| == |s.trips| && s'.assignments == s.assignments
    && forall k | 0 <= k < |s.trips| ::
         s'.trips[k] == if k >= from && Due(s.trips[k], plan)
                        then s.trips[k].(status := Scheduled, version := s.trips[k].version + 1) else s.trips[k]
  }

  ghost predicate AllParty(s: Store, actor: int, plan: int, from: int) {
    forall k | from <= k < |s.trips| && 0 <= k && Due(s.trips[k], plan) :: PartyTo(actor, s.trips[k])
  }

  // One trip moves along, the rest as before.
  lemma OneScheduled(s: Store, next: Store, s': Store, actor: int, plan: int, from: nat)
    requires from < |s.trips| && Due(s.trips[from], plan) && next.assignments == s.assignments
    requires next.trips == s.trips[from := s.trips[from].(status := Scheduled, version := s.trips[from].version + 1)]
    ensures AllParty(s, actor, plan, from) <==> PartyTo(actor, s.trips[from]) && AllParty(next, actor, plan, from + 1)
    ensures OnlyDueScheduled(next, s', plan, from + 1) ==> OnlyDueScheduled(s, s', plan, from)
  {
    hide PartyTo;
    assert forall k | from < k < |s.trips| :: next.trips[k] == s.trips[k];
  }

  // Exactly the plan's created trips are scheduled, unless the caller is no party to one of them;
  // nothing else about any trip changes.
  lemma {:induction false} ScheduledExactly(s: Store, actor: int, plan: int, now: int, from: nat)
    requires from <= |s.trips|
    ensures var r := ScheduleTrips(s, actor, plan, now, from);
            && (r.error == None <==> AllParty(s, actor, plan, from))
            && (r.error != None ==> r.error == Some(NotAParty))
            && (r.error == None ==> OnlyDueScheduled(s, r.store, plan, from))
    decreases |s.trips| - from
  {
    if from < |s.trips| {
      assert CanTransition(Created, Scheduled);
      MovedExactlyWhen(s, actor, from, Scheduled, now);
      ScheduleNext(s, actor, plan, now, from);
      if Due(s.trips[from], plan) {
        if PartyTo(actor, s.trips[from]) {
          TransitionOutcome(s, actor, from, Scheduled, now);
          var next := Transition(s, actor, from, Scheduled, now).value;
          hide Transition, ScheduleTrips, CanTransition, PartyTo, AllParty, OnlyDueScheduled;
          ScheduledExactly(next, actor, plan, now, from + 1);
          OneScheduled(s, next, ScheduleTrips(s, actor, plan, now, from).store, actor, plan, from);
        }
      } else {
        ScheduledExactly(s, actor, plan, now, from + 1);
      }
    }
  }
}
