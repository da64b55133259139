// Driver payment vouchers: periodic sums over completed trips.
module DriverPay {
  import opened Common
  import opened TripStateMachine
  import opened Trips
  import opened TripRuns
  import opened TripCharges

  // What a voucher is for: one driver of one vendor, over a closed period of completion times.
  datatype Claim = Claim(vendor: int, driver: int, start: int, end: int)
  {
    predicate Covers(trip: Trip, holder: Option<int>) {
      && holder == Some(driver) && trip.vendorOrg == Some(vendor)
      && trip.status == Completed
      && trip.actualEnd.Some? && start <= trip.actualEnd.value <= end
    }
  }

  predicate Pays(s: Store, claim: Claim, a: Assignment) {
    a.active && 0 <= a.trip < |s.trips| && claim.Covers(s.trips[a.trip], a.crew.driver)
  }

  function Due(s: Store, charges: map<int, StoredCharge>, claim: Claim, a: Assignment): real {
    if Pays(s, claim, a) then PayableFor(charges, a.trip) else 0.0
  }

  // The sum over the first n assignments.
  function GrossOf(s: Store, charges: map<int, StoredCharge>, claim: Claim, n: nat): real
    requires n <= |s.assignments|
  {
    if n == 0 then 0.0
    else GrossOf(s, charges, claim, n - 1) + Due(s, charges, claim, s.assignments[n - 1])
  }

  function Gross(s: Store, charges: map<int, StoredCharge>, claim: Claim): real {
    GrossOf(s, charges, claim, |s.assignments|)
  }

  // ---- Pay is conserved ----

  function TotalGross(s: Store, charges: map<int, StoredCharge>, claims: seq<Claim>): real {
    if claims == [] then 0.0
    else TotalGross(s, charges, claims[..|claims| - 1]) + Gross(s, charges, Last(claims))
  }

  predicate Apart(c: Claim, d: Claim) {
    c.vendor != d.vendor || c.driver != d.driver || c.end < d.start || d.end < c.start
  }

  ghost predicate AllApart(claims: seq<Claim>) {
    forall i, j | 0 <= i < j < |claims| :: Apart(claims[i], claims[j])
  }

  ghost predicate PaidBy(s: Store, claims: seq<Claim>, a: Assignment) {
    exists c :: c in claims && Pays(s, c, a)
  }

  // The trip is paid through one of the first n assignments.
  ghost predicate PaidTrip(s: Store, claims: seq<Claim>, id: int, n: nat)
    requires n <= |s.assignments|
  {
    exists k :: 0 <= k < n && s.assignments[k].trip == id && PaidBy(s, claims, s.assignments[k])
  }

  // What the first n assignments earn, each counted at most once.
  ghost function EarnedThrough(s: Store, charges: map<int, StoredCharge>, claims: seq<Claim>, n: nat): real
    requires n <= |s.assignments|
  {
    if n == 0 then 0.0
    else EarnedThrough(s, charges, claims, n - 1)
         + if PaidBy(s, claims, s.assignments[n - 1]) then PayableFor(charges, s.assignments[n - 1].trip) else 0.0
  }

  // The payable of the trips below m that the first n assignments cover, each counted once.
  ghost function EarnedByTrips(s: Store, charges: map<int, StoredCharge>, claims: seq<Claim>, n: nat, m: nat): real
    requires n <= |s.assignments|
    decreases m
  {
    if m == 0 then 0.0
    else EarnedByTrips(s, charges, claims, n, m - 1)
         + if PaidTrip(s, claims, m - 1, n) then PayableFor(charges, m - 1) else 0.0
  }

  lemma {:induction false} NoClaimsEarnNothing(s: Store, charges: map<int, StoredCharge>, n: nat)
    requires n <= |s.assignments|
    ensures EarnedThrough(s, charges, [], n) == 0.0
  {
    if n > 0 { NoClaimsEarnNothing(s, charges, n - 1); }
  }

  // One more claim, apart from the others, adds its gross.
  lemma {:induction false} OneMoreClaim(s: Store, charges: map<int, StoredCharge>, claims: seq<Claim>, claim: Claim, n: nat)
    requires n <= |s.assignments|
    requires forall c :: c in claims ==> Apart(c, claim)
    ensures EarnedThrough(s, charges, claims + [claim], n) == EarnedThrough(s, charges, claims, n) + GrossOf(s, charges, claim, n)
  {
    if n > 0 {
      OneMoreClaim(s, charges, claims, claim, n - 1);
      var a := s.assignments[n - 1];
      assert PaidBy(s, claims + [claim], a) <==> PaidBy(s, claims, a) || Pays(s, claim, a) by {
        if PaidBy(s, claims, a) {
          var c :| c in claims && Pays(s, c, a);
          assert c in claims + [claim];
        }
        assert claim in claims + [claim];
      }
      assert !(PaidBy(s, claims, a) && Pays(s, claim, a));
    }
  }

  lemma {:induction false} TotalIsEarned(s: Store, charges: map<int, StoredCharge>, claims: seq<Claim>)
    requires AllApart(claims)
    ensures TotalGross(s, charges, claims) == EarnedThrough(s, charges, claims, |s.assignments|)
  {
    if claims == [] {
      NoClaimsEarnNothing(s, charges, |s.assignments|);
    } else {
      var init := claims[..|claims| - 1];
      TotalIsEarned(s, charges, init);
      OneMoreClaim(s, charges, init, Last(claims), |s.assignments|);
      assert claims == init + [Last(claims)];
    }
  }

  lemma {:induction false} NoAssignmentsNoTrips(s: Store, charges: map<int, StoredCharge>, claims: seq<Claim>, m: nat)
    ensures EarnedByTrips(s, charges, claims, 0, m) == 0.0
  {
    if m > 0 { NoAssignmentsNoTrips(s, charges, claims, m - 1); }
  }

  // One more assignment adds its trip's payable, and to no other trip.
  lemma {:induction false} OneMoreAssignment(s: Store, charges: map<int, StoredCharge>, claims: seq<Claim>, n: nat, m: nat)
    requires OneActive(s) && 0 < n <= |s.assignments|
    ensures var a := s.assignments[n - 1];
            EarnedByTrips(s, charges, claims, n, m)
            == EarnedByTrips(s, charges, claims, n - 1, m)
               + if a.trip < m && PaidBy(s, claims, a) then PayableFor(charges, a.trip) else 0.0
  {
    if m > 0 {
      OneMoreAssignment(s, charges, claims, n, m - 1);
      PaidTripGrows(s, claims, m - 1, n);
    } else {
      assert PaidBy(s, claims, s.assignments[n - 1]) ==> s.assignments[n - 1].trip >= 0;
    }
  }

  lemma PaidTripGrows(s: Store, claims: seq<Claim>, id: int, n: nat)
    requires OneActive(s) && 0 < n <= |s.assignments|
    ensures var a := s.assignments[n - 1];
            && (PaidTrip(s, claims, id, n) <==> PaidTrip(s, claims, id, n - 1) || (a.trip == id && PaidBy(s, claims, a)))
            && !(PaidTrip(s, claims, id, n - 1) && a.trip == id && PaidBy(s, claims, a))
  {
    var a := s.assignments[n - 1];
    if PaidTrip(s, claims, id, n - 1) {
      var k :| 0 <= k < n - 1 && s.assignments[k].trip == id && PaidBy(s, claims, s.assignments[k]);
      assert s.assignments[k].active;
      assert PaidBy(s, claims, a) ==> a.active;
    }
  }

  lemma {:induction false} EarnedTripByTrip(s: Store, charges: map<int, StoredCharge>, claims: seq<Claim>, n: nat)
    requires OneActive(s) && n <= |s.assignments|
    ensures EarnedThrough(s, charges, claims, n) == EarnedByTrips(s, charges, claims, n, |s.trips|)
  {
    if n == 0 {
      NoAssignmentsNoTrips(s, charges, claims, |s.trips|);
    } else {
      EarnedTripByTrip(s, charges, claims, n - 1);
      OneMoreAssignment(s, charges, claims, n, |s.trips|);
      assert PaidBy(s, claims, s.assignments[n - 1]) ==> s.assignments[n - 1].trip < |s.trips|;
    }
  }

  // Vouchers that do not overlap pay, between them, exactly the payable of the distinct
  // completed trips they cover.
  lemma PayIsConserved(steps: seq<Step>, charges: map<int, StoredCharge>, claims: seq<Claim>)
    requires AllApart(claims)
    ensures var s := Run(EMPTY, steps);
            TotalGross(s, charges, claims) == EarnedByTrips(s, charges, claims, |s.assignments|, |s.trips|)
  {
    var s := Run(EMPTY, steps);
    EveryRunIsSafe(steps);
    TotalIsEarned(s, charges, claims);
    EarnedTripByTrip(s, charges, claims, |s.assignments|);
  }

  // ---- The same in terms of the trips alone ----

  // A completed trip of the claim's vendor that ended in its period, both ends included, and
  // whose active assignment names its driver.
  ghost predicate Earns(s: Store, c: Claim, id: int) {
    && 0 <= id < |s.trips| && s.trips[id].status == Completed && s.trips[id].vendorOrg == Some(c.vendor)
    && s.trips[id].actualEnd.Some? && c.start <= s.trips[id].actualEnd.value && s.trips[id].actualEnd.value <= c.end
    && exists k :: 0 <= k < |s.assignments| && s.assignments[k].active && s.assignments[k].trip == id
                   && s.assignments[k].crew.driver == Some(c.driver)
  }

  ghost predicate EarnsOne(s: Store, claims: seq<Claim>, id: int) {
    exists c :: c in claims && Earns(s, c, id)
  }

  // The vendor payable of the trips below m that some claim covers, each once; a trip without a
  // charge owes nothing.
  ghost function OwedFor(s: Store, charges: map<int, StoredCharge>, claims: seq<Claim>, m: nat): real {
    if m == 0 then 0.0
    else OwedFor(s, charges, claims, m - 1)
         + if EarnsOne(s, claims, m - 1) && m - 1 in charges then charges[m - 1].priced.charge.vendorPayable else 0.0
  }

  lemma EarnsExactlyWhen(s: Store, claims: seq<Claim>, id: int)
    requires 0 <= id < |s.trips|
    ensures EarnsOne(s, claims, id) <==> PaidTrip(s, claims, id, |s.assignments|)
  {
    if EarnsOne(s, claims, id) {
      var c :| c in claims && Earns(s, c, id);
      var k :| 0 <= k < |s.assignments| && s.assignments[k].active && s.assignments[k].trip == id
               && s.assignments[k].crew.driver == Some(c.driver);
      assert Pays(s, c, s.assignments[k]) && PaidBy(s, claims, s.assignments[k]);
    }
    if PaidTrip(s, claims, id, |s.assignments|) {
      var k :| 0 <= k < |s.assignments| && s.assignments[k].trip == id && PaidBy(s, claims, s.assignments[k]);
      var c :| c in claims && Pays(s, c, s.assignments[k]);
      assert Earns(s, c, id);
    }
  }

  lemma {:induction false} OwedIsEarned(s: Store, charges: map<int, StoredCharge>, claims: seq<Claim>, m: nat)
    requires m <= |s.trips|
    ensures OwedFor(s, charges, claims, m) == EarnedByTrips(s, charges, claims, |s.assignments|, m)
  {
    if m > 0 {
      OwedIsEarned(s, charges, claims, m - 1);
      EarnsExactlyWhen(s, claims, m - 1);
      hide EarnsOne, PaidTrip;
    }
  }

  // Any vouchers that do not overlap pay the distinct completed trips they cover, once.
  lemma TripsArePaidOnce(steps: seq<Step>, charges: map<int, StoredCharge>, claims: seq<Claim>)
    requires forall i, j | 0 <= i < j < |claims| ::
               || claims[i].vendor != claims[j].vendor || claims[i].driver != claims[j].driver
               || claims[i].end < claims[j].start || claims[j].end < claims[i].start
    ensures var s := Run(EMPTY, steps);
            TotalGross(s, charges, claims) == OwedFor(s, charges, claims, |s.trips|)
  {
    forall i, j | 0 <= i < j < |claims| ensures Apart(claims[i], claims[j]) {}
    PayIsConserved(steps, charges, claims);
    OwedIsEarned(Run(EMPTY, steps), charges, claims, |Run(EMPTY, steps).trips|);
  }

  // One voucher's gross.
  lemma GrossIsOwed(s: Store, charges: map<int, StoredCharge>, claim: Claim)
    requires OneActive(s)
    ensures Gross(s, charges, claim) == OwedFor(s, charges, [claim], |s.trips|)
  {
    assert [claim][..0] == [];
    assert TotalGross(s, charges, [claim]) == TotalGross(s, charges, []) + Gross(s, charges, claim);
    TotalIsEarned(s, charges, [claim]);
    EarnedTripByTrip(s, charges, [claim], |s.assignments|);
    OwedIsEarned(s, charges, [claim], |s.trips|);
  }

  // ---- Pay settles once its period is over ----

  lemma {:induction false} SameDues(s: Store, s': Store, charges: map<int, StoredCharge>, claim: Claim, n: nat)
    requires n <= |s.assignments| && n <= |s'.assignments|
    requires forall k | 0 <= k < n :: Due(s, charges, claim, s.assignments[k]) == Due(s', charges, claim, s'.assignments[k])
    ensures GrossOf(s, charges, claim, n) == GrossOf(s', charges, claim, n)
  {
    if n > 0 { SameDues(s, s', charges, claim, n - 1); }
  }

  predicate OnCompleted(s: Store, step: Step) {
    step.AssignStep? && 0 <= step.id < |s.trips| && s.trips[step.id].status == Completed
  }

  lemma TransitionKeepsPay(s: Store, actor: int, id: int, to: Status, now: int, charges: map<int, StoredCharge>, claim: Claim)
    requires Transition(s, actor, id, to, now).Ok? && claim.end < now
    ensures Gross(Transition(s, actor, id, to, now).value, charges, claim) == Gross(s, charges, claim)
  {
    var s' := Transition(s, actor, id, to, now).value;
    EdgeFacts(s.trips[id].status, to);
    assert forall k | 0 <= k < |s.trips| && k != id :: s'.trips[k] == s.trips[k];
    assert s'.trips[id].status == to && (to == Completed ==> s'.trips[id].actualEnd == Some(now));
    assert s.trips[id].status != Completed && s'.assignments == s.assignments;
    hide Transition, CanTransition, PayableFor;
    SameDues(s, s', charges, claim, |s.assignments|);
  }

  lemma AssignKeepsPay(s: Store, fit: Fitness, actor: int, id: int, crew: Crew, charges: map<int, StoredCharge>, claim: Claim)
    requires Assign(s, fit, actor, id, crew).Ok? && s.trips[id].status != Completed
    ensures Gross(Assign(s, fit, actor, id, crew).value, charges, claim) == Gross(s, charges, claim)
  {
    var s' := Assign(s, fit, actor, id, crew).value;
    var n := |s.assignments|;
    assert forall k | 0 <= k < |s.trips| && k != id :: s'.trips[k] == s.trips[k];
    assert s'.trips[id].status != Completed;
    assert s'.assignments[n] == Assignment(id, crew, true);
    assert forall k | 0 <= k < n :: s'.assignments[k] == s.assignments[k] || s.assignments[k].trip == s'.assignments[k].trip == id;
    hide Assign, CanTransition, PayableFor;
    SameDues(s, s', charges, claim, n);
  }

  // After the period only giving a completed trip a new crew can change what it pays.
  lemma StepKeepsPay(s: Store, step: Step, charges: map<int, StoredCharge>, claim: Claim)
    requires Consistent(s) && !OnCompleted(s, step)
    requires step.TransitionStep? ==> claim.end < step.now
    ensures Gross(Apply(s, step), charges, claim) == Gross(s, charges, claim)
  {
    var s' := Apply(s, step);
    match step
    case TransitionStep(actor, id, to, now) =>
      if Transition(s, actor, id, to, now).Ok? { TransitionKeepsPay(s, actor, id, to, now, charges, claim); }
    case AssignStep(fit, actor, id, crew) =>
      if Assign(s, fit, actor, id, crew).Ok? { AssignKeepsPay(s, fit, actor, id, crew, charges, claim); }
    case _ =>
      assert s'.assignments == s.assignments && s.trips <= s'.trips;
      hide Apply, PayableFor;
      SameDues(s, s', charges, claim, |s.assignments|);
  }

  // From here on the clock is past the end, and no completed trip is given a new crew.
  ghost predicate Settling(s: Store, steps: seq<Step>, end: int)
    decreases |steps|
  {
    steps != [] ==>
      && !OnCompleted(s, steps[0]) && (steps[0].TransitionStep? ==> end < steps[0].now)
      && Settling(Apply(s, steps[0]), steps[1..], end)
  }

  lemma {:induction false} PayIsSettled(s: Store, steps: seq<Step>, charges: map<int, StoredCharge>, claim: Claim)
    requires Consistent(s) && Settling(s, steps, claim.end)
    ensures Gross(Run(s, steps), charges, claim) == Gross(s, charges, claim)
    decreases |steps|
  {
    if steps != [] {
      StepKeeps(s, steps[0]);
      StepKeepsPay(s, steps[0], charges, claim);
      PayIsSettled(Apply(s, steps[0]), steps[1..], charges, claim);
    }
  }

  // What the first n assignments earn on other trips than this one.
  function Elsewhere(s: Store, charges: map<int, StoredCharge>, claim: Claim, id: int, n: nat): real
    requires n <= |s.assignments|
  {
    if n == 0 then 0.0
    else Elsewhere(s, charges, claim, id, n - 1)
         + if s.assignments[n - 1].trip == id then 0.0 else Due(s, charges, claim, s.assignments[n - 1])
  }

  // One of the first n assignments is the trip's active one, and names this driver.
  ghost predicate DrivenBy(s: Store, id: int, driver: int, n: nat)
    requires n <= |s.assignments|
  {
    exists k :: 0 <= k < n && s.assignments[k].active && s.assignments[k].trip == id && s.assignments[k].crew.driver == Some(driver)
  }

  // A claim's gross is what it earns elsewhere and the payable of the trip, if it covers it.
  lemma {:induction false} SplitGross(s: Store, charges: map<int, StoredCharge>, claim: Claim, id: int, n: nat)
    requires OneActive(s) && n <= |s.assignments| && 0 <= id < |s.trips|
    ensures GrossOf(s, charges, claim, n) == Elsewhere(s, charges, claim, id, n)
              + if DrivenBy(s, id, claim.driver, n) && claim.Covers(s.trips[id], Some(claim.driver))
                then PayableFor(charges, id) else 0.0
  {
    if n > 0 {
      SplitGross(s, charges, claim, id, n - 1);
      var a := s.assignments[n - 1];
      if a.active && a.trip == id {
        assert !DrivenBy(s, id, claim.driver, n - 1);
      } else {
        assert DrivenBy(s, id, claim.driver, n) <==> DrivenBy(s, id, claim.driver, n - 1);
      }
    }
  }

  lemma {:induction false} SameElsewhere(s: Store, s': Store, charges: map<int, StoredCharge>, claim: Claim, id: int, n: nat)
    requires n <= |s.assignments| && n <= |s'.assignments| && s.trips == s'.trips
    requires forall k | 0 <= k < n :: s'.assignments[k] == s.assignments[k] || (s.assignments[k].trip == s'.assignments[k].trip == id)
    ensures Elsewhere(s, charges, claim, id, n) == Elsewhere(s', charges, claim, id, n)
  {
    if n > 0 { SameElsewhere(s, s', charges, claim, id, n - 1); }
  }

  // Giving the trip another crew takes its payable from one driver and gives it to the other.
  lemma NewCrewMovesPay(s: Store, fit: Fitness, actor: int, id: int, crew: Crew, charges: map<int, StoredCharge>, claim: Claim)
    requires Consistent(s) && Assign(s, fit, actor, id, crew).Ok? && s.trips[id].status == Completed
    ensures var covered := claim.Covers(s.trips[id], Some(claim.driver));
            Gross(Assign(s, fit, actor, id, crew).value, charges, claim) - Gross(s, charges, claim)
            == (if crew.driver == Some(claim.driver) && covered then PayableFor(charges, id) else 0.0)
               - (if DrivenBy(s, id, claim.driver, |s.assignments|) && covered then PayableFor(charges, id) else 0.0)
  {
    var s' := Assign(s, fit, actor, id, crew).value;
    var n := |s.assignments|;
    AssignKeepsBookings(s, fit, actor, id, crew);
    assert s'.assignments[n] == Assignment(id, crew, true);
    assert s'.trips == s.trips;
    assert DrivenBy(s', id, claim.driver, n + 1) <==> crew.driver == Some(claim.driver) by {
      if crew.driver == Some(claim.driver) { assert s'.assignments[n].active; }
    }
    hide AssignCheck, NoDoubleBooking, LogReplays, DrivenBy, Elsewhere, GrossOf, PayableFor;
    SplitGross(s, charges, claim, id, n);
    SplitGross(s', charges, claim, id, n + 1);
    SameElsewhere(s, s', charges, claim, id, n);
    assert Elsewhere(s', charges, claim, id, n + 1) == Elsewhere(s', charges, claim, id, n) by { LastElsewhere(s', charges, claim, id); }
  }

  lemma LastElsewhere(s: Store, charges: map<int, StoredCharge>, claim: Claim, id: int)
    requires s.assignments != [] && Last(s.assignments).trip == id
    ensures Elsewhere(s, charges, claim, id, |s.assignments|) == Elsewhere(s, charges, claim, id, |s.assignments| - 1)
  {
  }

  // Nothing stops a completed trip from being given another crew. That leaves every driver's pay
  // alone exactly when nothing is due for the trip or the same driver is named again.
  lemma LateCrewKeepsPayExactlyWhen(s: Store, fit: Fitness, actor: int, id: int, crew: Crew, charges: map<int, StoredCharge>)
    requires Consistent(s) && Assign(s, fit, actor, id, crew).Ok?
    requires s.trips[id].status == Completed && s.trips[id].vendorOrg.Some?
    ensures (forall claim :: Gross(Assign(s, fit, actor, id, crew).value, charges, claim) == Gross(s, charges, claim))
            <==> PayableFor(charges, id) == 0.0
                 || forall driver :: DrivenBy(s, id, driver, |s.assignments|) <==> crew.driver == Some(driver)
  {
    assert RowMatchesTrail(s.trips[id], Trail(s.events, id));
    var end := s.trips[id].actualEnd.value;
    hide Assign, Consistent, DrivenBy, GrossOf, Gross, PayableFor, Trail;
    forall claim: Claim
      ensures var covered := claim.Covers(s.trips[id], Some(claim.driver));
              Gross(Assign(s, fit, actor, id, crew).value, charges, claim) - Gross(s, charges, claim)
              == (if crew.driver == Some(claim.driver) && covered then PayableFor(charges, id) else 0.0)
                 - (if DrivenBy(s, id, claim.driver, |s.assignments|) && covered then PayableFor(charges, id) else 0.0)
    {
      NewCrewMovesPay(s, fit, actor, id, crew, charges, claim);
    }
    if (forall claim :: Gross(Assign(s, fit, actor, id, crew).value, charges, claim) == Gross(s, charges, claim))
       && PayableFor(charges, id) != 0.0 {
      forall driver ensures DrivenBy(s, id, driver, |s.assignments|) <==> crew.driver == Some(driver) {
        var claim := Claim(s.trips[id].vendorOrg.value, driver, end, end);
        assert Gross(Assign(s, fit, actor, id, crew).value, charges, claim) == Gross(s, charges, claim);
      }
    }
  }

  // ---- A run in which a late crew takes the pay ----

  ghost predicate OnlyTrip(s: Store, status: Status, end: Option<int>, assignments: seq<Assignment>) {
    && |s.trips| == 1 && s.trips[0].corporateOrg == 1 && s.trips[0].vendorOrg == Some(2)
    && s.trips[0].status == status && s.trips[0].actualEnd == end && s.assignments == assignments
  }

  const SOLO := CreateStep(map[], 1, NewTrip(Some(2), None, None, 0, None, []))

  function CrewOf(driver: int): Crew { Crew(Some(driver), None, None) }

  function GiveTo(driver: int): Step { AssignStep((_, _, _, _) => true, 1, 0, CrewOf(driver)) }

  lemma SoloCreated()
    ensures OnlyTrip(Run(EMPTY, [SOLO]), Created, None, [])
  {
    assert forall e :: e in SOLO.input.employees ==> false;
    RunOneMore(EMPTY, [], SOLO);
    assert [] + [SOLO] == [SOLO];
  }

  lemma SoloMoves(steps: seq<Step>, status: Status, assignments: seq<Assignment>, to: Status, now: int) returns (next: seq<Step>)
    requires OnlyTrip(Run(EMPTY, steps), status, None, assignments) && CanTransition(status, to)
    ensures next == steps + [TransitionStep(1, 0, to, now)]
    ensures OnlyTrip(Run(EMPTY, next), to, if to == Completed then Some(now) else None, assignments)
  {
    next := steps + [TransitionStep(1, 0, to, now)];
    RunOneMore(EMPTY, steps, TransitionStep(1, 0, to, now));
    TransitionOutcome(Run(EMPTY, steps), 1, 0, to, now);
    hide CanTransition, Run;
  }

  lemma SoloGiven(s: Store, status: Status, end: Option<int>, assignments: seq<Assignment>, driver: int)
    requires OnlyTrip(s, status, end, assignments)
    requires forall k | 0 <= k < |assignments| :: assignments[k].trip == 0
    ensures OnlyTrip(Apply(s, GiveTo(driver)), if CanTransition(status, ResourcesAssigned) then ResourcesAssigned else status, end,
                     Superseded(assignments, 0) + [Assignment(0, CrewOf(driver), true)])
  {
    hide CanTransition;
    assert !HasConflict(s, Driver, driver, 0, s.trips[0].scheduledStart, s.trips[0].WindowEnd());
  }

  lemma SoloDriven() returns (steps: seq<Step>)
    ensures OnlyTrip(Run(EMPTY, steps), Completed, Some(20), [Assignment(0, CrewOf(7), true)])
  {
    var given := [Assignment(0, CrewOf(7), true)];
    SoloCreated();
    assert CanTransition(Created, Scheduled) && CanTransition(Scheduled, ResourcesAssigned)
        && CanTransition(ResourcesAssigned, DriverAccepted) && CanTransition(DriverAccepted, EnRouteToFirstPickup)
        && CanTransition(EnRouteToFirstPickup, Running) && CanTransition(Running, Completed);
    assert Superseded([], 0) + given == given;
    hide CanTransition, Run, Apply, OnlyTrip, Superseded;
    steps := SoloMoves([SOLO], Created, [], Scheduled, 0);
    RunOneMore(EMPTY, steps, GiveTo(7));
    SoloGiven(Run(EMPTY, steps), Scheduled, None, [], 7);
    steps := steps + [GiveTo(7)];
    steps := SoloMoves(steps, ResourcesAssigned, given, DriverAccepted, 0);
    steps := SoloMoves(steps, DriverAccepted, given, EnRouteToFirstPickup, 0);
    steps := SoloMoves(steps, EnRouteToFirstPickup, given, Running, 10);
    steps := SoloMoves(steps, Running, given, Completed, 20);
  }

  // The trip is driven by one driver and completed; then another one is named.
  lemma LateCrewTakesPay(charges: map<int, StoredCharge>) returns (steps: seq<Step>)
    ensures var s, s' := Run(EMPTY, steps), Run(EMPTY, steps + [GiveTo(8)]);
            && Gross(s, charges, Claim(2, 7, 0, 100)) == PayableFor(charges, 0) && Gross(s, charges, Claim(2, 8, 0, 100)) == 0.0
            && Gross(s', charges, Claim(2, 7, 0, 100)) == 0.0 && Gross(s', charges, Claim(2, 8, 0, 100)) == PayableFor(charges, 0)
  {
    var given := [Assignment(0, CrewOf(7), true)];
    assert !CanTransition(Completed, ResourcesAssigned);
    assert Superseded(given, 0) == [Assignment(0, CrewOf(7), false)];
    steps := SoloDriven();
    hide CanTransition, Run, Apply, OnlyTrip, Superseded, PayableFor, Gross;
    RunOneMore(EMPTY, steps, GiveTo(8));
    SoloGiven(Run(EMPTY, steps), Completed, Some(20), given, 8);
    SoloPays(Run(EMPTY, steps), charges, given, 7);
    SoloPays(Run(EMPTY, steps + [GiveTo(8)]), charges, [Assignment(0, CrewOf(7), false), Assignment(0, CrewOf(8), true)], 8);
  }

  lemma SoloPays(s: Store, charges: map<int, StoredCharge>, assignments: seq<Assignment>, driver: int)
    requires OnlyTrip(s, Completed, Some(20), assignments) && 1 <= |assignments| <= 2
    requires Last(assignments) == Assignment(0, CrewOf(driver), true) && (|assignments| == 2 ==> !assignments[0].active)
    ensures Gross(s, charges, Claim(2, driver, 0, 100)) == PayableFor(charges, 0)
    ensures forall other | other != driver :: Gross(s, charges, Claim(2, other, 0, 100)) == 0.0
  {
    forall d ensures Gross(s, charges, Claim(2, d, 0, 100)) == if d == driver then PayableFor(charges, 0) else 0.0 {
      var claim := Claim(2, d, 0, 100);
      assert GrossOf(s, charges, claim, 0) == 0.0;
      assert GrossOf(s, charges, claim, 1) == Due(s, charges, claim, s.assignments[0]);
    }
  }

  // ---- Vouchers ----

  datatype VoucherStatus = Draft | Locked

  datatype Voucher = Voucher(gross: real, deductions: real, net: real, status: VoucherStatus)

  datatype VoucherError = NoActiveRelationship | AlreadyFinal | VoucherNotFound

  type Ledger = map<Claim, Voucher>

  ghost predicate Balanced(ledger: Ledger) {
    forall c | c in ledger :: ledger[c].net == ledger[c].gross - ledger[c].deductions
  }

  // Locked vouchers are untouched, and so are all deductions.
  ghost predicate LockedKept(ledger: Ledger, ledger': Ledger) {
    forall c | c in ledger ::
      && c in ledger' && ledger'[c].deductions == ledger[c].deductions
      && (ledger[c].status == Locked ==> ledger'[c] == ledger[c])
  }

  function GenerateError(ledger: Ledger, active: set<(int, int)>, claim: Claim): Option<VoucherError> {
    if (claim.driver, claim.vendor) !in active then Some(NoActiveRelationship)
    else if claim in ledger && ledger[claim].status != Draft then Some(AlreadyFinal)
    else None
  }

  // A first draft has no deductions; a regenerated one keeps those it had.
  function Drafted(ledger: Ledger, claim: Claim, gross: real): Ledger {
    var deductions := if claim in ledger then ledger[claim].deductions else 0.0;
    ledger[claim := Voucher(gross, deductions, gross - deductions, Draft)]
  }

  function LockError(ledger: Ledger, vendor: int, claim: Claim): Option<VoucherError> {
    if claim !in ledger || claim.vendor != vendor then Some(VoucherNotFound)
    else if ledger[claim].status != Draft then Some(AlreadyFinal)
    else None
  }

  datatype VoucherStep =
    | GenerateStep(store: Store, charges: map<int, StoredCharge>, active: set<(int, int)>, claim: Claim)
    | LockStep(vendor: int, claim: Claim)

  function ApplyVoucher(ledger: Ledger, step: VoucherStep): Ledger {
    match step
    case GenerateStep(s, charges, active, claim) =>
      if GenerateError(ledger, active, claim).Some? then ledger else Drafted(ledger, claim, Gross(s, charges, claim))
    case LockStep(vendor, claim) =>
      if LockError(ledger, vendor, claim).Some? then ledger else ledger[claim := ledger[claim].(status := Locked)]
  }

  function RunVouchers(ledger: Ledger, steps: seq<VoucherStep>): Ledger
    decreases |steps|
  {
    if steps == [] then ledger else RunVouchers(ApplyVoucher(ledger, steps[0]), steps[1..])
  }

  // Whatever happens to trips and charges meanwhile, a locked voucher stays as it is, and every
  // voucher pays its gross less its deductions.
  lemma {:induction false} LockedForGood(ledger: Ledger, steps: seq<VoucherStep>)
    requires Balanced(ledger)
    ensures Balanced(RunVouchers(ledger, steps)) && LockedKept(ledger, RunVouchers(ledger, steps))
    decreases |steps|
  {
    if steps != [] {
      LockedForGood(ApplyVoucher(ledger, steps[0]), steps[1..]);
    }
  }

  class DriverPaymentService {
    var vouchers: Ledger

    constructor ()
      ensures vouchers == map[] && Balanced(vouchers)
    {
      vouchers := map[];
    }

    method Generate(s: Store, charges: map<int, StoredCharge>, active: set<(int, int)>, claim: Claim)
      returns (error: Option<VoucherError>)
      modifies this
      ensures error == GenerateError(old(vouchers), active, claim)
      ensures error == Some(NoActiveRelationship) <==> (claim.driver, claim.vendor) !in active
      ensures error == Some(AlreadyFinal) <==>
                (claim.driver, claim.vendor) in active && claim in old(vouchers) && old(vouchers)[claim].status == Locked
      ensures error == None <==>
                (claim.driver, claim.vendor) in active && (claim in old(vouchers) ==> old(vouchers)[claim].status == Draft)
      ensures error.None? ==>
                && vouchers.Keys == old(vouchers).Keys + {claim} && (forall c | c in old(vouchers) && c != claim :: vouchers[c] == old(vouchers)[c])
                && vouchers[claim].deductions == (if claim in old(vouchers) then old(vouchers)[claim].deductions else 0.0)
                && vouchers[claim].net + vouchers[claim].deductions == vouchers[claim].gross
      ensures vouchers == ApplyVoucher(old(vouchers), GenerateStep(s, charges, active, claim))
      ensures error.None? ==> vouchers[claim].gross == Gross(s, charges, claim) && vouchers[claim].status == Draft
      ensures old(Balanced(vouchers)) ==> Balanced(vouchers)
      ensures LockedKept(old(vouchers), vouchers)
    {
      if (claim.driver, claim.vendor) !in active { return Some(NoActiveRelationship); }
      var gross := 0.0;
      for k := 0 to |s.assignments|
        invariant gross == GrossOf(s, charges, claim, k)
        invariant vouchers == old(vouchers)
      {
        if Pays(s, claim, s.assignments[k]) {
          gross := gross + PayableFor(charges, s.assignments[k].trip);
        }
      }
      if claim in vouchers && vouchers[claim].status != Draft { return Some(AlreadyFinal); }
      var deductions := if claim in vouchers then vouchers[claim].deductions else 0.0;
      var voucher := if claim in vouchers
        then vouchers[claim].(gross := gross, net := gross - deductions)
        else Voucher(gross, deductions, gross - deductions, Draft);
      vouchers := vouchers[claim := voucher];
      error := None;
    }

    method Lock(vendor: int, claim: Claim) returns (error: Option<VoucherError>)
      modifies this
      ensures error == LockError(old(vouchers), vendor, claim)
      ensures error == Some(VoucherNotFound) <==> claim !in old(vouchers) || claim.vendor != vendor
      ensures error == Some(AlreadyFinal) <==>
                claim in old(vouchers) && claim.vendor == vendor && old(vouchers)[claim].status == Locked
      ensures error == None <==> claim in old(vouchers) && claim.vendor == vendor && old(vouchers)[claim].status == Draft
      ensures vouchers == ApplyVoucher(old(vouchers), LockStep(vendor, claim))
      ensures error.None? ==> vouchers[claim] == old(vouchers)[claim].(status := Locked)
      ensures old(Balanced(vouchers)) ==> Balanced(vouchers)
      ensures LockedKept(old(vouchers), vouchers)
    {
      if claim !in vouchers || claim.vendor != vendor { return Some(VoucherNotFound); }
      if vouchers[claim].status != Draft { return Some(AlreadyFinal); }
      vouchers := vouchers[claim := vouchers[claim].(status := Locked)];
      error := None;
    }
  }
}
