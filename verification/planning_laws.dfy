// What planning a group comes to, in terms of its stops, the fleet, the rules and the tables.
module PlanningLaws {
  import opened Common
  import opened TripStateMachine
  import opened Trips
  import opened TripRuns
  import opened TripLaws
  import opened Plans
  import opened Allocation
  import opened GeoRouting
  import opened Planner
  import Safety

  // ---- Resources ----

  ghost function RowsFor(fleet: Fleet, role: Role): seq<Resource> {
    if role == Driver then fleet.drivers else if role == Vehicle then fleet.vehicles else fleet.guards
  }

  ghost predicate Roomy(r: Resource, seats: int) {
    if r.capacity.Some? then seats <= r.capacity.value else seats <= 0
  }

  // Resource k of the role may serve this vendor's trip of two hours from `at` on.
  ghost predicate Suits(s: Store, u: Setup, seats: int, role: Role, vendor: int, k: int) {
    && 0 <= k < |RowsFor(u.fleet, role)|
    && var r := RowsFor(u.fleet, role)[k];
       && r.active && vendor in r.vendors
       && (role == Vehicle ==> Roomy(r, seats) && !r.blocked)
       && u.fit(role, r.id, Some(vendor), u.corporate)
       && !Held(s, role, r.id, -1, u.at, u.at + 7_200_000)
  }

  ghost predicate Offers(s: Store, u: Setup, seats: int, role: Role, vendor: int) {
    exists k :: Suits(s, u, seats, role, vendor, k)
  }

  // The verdict names the first check a resource fails.
  lemma JudgedExactlyWhen(s: Store, q: Request, role: Role, vendor: int, r: Resource)
    ensures var v, cramped := Judge(s, q, role, vendor, r), role == Vehicle && !Roomy(r, q.seats);
            var unfit := !q.fit(role, r.id, Some(vendor), q.corporate);
            && (v == CapacityInsufficient <==> cramped)
            && (v == DocumentsMissing <==> !cramped && unfit)
            && (v == UnderMaintenance <==> !cramped && !unfit && role == Vehicle && r.blocked)
            && (v == AlreadyAssigned <==>
                  !cramped && !unfit && !(role == Vehicle && r.blocked) && Held(s, role, r.id, -1, q.at, q.at + 7_200_000))
            && (v == Fit <==>
                  !cramped && !unfit && !(role == Vehicle && r.blocked) && !Held(s, role, r.id, -1, q.at, q.at + 7_200_000))
  {
    HeldExactlyWhen(s, role, r.id, -1, q.at, q.at + 7_200_000);
  }

  lemma SuitsExactlyWhen(s: Store, u: Setup, route: seq<Stop>, role: Role, vendor: int, k: int)
    ensures Suits(s, u, |route|, role, vendor, k) <==>
              var rows := u.RequestFor(route).fleet.Rows(role);
              0 <= k < |rows| && IsCandidate(vendor, rows[k]) && Judge(s, u.RequestFor(route), role, vendor, rows[k]) == Fit
  {
    if 0 <= k < |RowsFor(u.fleet, role)| {
      JudgedExactlyWhen(s, u.RequestFor(route), role, vendor, RowsFor(u.fleet, role)[k]);
    }
  }

  lemma OffersExactlyWhen(s: Store, u: Setup, route: seq<Stop>, role: Role, vendor: int)
    ensures Offers(s, u, |route|, role, vendor) <==> HasFit(s, u.RequestFor(route), role, vendor)
  {
    var rows := u.RequestFor(route).fleet.Rows(role);
    forall k ensures Suits(s, u, |route|, role, vendor, k) <==>
        0 <= k < |rows| && IsCandidate(vendor, rows[k]) && Judge(s, u.RequestFor(route), role, vendor, rows[k]) == Fit {
      SuitsExactlyWhen(s, u, route, role, vendor, k);
    }
    hide Suits, Judge, IsCandidate;
    if Offers(s, u, |route|, role, vendor) {
      var k :| Suits(s, u, |route|, role, vendor, k);
      assert rows[k] in rows;
    }
    if HasFit(s, u.RequestFor(route), role, vendor) {
      var r :| r in rows && IsCandidate(vendor, r) && Judge(s, u.RequestFor(route), role, vendor, r) == Fit;
      var k :| 0 <= k < |rows| && rows[k] == r;
      assert Suits(s, u, |route|, role, vendor, k);
    }
  }

  // The first one that suits.
  ghost predicate FirstSuiting(s: Store, u: Setup, seats: int, role: Role, vendor: int, k: int) {
    Suits(s, u, seats, role, vendor, k) && forall j | j < k :: !Suits(s, u, seats, role, vendor, j)
  }

  lemma FirstFitSuits(s: Store, u: Setup, route: seq<Stop>, role: Role, vendor: int, r: Resource) returns (k: int)
    requires IsFirstFit(s, u.RequestFor(route), role, vendor, Some(r))
    ensures FirstSuiting(s, u, |route|, role, vendor, k) && RowsFor(u.fleet, role)[k] == r
  {
    k :| IsFirstFitAt(s, u.RequestFor(route), role, vendor, r, k);
    forall j ensures Suits(s, u, |route|, role, vendor, j) <==>
        var rows := u.RequestFor(route).fleet.Rows(role);
        0 <= j < |rows| && IsCandidate(vendor, rows[j]) && Judge(s, u.RequestFor(route), role, vendor, rows[j]) == Fit {
      SuitsExactlyWhen(s, u, route, role, vendor, j);
    }
    hide Judge, IsCandidate;
  }

  // ---- Safety rules on the ordered stops ----

  // The moment lies in this hour of its day.
  ghost predicate InHour(at: int, hour: int) {
    0 <= hour < 24 && exists day :: 0 <= at - (86_400_000 * day + 3_600_000 * hour) < 3_600_000
  }

  lemma HourExactly(at: int, hour: int, input: Safety.RouteInput)
    requires InHour(at, hour) && input.dropAt == at
    ensures Safety.DropHour(input) == hour
  {
    var day :| 0 <= at - (86_400_000 * day + 3_600_000 * hour) < 3_600_000;
    assert at / 3_600_000 == 24 * day + hour;
  }

  lemma EveryMomentInHour(at: int) returns (hour: int)
    ensures InHour(at, hour)
  {
    var day := at / 86_400_000;
    hour := (at - 86_400_000 * day) / 3_600_000;
  }

  // Two letters that differ at most in case; only unaccented letters have one.
  ghost predicate SameLetter(a: char, b: char) {
    || a == b
    || ('a' <= a <= 'z' && b as int == a as int - 32)
    || ('a' <= b <= 'z' && a as int == b as int - 32)
  }

  ghost predicate SameWord(a: string, b: string) {
    |a| == |b| && forall k | 0 <= k < |a| :: SameLetter(a[k], b[k])
  }

  lemma UpperIgnoresCase(a: string, b: string)
    ensures Safety.Upper(a) == Safety.Upper(b) <==> SameWord(a, b)
  {
    if |a| == |b| {
      forall k | 0 <= k < |a| ensures SameLetter(a[k], b[k]) <==> Safety.Upper(a)[k] == Safety.Upper(b)[k] {
      }
    }
  }

  // An unguarded half-hour ride at this hour, its last stop last, breaks the rule.
  ghost predicate BrokenBy(rule: Safety.SafetyRule, hour: int, route: seq<Stop>) {
    match rule
    case LastDropRestriction(_, afterHour, gender) =>
      && afterHour.Some? && afterHour.value <= hour as real
      && route != [] && Last(route).gender.Some? && Last(route).gender.value != ""
      && SameWord(Last(route).gender.value, if gender.Some? then gender.value else "")
    case GuardRequired(_, afterHour) => afterHour.Some? ==> afterHour.value <= hour as real
    case MaxRideTime(_, maxMinutes) => maxMinutes.Some? && maxMinutes.value < 30.0
    case UnevaluatedRule(_) => false
  }

  ghost predicate Breached(u: Setup, hour: int, route: seq<Stop>, k: int) {
    0 <= k < |u.rules| && u.rules[k].mandatory && BrokenBy(u.rules[k], hour, route)
  }

  ghost predicate GuardDue(u: Setup, hour: int, route: seq<Stop>) {
    exists k :: Breached(u, hour, route, k) && u.rules[k].GuardRequired?
  }

  lemma BrokenExactlyWhen(rule: Safety.SafetyRule, hour: int, route: seq<Stop>, at: int)
    requires InHour(at, hour)
    ensures Safety.Violates(rule, RouteOf(route, at)) <==> BrokenBy(rule, hour, route)
  {
    var input := RouteOf(route, at);
    HourExactly(at, hour, input);
    if rule.LastDropRestriction? {
      var gender := if rule.appliesToGender.Some? then rule.appliesToGender.value else "";
      if route != [] && Last(route).gender.Some? {
        UpperIgnoresCase(Last(route).gender.value, gender);
        assert Safety.Restricted(input.passengers[|route| - 1], gender) <==>
               Last(route).gender.value != "" && SameWord(Last(route).gender.value, gender);
      }
      assert forall k | 0 <= k < |route| - 1 :: !Safety.Restricted(input.passengers[k], gender);
    }
  }

  lemma SafetyExactly(u: Setup, hour: int, route: seq<Stop>)
    requires InHour(u.at, hour)
    ensures var q := u.RequestFor(route);
            && (Safety.GuardNeeded(q.rules, q.route) <==> GuardDue(u, hour, route))
            && (Safety.IsSafe(q.rules, q.route) <==> forall k :: !Breached(u, hour, route, k))
  {
    var q := u.RequestFor(route);
    forall k ensures Safety.Breaks(q.rules, q.route, k) <==> Breached(u, hour, route, k) {
      if 0 <= k < |u.rules| { BrokenExactlyWhen(u.rules[k], hour, route, u.at); }
    }
    hide Safety.Breaks, Breached;
  }

  // ---- Vendors ----

  ghost predicate Serves(s: Store, u: Setup, hour: int, route: seq<Stop>, vendor: int) {
    && Offers(s, u, |route|, Vehicle, vendor) && Offers(s, u, |route|, Driver, vendor)
    && if GuardDue(u, hour, route) then Offers(s, u, |route|, Guard, vendor)
       else forall k :: !Breached(u, hour, route, k)
  }

  // What a vendor leaves behind that could send a vehicle and a driver, and yet does not serve.
  ghost function RowLeftBy(s: Store, u: Setup, hour: int, route: seq<Stop>, vendor: int): seq<PlanException> {
    if Offers(s, u, |route|, Vehicle, vendor) && Offers(s, u, |route|, Driver, vendor) && !Serves(s, u, hour, route, vendor)
    then [PlanException(u.plan, if GuardDue(u, hour, route) then NoGuardAvailable else SafetyRuleImpossible, |route|, true)]
    else []
  }

  ghost function RowsLeft(s: Store, u: Setup, hour: int, route: seq<Stop>, vendors: seq<int>): seq<PlanException> {
    if vendors == [] then []
    else RowsLeft(s, u, hour, route, vendors[..|vendors| - 1]) + RowLeftBy(s, u, hour, route, Last(vendors))
  }

  lemma ServesExactlyWhen(s: Store, u: Setup, hour: int, route: seq<Stop>, vendor: int)
    requires InHour(u.at, hour)
    ensures CanServe(s, u.RequestFor(route), vendor) <==> Serves(s, u, hour, route, vendor)
    ensures Refusal(s, u.RequestFor(route), vendor).Some? <==> RowLeftBy(s, u, hour, route, vendor) != []
    ensures Refusal(s, u.RequestFor(route), vendor).Some? ==>
              RowLeftBy(s, u, hour, route, vendor)
              == [PlanException(u.plan, Refusal(s, u.RequestFor(route), vendor).value, |route|, true)]
  {
    OffersExactlyWhen(s, u, route, Vehicle, vendor);
    OffersExactlyWhen(s, u, route, Driver, vendor);
    OffersExactlyWhen(s, u, route, Guard, vendor);
    SafetyExactly(u, hour, route);
    hide Offers, HasFit, Safety.GuardNeeded, Safety.IsSafe, GuardDue, Breached, RouteOf;
  }

  lemma {:induction false} RowsExactly(s: Store, u: Setup, hour: int, route: seq<Stop>, vendors: seq<int>)
    requires InHour(u.at, hour)
    ensures Refusals(s, u.RequestFor(route), u.plan, vendors) == RowsLeft(s, u, hour, route, vendors)
  {
    if vendors != [] {
      RowsExactly(s, u, hour, route, vendors[..|vendors| - 1]);
      ServesExactlyWhen(s, u, hour, route, Last(vendors));
      hide Refusal, RowLeftBy;
    }
  }

  // ---- One group ----

  ghost predicate ServedBy(u: Setup, r: Round, hour: int, v: int) {
    && 0 <= v < |u.vendors| && Serves(r.before, u, hour, r.route, u.vendors[v])
    && forall j | 0 <= j < v :: !Serves(r.before, u, hour, r.route, u.vendors[j])
  }

  // The trip carries the route's employees in its order, for the vendor, with the first vehicle
  // and driver that suit, and with the first guard that suits if one is due.
  ghost predicate CarriesRoute(u: Setup, r: Round, hour: int, vendor: int) {
    && |r.after.trips| == |r.before.trips| + 1 && |r.after.assignments| == |r.before.assignments| + 1
    && r.before.trips <= r.after.trips && r.before.assignments <= r.after.assignments
    && var t, a := Last(r.after.trips), Last(r.after.assignments);
       && t.corporateOrg == u.corporate && t.vendorOrg == Some(vendor) && t.plan == Some(u.plan)
       && t.scheduledStart == u.at && t.scheduledEnd == None && t.status == Created
       && |t.employees| == |r.route| && (forall k | 0 <= k < |r.route| :: t.employees[k] == r.route[k].employeeId)
       && a.active && a.trip == |r.before.trips|
       && (exists k :: FirstSuiting(r.before, u, |r.route|, Vehicle, vendor, k) && a.crew.vehicle == Some(u.fleet.vehicles[k].id))
       && (exists k :: FirstSuiting(r.before, u, |r.route|, Driver, vendor, k) && a.crew.driver == Some(u.fleet.drivers[k].id))
       && (if GuardDue(u, hour, r.route)
           then exists k :: FirstSuiting(r.before, u, |r.route|, Guard, vendor, k) && a.crew.guard == Some(u.fleet.guards[k].id)
           else a.crew.guard == None)
  }

  lemma CrewSuits(s: Store, u: Setup, hour: int, route: seq<Stop>, vendor: int, crew: Crew)
    requires InHour(u.at, hour) && IsCrewOf(s, u.RequestFor(route), vendor, crew)
    ensures exists k :: FirstSuiting(s, u, |route|, Vehicle, vendor, k) && crew.vehicle == Some(u.fleet.vehicles[k].id)
    ensures exists k :: FirstSuiting(s, u, |route|, Driver, vendor, k) && crew.driver == Some(u.fleet.drivers[k].id)
    ensures if GuardDue(u, hour, route)
            then exists k :: FirstSuiting(s, u, |route|, Guard, vendor, k) && crew.guard == Some(u.fleet.guards[k].id)
            else crew.guard == None
  {
    var q := u.RequestFor(route);
    SafetyExactly(u, hour, route);
    var vehicle :| IsFirstFit(s, q, Vehicle, vendor, Some(vehicle)) && crew.vehicle == Some(vehicle.id);
    var driver :| IsFirstFit(s, q, Driver, vendor, Some(driver)) && crew.driver == Some(driver.id);
    var v := FirstFitSuits(s, u, route, Vehicle, vendor, vehicle);
    var d := FirstFitSuits(s, u, route, Driver, vendor, driver);
    if GuardDue(u, hour, route) {
      var guard :| IsFirstFit(s, q, Guard, vendor, Some(guard)) && crew.guard == Some(guard.id);
      var g := FirstFitSuits(s, u, route, Guard, vendor, guard);
    }
  }

  lemma MadeTripCarries(u: Setup, r: Round, hour: int, vendor: int, crew: Crew)
    requires InHour(u.at, hour)
    requires TripMade(r.before, r.after, u.RequestFor(r.route), u.plan, vendor, Ids(r.route), crew)
    ensures CarriesRoute(u, r, hour, vendor) && (crew.guard.Some? <==> GuardDue(u, hour, r.route))
  {
    CrewSuits(r.before, u, hour, r.route, vendor, crew);
    hide FirstSuiting, IsCrewOf, GuardDue, RouteOf, InHour;
    assert Last(r.after.trips).employees == Ids(r.route) && Last(r.after.assignments).crew == crew;
  }

  // A trip is made exactly when some vendor serves, by the first that does; every vendor tried
  // before it, or every vendor when none serves, leaves its row.
  lemma GroupPlannedExactly(u: Setup, group: seq<Stop>, r: Round, hour: int)
    requires RoundOf(u, group, r) && InHour(u.at, hour)
    ensures r.outcome.trip.None? <==> forall v | 0 <= v < |u.vendors| :: !Serves(r.before, u, hour, r.route, u.vendors[v])
    ensures r.outcome.trip.None? ==>
              && r.after == r.before
              && r.rows == RowsLeft(r.before, u, hour, r.route, u.vendors)
                           + [PlanException(u.plan, NoEligibleVehicle, |r.route|, true)]
    ensures r.outcome.trip.Some? ==>
              && r.outcome.trip.value == |r.before.trips| && r.outcome.guardAssigned == GuardDue(u, hour, r.route)
              && exists v ::
                   && ServedBy(u, r, hour, v) && CarriesRoute(u, r, hour, u.vendors[v])
                   && r.rows == RowsLeft(r.before, u, hour, r.route, u.vendors[..v])
  {
    var q := u.RequestFor(r.route);
    forall vendor ensures CanServe(r.before, q, vendor) <==> Serves(r.before, u, hour, r.route, vendor) {
      ServesExactlyWhen(r.before, u, hour, r.route, vendor);
    }
    SafetyExactly(u, hour, r.route);
    hide CanServe, Serves, IsRouteOf, Safety.GuardNeeded, Safety.IsSafe, GuardDue, Refusals, RowsLeft, Breached, IsCrewOf,
      TripMade, CarriesRoute, InHour, Reaches;
    if r.outcome.trip.None? {
      RowsExactly(r.before, u, hour, r.route, u.vendors);
    } else {
      var v: int, crew: Crew :|
        && IsFirstVendor(r.before, q, u.vendors, v)
        && TripMade(r.before, r.after, q, u.plan, u.vendors[v], Ids(r.route), crew)
        && r.rows == Refusals(r.before, q, u.plan, u.vendors[..v]) && r.outcome.guardAssigned == crew.guard.Some?;
      RowsExactly(r.before, u, hour, r.route, u.vendors[..v]);
      MadeTripCarries(u, r, hour, u.vendors[v], crew);
      assert ServedBy(u, r, hour, v);
    }
  }

  // ---- Safety of what is planned ----

  // A trip without a guard breaks no mandatory rule: at that hour no restricted passenger is
  // last, half an hour is not too long, and no rule asks for a guard.
  lemma UnguardedTripBreaksNothing(u: Setup, group: seq<Stop>, r: Round, hour: int, k: int)
    requires RoundOf(u, group, r) && InHour(u.at, hour)
    requires r.outcome.trip.Some? && !r.outcome.guardAssigned
    requires 0 <= k < |u.rules| && u.rules[k].mandatory
    ensures !BrokenBy(u.rules[k], hour, r.route)
  {
    GroupPlannedExactly(u, group, r, hour);
    var v :| ServedBy(u, r, hour, v);
    assert !Breached(u, hour, r.route, k);
  }

  // A route that breaks a mandatory rule while no rule asks for a guard gets no trip, and every
  // vendor that could have sent a vehicle and a driver leaves the reason.
  lemma ImpossibleRouteIsRefused(u: Setup, group: seq<Stop>, r: Round, hour: int, k: int)
    requires RoundOf(u, group, r) && InHour(u.at, hour)
    requires 0 <= k < |u.rules| && u.rules[k].mandatory && BrokenBy(u.rules[k], hour, r.route)
    requires forall j | 0 <= j < |u.rules| && u.rules[j].mandatory && u.rules[j].GuardRequired? :: !BrokenBy(u.rules[j], hour, r.route)
    ensures r.outcome.trip.None? && r.after == r.before
    ensures forall v | 0 <= v < |u.vendors|
              && Offers(r.before, u, |r.route|, Vehicle, u.vendors[v]) && Offers(r.before, u, |r.route|, Driver, u.vendors[v]) ::
              PlanException(u.plan, SafetyRuleImpossible, |r.route|, true) in r.rows
    ensures Last(r.rows) == PlanException(u.plan, NoEligibleVehicle, |r.route|, true)
    ensures |r.rows| == 1 + Capable(r.before, u, |r.route|, u.vendors)
  {
    GroupPlannedExactly(u, group, r, hour);
    assert Breached(u, hour, r.route, k);
    assert !GuardDue(u, hour, r.route);
    ImpossibleRows(u, r, hour, u.vendors);
  }

  // How many of the vendors could send a vehicle and a driver.
  ghost function Capable(s: Store, u: Setup, seats: int, vendors: seq<int>): nat {
    if vendors == [] then 0
    else Capable(s, u, seats, vendors[..|vendors| - 1])
         + if Offers(s, u, seats, Vehicle, Last(vendors)) && Offers(s, u, seats, Driver, Last(vendors)) then 1 else 0
  }

  lemma {:induction false} ImpossibleRows(u: Setup, r: Round, hour: int, vendors: seq<int>)
    requires !GuardDue(u, hour, r.route) && exists k :: Breached(u, hour, r.route, k)
    ensures var rows := RowsLeft(r.before, u, hour, r.route, vendors);
            && |rows| == Capable(r.before, u, |r.route|, vendors)
            && (forall e :: e in rows ==> e == PlanException(u.plan, SafetyRuleImpossible, |r.route|, true))
            && (forall v | 0 <= v < |vendors|
                  && Offers(r.before, u, |r.route|, Vehicle, vendors[v]) && Offers(r.before, u, |r.route|, Driver, vendors[v]) ::
                  PlanException(u.plan, SafetyRuleImpossible, |r.route|, true) in rows)
  {
    hide Offers, GuardDue, Breached;
    if vendors != [] {
      ImpossibleRows(u, r, hour, vendors[..|vendors| - 1]);
    }
  }

  // For instance: once its hour has come, the last passenger of an unguarded trip is not of the
  // gender a mandatory last-drop rule restricts.
  lemma RestrictedPassengerIsNotLast(u: Setup, group: seq<Stop>, r: Round, hour: int, k: int, from: real, gender: string)
    requires RoundOf(u, group, r) && InHour(u.at, hour) && r.route != []
    requires r.outcome.trip.Some? && !r.outcome.guardAssigned
    requires 0 <= k < |u.rules| && u.rules[k] == Safety.LastDropRestriction(true, Some(from), Some(gender)) && from <= hour as real
    ensures var g := Last(r.route).gender; g.None? || g.value == "" || !SameWord(g.value, gender)
  {
    UnguardedTripBreaksNothing(u, group, r, hour, k);
  }

  // ---- The summary of a plan ----

  ghost function RoundsWithTrip(rounds: seq<Round>): nat {
    if rounds == [] then 0 else RoundsWithTrip(rounds[..|rounds| - 1]) + if Last(rounds).outcome.trip.Some? then 1 else 0
  }

  ghost function RoundsWithGuard(rounds: seq<Round>): nat {
    if rounds == [] then 0 else RoundsWithGuard(rounds[..|rounds| - 1]) + if Last(rounds).outcome.guardAssigned then 1 else 0
  }

  ghost function StopsLeft(rounds: seq<Round>): nat {
    if rounds == [] then 0
    else StopsLeft(rounds[..|rounds| - 1]) + if Last(rounds).outcome.trip.None? then |Last(rounds).route| else 0
  }

  // The counters say how many groups got a trip, how many did not, how many trips got a guard,
  // and how many employees were in the groups without a trip.
  lemma {:induction false} SummaryCounts(u: Setup, s: Store, s': Store, groups: seq<seq<Stop>>, rounds: seq<Round>, demand: nat)
    requires Rounds(u, s, s', groups, rounds) && |groups| == |rounds|
    ensures var summary := SummaryOf(demand, groups, rounds);
            && summary.demand == demand
            && summary.trips == RoundsWithTrip(rounds) && summary.trips + summary.exceptions == |rounds|
            && summary.guards == RoundsWithGuard(rounds) && summary.unassigned == StopsLeft(rounds)
    decreases |rounds|
  {
    hide RoundOf, IsRouteOf, GroupPlanned, Flatten, UnservedGroups, ServedGroups, Rows, Guarded;
    if rounds == [] {
      NothingYet();
      assert Flatten<Stop>([]) == [] by { NothingFlat(); }
    } else {
      var n := |rounds| - 1;
      var r, group := rounds[n], groups[n];
      assert RoundOf(u, group, r) && Rounds(u, s, r.before, groups[..n], rounds[..n]);
      hide Rounds;
      SummaryCounts(u, s, r.before, groups[..n], rounds[..n], demand);
      RoundRoute(u, group, r);
      PushedRound(groups[..n], rounds[..n], group, r);
      assert groups == groups[..n] + [group] && rounds == rounds[..n] + [r];
      FlattenPush(UnservedGroups(groups[..n], rounds[..n]), group);
      if r.outcome.trip.Some? {
        assert UnservedGroups(groups, rounds) == UnservedGroups(groups[..n], rounds[..n]);
      } else {
        assert ServedGroups(groups, rounds) == ServedGroups(groups[..n], rounds[..n]);
      }
    }
  }

  lemma NothingFlat()
    ensures Flatten<Stop>([]) == []
  {
  }

  lemma RoundRoute(u: Setup, group: seq<Stop>, r: Round)
    requires RoundOf(u, group, r)
    ensures |r.route| == |group|
  {
    RouteFacts(u.metric, group, r.route);
  }
}
