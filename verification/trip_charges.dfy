// The charge of a completed trip, priced from the rate card in force when it was scheduled.
module TripCharges {
  import opened Common
  import opened TripStateMachine
  import opened Trips
  import opened TripRuns
  import opened Pricing
  import RateCards

  const STANDARD := "STANDARD"

  // What pricing reads besides the trip tables.
  datatype Facts = Facts(vehicleTypes: map<int, string>, actualKm: map<int, real>, estimatedKm: map<int, real>)

  datatype Priced = Priced(rateCard: nat, terms: Terms, distance: real, charge: Charge)

  datatype StoredCharge = StoredCharge(priced: Priced, version: nat)

  datatype ChargeError = UnknownTrip | NotCompleted | NoContract | NoRateCard

  // The vehicle of the first of the first n assignments that is active for the trip.
  function VehicleOf(assignments: seq<Assignment>, trip: int, n: nat): Option<int>
    requires n <= |assignments|
    decreases n
  {
    if n == 0 then None
    else
      var a := assignments[|assignments| - n];
      if a.active && a.trip == trip then a.crew.vehicle else VehicleOf(assignments, trip, n - 1)
  }

  function VehicleType(s: Store, facts: Facts, trip: int): string {
    var vehicle := VehicleOf(s.assignments, trip, |s.assignments|);
    if vehicle.Some? && vehicle.value in facts.vehicleTypes then facts.vehicleTypes[vehicle.value] else STANDARD
  }

  function Distance(facts: Facts, trip: int): real {
    if trip in facts.actualKm then facts.actualKm[trip]
    else if trip in facts.estimatedKm then facts.estimatedKm[trip]
    else 0.0
  }

  function Price(s: Store, facts: Facts, cards: seq<RateCards.RateCard>, actor: int, id: int): Result<Priced, ChargeError> {
    if !(0 <= id < |s.trips|) || !s.trips[id].HasParty(actor) then Err(UnknownTrip)
    else if s.trips[id].status != Completed then Err(NotCompleted)
    else if s.trips[id].contract.None? then Err(NoContract)
    else
      var trip := s.trips[id];
      var card := RateCards.FindEffective(cards, trip.contract.value, VehicleType(s, facts, id), trip.scheduledStart, None);
      if card.None? then Err(NoRateCard)
      else
        var terms := cards[card.value].terms;
        Ok(Priced(card.value, terms, Distance(facts, id), ChargeFor(terms, Distance(facts, id))))
  }

  // ---- What a trip is priced by ----

  // The type of the vehicle the trip's active assignment names, where it is known.
  ghost predicate RunsAs(s: Store, facts: Facts, id: int, vehicleType: string) {
    if exists k :: NamesKnownVehicle(s, facts, id, k)
    then exists k :: NamesKnownVehicle(s, facts, id, k) && vehicleType == facts.vehicleTypes[s.assignments[k].crew.vehicle.value]
    else vehicleType == "STANDARD"
  }

  ghost predicate NamesKnownVehicle(s: Store, facts: Facts, id: int, k: int) {
    && 0 <= k < |s.assignments| && s.assignments[k].active && s.assignments[k].trip == id
    && s.assignments[k].crew.vehicle.Some? && s.assignments[k].crew.vehicle.value in facts.vehicleTypes
  }

  lemma {:induction false} VehicleOfActive(assignments: seq<Assignment>, trip: int, n: nat)
    requires n <= |assignments|
    requires forall i, j | 0 <= i < j < |assignments| && assignments[i].active && assignments[j].active ::
               assignments[i].trip != assignments[j].trip
    ensures forall k | |assignments| - n <= k < |assignments| && assignments[k].active && assignments[k].trip == trip ::
              VehicleOf(assignments, trip, n) == assignments[k].crew.vehicle
    ensures (forall k | |assignments| - n <= k < |assignments| :: !(assignments[k].active && assignments[k].trip == trip)) ==>
              VehicleOf(assignments, trip, n) == None
  {
    if n > 0 { VehicleOfActive(assignments, trip, n - 1); }
  }

  lemma TypeExactly(s: Store, facts: Facts, id: int)
    requires OneActive(s)
    ensures forall t :: RunsAs(s, facts, id, t) <==> t == VehicleType(s, facts, id)
  {
    VehicleOfActive(s.assignments, id, |s.assignments|);
    forall k | NamesKnownVehicle(s, facts, id, k)
      ensures VehicleType(s, facts, id) == facts.vehicleTypes[s.assignments[k].crew.vehicle.value]
    {
    }
    if forall k :: !NamesKnownVehicle(s, facts, id, k) {
      if exists k :: 0 <= k < |s.assignments| && s.assignments[k].active && s.assignments[k].trip == id {
        var k :| 0 <= k < |s.assignments| && s.assignments[k].active && s.assignments[k].trip == id;
        assert VehicleOf(s.assignments, id, |s.assignments|) == s.assignments[k].crew.vehicle;
        assert !NamesKnownVehicle(s, facts, id, k);
      }
      assert VehicleType(s, facts, id) == "STANDARD";
    }
  }

  // The actual kilometres, else the estimated ones, else none.
  ghost predicate Travelled(facts: Facts, id: int, km: real) {
    && (id in facts.actualKm ==> km == facts.actualKm[id])
    && (id !in facts.actualKm && id in facts.estimatedKm ==> km == facts.estimatedKm[id])
    && (id !in facts.actualKm && id !in facts.estimatedKm ==> km == 0.0)
  }

  // A completed trip of the caller's with a contract is priced by the newest card in force, when
  // it was to start, for its vehicle type and no zone; without such a card, or otherwise, not at all.
  lemma PricedExactlyWhen(s: Store, facts: Facts, cards: seq<RateCards.RateCard>, actor: int, id: int, vehicleType: string)
    requires OneActive(s) && RateCards.UniqueVersions(cards) && RunsAs(s, facts, id, vehicleType)
    ensures var p := Price(s, facts, cards, actor, id);
            && (p == Err(UnknownTrip) <==>
                  !(0 <= id < |s.trips|) || (s.trips[id].corporateOrg != actor && s.trips[id].vendorOrg != Some(actor)))
            && (p != Err(UnknownTrip) ==>
                  var t := s.trips[id];
                  && (p == Err(NotCompleted) <==> t.status != Completed)
                  && (p == Err(NoContract) <==> t.status == Completed && t.contract.None?)
                  && (p == Err(NoRateCard) <==>
                        && t.status == Completed && t.contract.Some?
                        && RateCards.NoneInForce(cards, t.contract.value, vehicleType, None, t.scheduledStart))
                  && (p.Ok? ==>
                        && t.status == Completed && t.contract.Some?
                        && RateCards.NewestInForce(cards, t.contract.value, vehicleType, None, t.scheduledStart, p.value.rateCard)
                        && Travelled(facts, id, p.value.distance)
                        && p.value.charge == ChargeFor(cards[p.value.rateCard].terms, p.value.distance)))
  {
    TypeExactly(s, facts, id);
    if 0 <= id < |s.trips| && s.trips[id].contract.Some? {
      var t := s.trips[id];
      var found := RateCards.FindEffective(cards, t.contract.value, vehicleType, t.scheduledStart, None);
      RateCards.FoundExactlyWhen(cards, t.contract.value, vehicleType, t.scheduledStart, None,
                                 if found.Some? then found.value else 0);
    }
    hide RunsAs, VehicleType, RateCards.FindEffective, RateCards.NewestInForce, RateCards.NoneInForce;
  }

  // Recomputing the charge of a trip scheduled before an operation on the rate cards gives the
  // same card, terms and amounts after that operation and after every later one.
  lemma RecomputedChargeIsUnchanged(s: Store, facts: Facts, tables: seq<seq<RateCards.RateCard>>, steps: seq<RateCards.Step>,
                                    actor: int, id: int, j: nat, k: nat)
    requires RateCards.IsRun(tables, steps) && j < k <= |steps|
    requires 0 <= id < |s.trips| && s.trips[id].scheduledStart < steps[j].now
    ensures Price(s, facts, tables[k], actor, id) == Price(s, facts, tables[j], actor, id)
  {
    RateCards.PastPricesAreFrozen(tables, steps, j, k);
  }

  // A charge once computed belongs to a completed trip, and always will.
  ghost predicate OnlyCompleted(s: Store, charges: map<int, StoredCharge>) {
    forall id | id in charges :: 0 <= id < |s.trips| && s.trips[id].status == Completed && charges[id].version >= 1
  }

  lemma RunKeepsOnlyCompleted(s: Store, charges: map<int, StoredCharge>, steps: seq<Step>)
    requires Consistent(s) && OnlyCompleted(s, charges)
    ensures OnlyCompleted(Run(s, steps), charges)
  {
    forall id | id in charges ensures 0 <= id < |Run(s, steps).trips| && Run(s, steps).trips[id].status == Completed {
      TerminalIsFinal(s, steps, id);
    }
  }

  class TripChargeService {
    var charges: map<int, StoredCharge>

    constructor ()
      ensures charges == map[]
    {
      charges := map[];
    }

    // A recomputation replaces the amounts and counts up the version.
    method ComputeForTrip(s: Store, facts: Facts, cards: seq<RateCards.RateCard>, actor: int, id: int)
      returns (error: Option<ChargeError>)
      modifies this
      ensures match Price(s, facts, cards, actor, id)
              case Err(e) => error == Some(e) && charges == old(charges)
              case Ok(priced) =>
                && error == None
                && charges == old(charges)[id := StoredCharge(priced,
                     if id in old(charges) then old(charges)[id].version + 1 else 1)]
      ensures old(OnlyCompleted(s, charges)) ==> OnlyCompleted(s, charges)
    {
      if !(0 <= id < |s.trips|) || !s.trips[id].HasParty(actor) { return Some(UnknownTrip); }
      var trip := s.trips[id];
      if trip.status != Completed { return Some(NotCompleted); }
      if trip.contract.None? { return Some(NoContract); }
      var card := RateCards.FindEffective(cards, trip.contract.value, VehicleType(s, facts, id), trip.scheduledStart, None);
      if card.None? { return Some(NoRateCard); }
      var terms := cards[card.value].terms;
      var charge := Compute(terms, Distance(facts, id));
      var version := if id in charges then charges[id].version + 1 else 1;
      charges := charges[id := StoredCharge(Priced(card.value, terms, Distance(facts, id), charge), version)];
      error := None;
    }
  }

  // Nothing is due for a trip without a charge.
  function PayableFor(charges: map<int, StoredCharge>, id: int): real {
    if id in charges then charges[id].priced.charge.vendorPayable else 0.0
  }
}
