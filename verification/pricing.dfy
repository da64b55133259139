// What one trip costs under a rate card's pricing rules.
module Pricing {
  import opened Common

  datatype PricingModel = PerKm | PerTrip | Hybrid | SlabModel | OtherModel

  // For distances above minKm, up to and including maxKm.
  datatype Slab = Slab(minKm: real, maxKm: Option<real>, rate: real)
  {
    predicate Holds(distance: real) {
      distance > minKm && (maxKm.None? || distance <= maxKm.value)
    }
  }

  datatype Rules = Rules(
    perKmRate: Option<real>,
    perTripFlat: Option<real>,
    minimumGuarantee: Option<real>,
    taxRatePercent: Option<real>,
    baseFare: Option<real>,
    slabs: seq<Slab>,
    capAmount: Option<real>)

  datatype Terms = Terms(model: PricingModel, rules: Rules)

  datatype Charge = Charge(vendorPayable: real, taxes: real, corporateCharge: real)

  function OrZero(x: Option<real>): real {
    if x.Some? then x.value else 0.0
  }

  function Min(a: real, b: real): real { if a < b then a else b }

  function Max(a: real, b: real): real { if a > b then a else b }

  function Matching(slabs: seq<Slab>, distance: real): Option<Slab> {
    if slabs == [] then None
    else if slabs[0].Holds(distance) then Some(slabs[0])
    else Matching(slabs[1..], distance)
  }

  // A distance no slab holds is charged at the last slab's rate.
  function SlabRate(slabs: seq<Slab>, distance: real): real {
    var matched := Matching(slabs, distance);
    if matched.Some? then matched.value.rate else if slabs != [] then Last(slabs).rate else 0.0
  }

  function Capped(rules: Rules, rate: real): real {
    var amount := OrZero(rules.baseFare) + rate;
    if rules.capAmount.Some? then Min(amount, rules.capAmount.value) else amount
  }

  function SlabAmount(distance: real, rules: Rules): real {
    Capped(rules, SlabRate(rules.slabs, distance))
  }

  function Guaranteed(rules: Rules, amount: real): real {
    if rules.minimumGuarantee.Some? then Max(amount, rules.minimumGuarantee.value) else amount
  }

  function Amount(terms: Terms, distance: real): real {
    var r := terms.rules;
    match terms.model
    case PerKm => distance * OrZero(r.perKmRate)
    case PerTrip => OrZero(r.perTripFlat)
    case Hybrid => distance * OrZero(r.perKmRate) + OrZero(r.perTripFlat)
    case SlabModel => SlabAmount(distance, r)
    case OtherModel => OrZero(r.perTripFlat)
  }

  function Payable(terms: Terms, distance: real): real {
    Guaranteed(terms.rules, Amount(terms, distance))
  }

  function ChargeFor(terms: Terms, distance: real): Charge {
    var amount := Payable(terms, distance);
    var taxes := amount * (OrZero(terms.rules.taxRatePercent) / 100.0);
    Charge(amount, taxes, amount + taxes)
  }

  method Compute(terms: Terms, distance: real) returns (charge: Charge)
    ensures charge == ChargeFor(terms, distance)
    ensures terms.rules.minimumGuarantee.Some? ==> charge.vendorPayable >= terms.rules.minimumGuarantee.value
    ensures terms.model.SlabModel? && terms.rules.capAmount.Some?
            && (terms.rules.minimumGuarantee.Some? ==> terms.rules.minimumGuarantee.value <= terms.rules.capAmount.value)
            ==> charge.vendorPayable <= terms.rules.capAmount.value
    ensures charge.corporateCharge - charge.taxes == charge.vendorPayable
  {
    var rules := terms.rules;
    var amount := 0.0;
    if terms.model == PerKm {
      amount := distance * OrZero(rules.perKmRate);
    } else if terms.model == PerTrip {
      amount := OrZero(rules.perTripFlat);
    } else if terms.model == Hybrid {
      amount := distance * OrZero(rules.perKmRate) + OrZero(rules.perTripFlat);
    } else if terms.model == SlabModel {
      amount := SlabAmount(distance, rules);
    } else {
      amount := OrZero(rules.perTripFlat);
    }
    if rules.minimumGuarantee.Some? {
      amount := Max(amount, rules.minimumGuarantee.value);
    }
    var taxes := amount * (OrZero(rules.taxRatePercent) / 100.0);
    charge := Charge(amount, taxes, amount + taxes);
  }

  // ---- What is paid, model by model ----

  // Slab k is the first one that the distance lies in: above its minimum and not above its maximum.
  ghost predicate FirstSlab(slabs: seq<Slab>, distance: real, k: int) {
    && 0 <= k < |slabs| && InSlab(slabs[k], distance)
    && forall j | 0 <= j < k :: !InSlab(slabs[j], distance)
  }

  ghost predicate InSlab(slab: Slab, distance: real) {
    slab.minKm < distance && (slab.maxKm.Some? ==> distance <= slab.maxKm.value)
  }

  lemma {:induction false} MatchingIsFirst(slabs: seq<Slab>, distance: real)
    ensures Matching(slabs, distance).None? <==> forall j | 0 <= j < |slabs| :: !InSlab(slabs[j], distance)
    ensures forall k :: FirstSlab(slabs, distance, k) ==> Matching(slabs, distance) == Some(slabs[k])
  {
    if slabs != [] {
      var rest := slabs[1..];
      MatchingIsFirst(rest, distance);
      assert forall j | 0 < j < |slabs| :: slabs[j] == rest[j - 1];
      forall k | FirstSlab(slabs, distance, k) ensures Matching(slabs, distance) == Some(slabs[k]) {
        if k > 0 {
          assert !InSlab(slabs[0], distance);
          assert FirstSlab(rest, distance, k - 1);
        }
      }
      if Matching(slabs, distance).None? { assert !InSlab(slabs[0], distance); }
      if exists j :: 0 <= j < |rest| && InSlab(rest[j], distance) {
        var j :| 0 <= j < |rest| && InSlab(rest[j], distance);
        assert InSlab(slabs[j + 1], distance);
      }
    }
  }

  // `x` is what becomes of the amount when at least the guarantee is paid.
  ghost predicate AtLeastGuarantee(x: real, amount: real, guarantee: Option<real>) {
    && amount <= x && (guarantee.Some? ==> guarantee.value <= x)
    && (x == amount || guarantee == Some(x))
  }

  // `x` is what becomes of the amount when at most the cap is paid.
  ghost predicate AtMostCap(x: real, amount: real, cap: Option<real>) {
    && x <= amount && (cap.Some? ==> x <= cap.value)
    && (x == amount || cap == Some(x))
  }

  ghost function Given(x: Option<real>): real {
    if x.None? then 0.0 else x.value
  }

  lemma FlatIsPaid(terms: Terms, distance: real)
    requires terms.model == PerTrip || terms.model == OtherModel
    ensures AtLeastGuarantee(ChargeFor(terms, distance).vendorPayable, Given(terms.rules.perTripFlat), terms.rules.minimumGuarantee)
  {
  }

  lemma KilometresArePaid(terms: Terms, distance: real)
    requires terms.model == PerKm || terms.model == Hybrid
    ensures AtLeastGuarantee(
              ChargeFor(terms, distance).vendorPayable,
              Given(terms.rules.perKmRate) * distance + (if terms.model == Hybrid then Given(terms.rules.perTripFlat) else 0.0),
              terms.rules.minimumGuarantee)
  {
    assert distance * OrZero(terms.rules.perKmRate) == Given(terms.rules.perKmRate) * distance;
  }

  // Base fare and the rate of the first slab the distance lies in, or of the last slab when it
  // lies in none, cut at the cap before the guarantee.
  lemma SlabIsPaid(terms: Terms, distance: real, k: int) returns (capped: real)
    requires terms.model == SlabModel && terms.rules.slabs != []
    requires || FirstSlab(terms.rules.slabs, distance, k)
             || (k == |terms.rules.slabs| - 1 && forall j | 0 <= j < |terms.rules.slabs| :: !InSlab(terms.rules.slabs[j], distance))
    ensures AtMostCap(capped, Given(terms.rules.baseFare) + terms.rules.slabs[k].rate, terms.rules.capAmount)
    ensures AtLeastGuarantee(ChargeFor(terms, distance).vendorPayable, capped, terms.rules.minimumGuarantee)
  {
    MatchingIsFirst(terms.rules.slabs, distance);
    capped := Amount(terms, distance);
  }

  lemma WithoutSlabsBaseIsPaid(terms: Terms, distance: real) returns (capped: real)
    requires terms.model == SlabModel && terms.rules.slabs == []
    ensures AtMostCap(capped, Given(terms.rules.baseFare), terms.rules.capAmount)
    ensures AtLeastGuarantee(ChargeFor(terms, distance).vendorPayable, capped, terms.rules.minimumGuarantee)
  {
    capped := Amount(terms, distance);
  }

  // Tax comes on top, for the corporate only.
  lemma TaxComesOnTop(terms: Terms, distance: real)
    ensures var c := ChargeFor(terms, distance);
            && c.taxes * 100.0 == c.vendorPayable * Given(terms.rules.taxRatePercent)
            && c.corporateCharge == c.vendorPayable + c.taxes
  {
    hide Payable;
    var rate := OrZero(terms.rules.taxRatePercent);
    assert rate / 100.0 * 100.0 == rate;
  }

  // ---- Slabs that follow one another ----

  ghost predicate WellFormed(slabs: seq<Slab>) {
    && (forall k | 0 <= k < |slabs| && slabs[k].maxKm.Some? :: slabs[k].minKm < slabs[k].maxKm.value)
    && (forall k | 0 <= k < |slabs| - 1 :: slabs[k].maxKm == Some(slabs[k + 1].minKm))
    && (forall k | 0 <= k < |slabs| - 1 :: slabs[k].rate <= slabs[k + 1].rate)
  }

  lemma {:induction false} SlabsAscend(slabs: seq<Slab>, i: int, j: int)
    requires WellFormed(slabs) && 0 <= i <= j < |slabs|
    ensures slabs[i].minKm <= slabs[j].minKm && slabs[i].rate <= slabs[j].rate
    ensures i < j ==> slabs[i].maxKm.Some? && slabs[i].maxKm.value <= slabs[j].minKm
    decreases j - i
  {
    if i < j {
      SlabsAscend(slabs, i + 1, j);
      assert slabs[i].maxKm == Some(slabs[i + 1].minKm);
    }
  }

  // `find` picks the one slab that holds the distance.
  lemma {:induction false} MatchingIsTheSlab(slabs: seq<Slab>, distance: real, k: int)
    requires WellFormed(slabs) && 0 <= k < |slabs| && slabs[k].Holds(distance)
    ensures Matching(slabs, distance) == Some(slabs[k])
    ensures forall j | 0 <= j < |slabs| && slabs[j].Holds(distance) :: j == k
    decreases |slabs|
  {
    forall j | 0 <= j < |slabs| && slabs[j].Holds(distance) ensures j == k {
      if j < k { SlabsAscend(slabs, j, k); } else if k < j { SlabsAscend(slabs, k, j); }
    }
    if k > 0 {
      WellFormedTail(slabs);
      assert slabs[1..][k - 1] == slabs[k];
      MatchingIsTheSlab(slabs[1..], distance, k - 1);
    }
  }

  lemma WellFormedTail(slabs: seq<Slab>)
    requires WellFormed(slabs) && slabs != []
    ensures WellFormed(slabs[1..])
  {
    var t := slabs[1..];
    assert forall k | 0 <= k < |t| :: t[k] == slabs[k + 1];
  }

  // Above the first slab's minimum a distance lies in some slab or beyond the last one.
  lemma {:induction false} PositionOf(slabs: seq<Slab>, distance: real) returns (k: int)
    requires WellFormed(slabs) && slabs != [] && distance > slabs[0].minKm
    ensures 0 <= k < |slabs| && distance > slabs[k].minKm
    ensures SlabRate(slabs, distance) == slabs[k].rate
    ensures k < |slabs| - 1 ==> distance <= slabs[k + 1].minKm
    decreases |slabs|
  {
    if slabs[0].Holds(distance) {
      k := 0;
    } else if |slabs| == 1 {
      k := 0;
      assert Matching(slabs[1..], distance) == None;
    } else {
      var t := slabs[1..];
      WellFormedTail(slabs);
      var j := PositionOf(t, distance);
      assert t[j] == slabs[j + 1] && Last(t) == Last(slabs);
      k := j + 1;
    }
  }

  lemma SlabRateMonotone(slabs: seq<Slab>, shorter: real, longer: real)
    requires WellFormed(slabs) && (slabs != [] ==> slabs[0].minKm < shorter) && shorter <= longer
    ensures SlabRate(slabs, shorter) <= SlabRate(slabs, longer)
  {
    if slabs != [] {
      var i := PositionOf(slabs, shorter);
      var j := PositionOf(slabs, longer);
      if i <= j {
        SlabsAscend(slabs, i, j);
      } else {
        SlabsAscend(slabs, j + 1, i);
      }
    }
  }

  // ---- A longer trip never costs less ----

  ghost predicate FairTerms(terms: Terms) {
    OrZero(terms.rules.perKmRate) >= 0.0 && OrZero(terms.rules.taxRatePercent) >= 0.0 && WellFormed(terms.rules.slabs)
  }

  lemma ScaledMonotone(a: real, b: real, c: real)
    requires a <= b && c >= 0.0
    ensures a * c <= b * c
  {
  }

  lemma AmountMonotone(terms: Terms, shorter: real, longer: real)
    requires FairTerms(terms) && shorter <= longer
    requires terms.model.SlabModel? && terms.rules.slabs != [] ==> terms.rules.slabs[0].minKm < shorter
    ensures Amount(terms, shorter) <= Amount(terms, longer)
  {
    var rate := OrZero(terms.rules.perKmRate);
    ScaledMonotone(shorter, longer, rate);
    match terms.model
    case PerKm => assert Amount(terms, shorter) == shorter * rate && Amount(terms, longer) == longer * rate;
    case Hybrid =>
      var flat := OrZero(terms.rules.perTripFlat);
      assert Amount(terms, shorter) == shorter * rate + flat && Amount(terms, longer) == longer * rate + flat;
    case SlabModel => SlabRateMonotone(terms.rules.slabs, shorter, longer);
    case _ =>
  }

  lemma TaxedMonotone(low: real, high: real, tax: real)
    requires low <= high && tax >= 0.0
    ensures low + low * tax <= high + high * tax
  {
    ScaledMonotone(low, high, tax);
  }

  lemma PayableMonotone(terms: Terms, shorter: real, longer: real)
    requires FairTerms(terms) && shorter <= longer
    requires terms.model.SlabModel? && terms.rules.slabs != [] ==> terms.rules.slabs[0].minKm < shorter
    ensures Payable(terms, shorter) <= Payable(terms, longer)
    ensures ChargeFor(terms, shorter).corporateCharge <= ChargeFor(terms, longer).corporateCharge
  {
    AmountMonotone(terms, shorter, longer);
    hide Amount;
    TaxedMonotone(Payable(terms, shorter), Payable(terms, longer), OrZero(terms.rules.taxRatePercent) / 100.0);
  }

  ghost predicate MonotoneEverywhere(terms: Terms) {
    forall a, b | 0.0 <= a <= b :: Payable(terms, a) <= Payable(terms, b)
  }

  // A distance at or below the first slab's minimum is charged at the last slab's rate, so the
  // price is monotone over all distances exactly when there is no such distance, or when cap
  // and guarantee level the two rates out.
  lemma SlabMonotoneExactlyWhen(terms: Terms)
    requires FairTerms(terms) && terms.model.SlabModel? && terms.rules.slabs != []
    ensures MonotoneEverywhere(terms) <==>
              || terms.rules.slabs[0].minKm < 0.0
              || (Guaranteed(terms.rules, Capped(terms.rules, terms.rules.slabs[0].rate))
                  == Guaranteed(terms.rules, Capped(terms.rules, Last(terms.rules.slabs).rate)))
  {
    var slabs := terms.rules.slabs;
    var first := slabs[0];
    var low, high := first.minKm, if first.maxKm.Some? then first.maxKm.value else first.minKm + 1.0;
    SlabsAscend(slabs, 0, |slabs| - 1);
    BelowFirst(slabs, low);
    MatchingIsTheSlab(slabs, high, 0);
    if MonotoneEverywhere(terms) && low >= 0.0 {
      assert Payable(terms, low) <= Payable(terms, high);
    }
    forall a, b | 0.0 <= a <= b
      && (low < 0.0
          || Guaranteed(terms.rules, Capped(terms.rules, first.rate)) == Guaranteed(terms.rules, Capped(terms.rules, Last(slabs).rate)))
      ensures Payable(terms, a) <= Payable(terms, b)
    {
      if a > low {
        PayableMonotone(terms, a, b);
      } else {
        BelowFirst(slabs, a);
        RateBetween(slabs, b);
      }
    }
  }

  // A trip of unknown distance counts as 0 km, and can cost more than a short one.
  const TWO_SLABS := Terms(SlabModel,
    Rules(None, None, None, None, None, [Slab(0.0, Some(10.0), 100.0), Slab(10.0, None, 500.0)], None))

  lemma UnknownDistanceCostsMost()
    ensures FairTerms(TWO_SLABS) && Payable(TWO_SLABS, 0.0) == 500.0 && Payable(TWO_SLABS, 5.0) == 100.0
    ensures !MonotoneEverywhere(TWO_SLABS)
  {
    var slabs := TWO_SLABS.rules.slabs;
    BelowFirst(slabs, 0.0);
    MatchingIsTheSlab(slabs, 5.0, 0);
    assert Payable(TWO_SLABS, 0.0) == 500.0 && Payable(TWO_SLABS, 5.0) == 100.0;
  }

  lemma {:induction false} BelowFirst(slabs: seq<Slab>, distance: real)
    requires WellFormed(slabs) && slabs != [] && distance <= slabs[0].minKm
    ensures Matching(slabs, distance) == None
  {
    if |slabs| > 1 {
      SlabsAscend(slabs, 0, 1);
      WellFormedTail(slabs);
      BelowFirst(slabs[1..], distance);
    }
  }

  lemma RateBetween(slabs: seq<Slab>, distance: real)
    requires WellFormed(slabs) && slabs != []
    ensures slabs[0].rate <= SlabRate(slabs, distance) <= Last(slabs).rate
  {
    if distance <= slabs[0].minKm {
      BelowFirst(slabs, distance);
      SlabsAscend(slabs, 0, |slabs| - 1);
    } else {
      var k := PositionOf(slabs, distance);
      SlabsAscend(slabs, 0, k);
      SlabsAscend(slabs, k, |slabs| - 1);
    }
  }
}
