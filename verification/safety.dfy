// Configurable safety policies, evaluated against the planned order of stops.
module Safety {
  import opened Common

  // Other rule types are stored but never looked at by the evaluation.
  datatype SafetyRule =
    | LastDropRestriction(mandatory: bool, afterHour: Option<real>, appliesToGender: Option<string>)
    | GuardRequired(mandatory: bool, afterHour: Option<real>)
    | MaxRideTime(mandatory: bool, maxMinutes: Option<real>)
    | UnevaluatedRule(mandatory: bool)

  datatype Passenger = Passenger(gender: Option<string>, isFinal: bool)

  datatype RouteInput = RouteInput(dropAt: int, passengers: seq<Passenger>, hasGuard: bool, rideMinutes: real)

  const HOUR_MS := 60 * 60 * 1000

  function DropHour(input: RouteInput): int {
    (input.dropAt / HOUR_MS) % 24
  }

  function Upper(s: string): string {
    seq(|s|, k requires 0 <= k < |s| => if 'a' <= s[k] <= 'z' then s[k] - 'a' + 'A' else s[k])
  }

  // A passenger without a recorded gender is never restricted.
  predicate Restricted(p: Passenger, gender: string) {
    p.isFinal && p.gender.Some? && p.gender.value != "" && Upper(p.gender.value) == Upper(gender)
  }

  predicate Violates(rule: SafetyRule, input: RouteInput) {
    match rule
    case LastDropRestriction(_, afterHour, appliesToGender) =>
      && DropHour(input) as real >= (if afterHour.Some? then afterHour.value else 24.0)
      && exists k | 0 <= k < |input.passengers| ::
           Restricted(input.passengers[k], if appliesToGender.Some? then appliesToGender.value else "")
    case GuardRequired(_, afterHour) =>
      && (afterHour.None? || DropHour(input) as real >= afterHour.value)
      && !input.hasGuard
    case MaxRideTime(_, maxMinutes) => maxMinutes.Some? && input.rideMinutes > maxMinutes.value
    case UnevaluatedRule(_) => false
  }

  ghost predicate Breaks(rules: seq<SafetyRule>, input: RouteInput, k: int) {
    0 <= k < |rules| && rules[k].mandatory && Violates(rules[k], input)
  }

  // No mandatory rule is broken.
  ghost predicate IsSafe(rules: seq<SafetyRule>, input: RouteInput) {
    forall k | 0 <= k < |rules| :: !Breaks(rules, input, k)
  }

  // A mandatory guard rule fires.
  ghost predicate GuardNeeded(rules: seq<SafetyRule>, input: RouteInput) {
    exists k | 0 <= k < |rules| :: Breaks(rules, input, k) && rules[k].GuardRequired?
  }

  // The broken rules, in policy order.
  function Broken(rules: seq<SafetyRule>, input: RouteInput): seq<SafetyRule> {
    if rules == [] then []
    else Broken(rules[..|rules| - 1], input) + if Violates(Last(rules), input) then [Last(rules)] else []
  }

  // Collects the broken rules in policy order. With no active policy there are no rules.
  method EvaluateRoute(rules: seq<SafetyRule>, input: RouteInput)
    returns (passed: bool, violations: seq<SafetyRule>)
    ensures passed <==> IsSafe(rules, input)
    ensures (exists v :: v in violations && v.GuardRequired? && v.mandatory) <==> GuardNeeded(rules, input)
    ensures violations == Broken(rules, input)
    ensures forall v :: v in violations <==> v in rules && Violates(v, input)
  {
    violations := [];
    for k := 0 to |rules|
      invariant violations == Broken(rules[..k], input)
      invariant forall v :: v in violations <==> v in rules[..k] && Violates(v, input)
    {
      assert rules[..k + 1] == rules[..k] + [rules[k]];
      if Violates(rules[k], input) {
        violations := violations + [rules[k]];
      }
    }
    assert rules[..|rules|] == rules;
    passed := forall v :: v in violations ==> !v.mandatory;
    if !passed {
      var v :| v in violations && v.mandatory;
      var k :| 0 <= k < |rules| && rules[k] == v;
      assert Breaks(rules, input, k);
    }
    forall k | Breaks(rules, input, k) ensures rules[k] in violations {}
    if exists v :: v in violations && v.GuardRequired? && v.mandatory {
      var v :| v in violations && v.GuardRequired? && v.mandatory;
      var k :| 0 <= k < |rules| && rules[k] == v;
      assert Breaks(rules, input, k);
    }
  }

  // The planner evaluates a route without a guard, and once it has found one it looks at no
  // other rule again. The guarded trip is safe exactly when every mandatory rule the unguarded
  // route breaks is a guard rule.
  lemma GuardedRouteSafeExactlyWhen(rules: seq<SafetyRule>, input: RouteInput)
    requires !input.hasGuard
    ensures IsSafe(rules, input.(hasGuard := true))
       <==> forall k | 0 <= k < |rules| :: Breaks(rules, input, k) ==> rules[k].GuardRequired?
  {
    var guarded := input.(hasGuard := true);
    forall k | 0 <= k < |rules|
      ensures Breaks(rules, guarded, k) <==> Breaks(rules, input, k) && !rules[k].GuardRequired?
    {
    }
  }

  // For instance, a woman dropped last at night still breaks the last-drop rule with a guard aboard.
  lemma GuardDoesNotCureLastDrop()
    ensures var rules := [LastDropRestriction(true, Some(20.0), Some("female")), GuardRequired(true, None)];
            var input := RouteInput(22 * HOUR_MS, [Passenger(Some("female"), true)], false, 30.0);
            GuardNeeded(rules, input) && !IsSafe(rules, input.(hasGuard := true))
  {
    var rules := [LastDropRestriction(true, Some(20.0), Some("female")), GuardRequired(true, None)];
    var input := RouteInput(22 * HOUR_MS, [Passenger(Some("female"), true)], false, 30.0);
    assert Restricted(input.passengers[0], "female");
    assert Breaks(rules, input, 1);
    assert Breaks(rules, input.(hasGuard := true), 0);
  }
}
