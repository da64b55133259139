# Kruze operations: a verified model

Kruze plans and runs employee transport: each day it turns a shift's roster into vehicle loads,
orders their stops, gives each load a vendor, vehicle, driver and sometimes a guard, carries the
trips through a life cycle, and finally prices, invoices and pays for them. This project models
the parts of its API that decide something, and proves what they promise.

## What is modelled

**Routing** (`path_length`, `two_opt`, `clustering`, `geo_routing`). Greedy clustering by
proximity, nearest-neighbour construction and the 2-opt search, as loops over arrays and
sequences of indices. Distance is any symmetric real-valued function, so the length of the path
is no termination measure; the set of orderings still shorter than the current one is.

**Trips** (`trip_state_machine`, `trips`, `trip_runs`, `trip_laws`, `trip_service`,
`stale_commits`). The table of fourteen statuses, and creation, transition, assignment and
replacement over the tables of trips, assignments and events. Each operation is written twice
over: as a function on a `Store` value, split into a check (the reads) and a commit (the
version-guarded write), and as a method of a class that updates its tables and is proved to do
what the function says. `trip_laws` says what these functions mean for the rows, without naming
what they are made of. `trip_runs` treats a whole call as one atomic step. `stale_commits` lets
any number of calls check first and commit later, in any order, which is what the database
allows, because the conflict check runs outside the transaction.

**Planning** (`compliance`, `safety`, `allocation`, `plans`, `planner`, `planning_laws`,
`plan_runs`, `plan_laws`). Document compliance, safety rules, the search for a vendor's first fit
vehicle, driver and guard, the loop over groups with its counters and exception rows, plan
versions, and publication. `planning_laws` and `plan_laws` restate what a group's planning, a
generation and a publication come to, from the stops, the fleet, the rules and the rows alone.
`plan_runs` splits a generation into a start, any number of steps in between, and a finish that
may never come, and interleaves these with publications and trip operations.

**Export** (`csv_export`). The CSV printer, a reader written to undo it, and the exact condition
under which it does. Quoting follows section 2 of RFC 4180, with a line feed between records.

**Money** (`pricing`, `rate_cards`, `trip_charges`, `invoices`, `driver_pay`). Slab pricing,
versioned rate cards, charges of completed trips, invoice reconciliation, payables per vendor and
driver vouchers, in exact reals.

## Where the code and its promises part

For each of these there is a lemma with the exact condition under which the promise is kept, and
one with an input, or a run, for which it is not.

- The 2-opt loops are documented to run until no swap improves the route, but skip the pair
  (0, n - 1). The result is optimal for all later-segment reversals exactly when the last stop is
  no closer to the first than the second stop is (`TwoOpt.FullyOptimalExactlyWhen`,
  `GeoRouting.SkippedPairMatters`).
- `assign` is documented never to double-book. That holds when calls are atomic, and fails when two
  checks both run before either commit (`StaleCommits.StaleChecksDoubleBook`). A late commit keeps
  bookings apart exactly when no live trip that overlaps has taken the crew by then; it does if the
  check would still pass, though the check also refuses crews of open-ended trips that do not
  overlap (`StaleCommits.ReachedCommitHarmlessExactlyWhen`, `StaleCommits.PassingCheckIsFree`,
  `StaleCommits.ConflictExactlyWhen`, `StaleCommits.FreeCrewTurnedDown`).
- Under stale reads the event log can also stop replaying to the row's status
  (`StaleCommits.StaleAssignBreaksReplay`, `StaleCommits.LateAssignReplaysExactlyWhen`).
- A document without an expiry sorts as the oldest, so a lapsed dated document of the same type
  hides it (`Compliance.CompliantExactlyWhen`, `Compliance.LapsedHidesUndated`).
- Once a guard is found the other mandatory safety rules are not looked at again
  (`Safety.GuardedRouteSafeExactlyWhen`, `Safety.GuardDoesNotCureLastDrop`).
- A distance at or below the first slab's minimum is charged at the last slab's rate, and an
  unknown distance counts as 0, so the price can fall as the distance grows
  (`Pricing.SlabMonotoneExactlyWhen`, `Pricing.UnknownDistanceCostsMost`).
- "Versioned, never edited" rate cards freeze the past exactly if an added card starts no earlier
  than the operation, every date that closing a card reopens has a newer card of its key, and so has
  every past date to which an edit's successor applies (`RateCards.PrudentExactlyWhen`,
  `RateCards.PastPricesCanChange`). For the newest card of a key the second part means that it had
  not run out (`RateCards.NewestHiddenExactlyWhen`).
- The export header is not escaped (`CsvExport.ReadBackExactlyWhen`, `CsvExport.HeaderIsNotEscaped`).
- A completed trip can still be given another crew, which moves its pay from one driver to another
  (`DriverPay.LateCrewKeepsPayExactlyWhen`, `DriverPay.LateCrewTakesPay`).
- A trip may be made by hand for a plan that is already published, and then stays created; that is
  the only way in which a published plan stops being clean (`PlanRuns.StepSound`,
  `PlanRuns.TripJoinsPublished`).
- A plan is READY exactly when every group got a trip, and then has open exceptions exactly when,
  for some group, a vendor tried before the one that serves it was refused with an exception
  (`Planner.ReadyWithExceptionsExactlyWhen`, `Planner.ReadyDespiteException`).

## Model

| member | source | states |
|---|---|---|
| PathLength.ReversalGain | apps/api/src/planning/geo-routing.ts:118-121 | reversing a segment changes the length of the whole open path by exactly `after - before`, given a symmetric distance |
| TwoOpt.ReverseSegment | apps/api/src/planning/geo-routing.ts:131-137 | the swapping loop turns the segment round in place and leaves the rest alone |
| TwoOpt.TryReversal | apps/api/src/planning/geo-routing.ts:113-123 | the local comparison of four edges decides exactly whether the whole path would get shorter, and reverses just then |
| TwoOpt.FewerShorter | apps/api/src/planning/geo-routing.ts:107-126 | a strictly shorter rearrangement leaves strictly fewer orderings to beat: the termination measure of the outer loop for arbitrary real distances |
| TwoOpt.Sweep | apps/api/src/planning/geo-routing.ts:110-125 | a sweep either makes the path strictly shorter, or changes nothing and proves that no visited pair would |
| TwoOpt.Optimize | apps/api/src/planning/geo-routing.ts:107-126 | the loop ends, with a rearrangement that keeps the first stop, is no longer, and that no visited reversal shortens |
| TwoOpt.FullyOptimalExactlyWhen | apps/api/src/planning/geo-routing.ts:111-113 | what skipping the pair (0, n - 1) costs: the result is optimal for every reversal iff the last stop is no closer to the first than the second one |
| GeoRouting.SkippedPairMatters | apps/api/src/planning/geo-routing.ts:71-76 | four stops on which the first pair looked at shortens the nearest-neighbour route to one that no other visited pair shortens, so that the search ends there, and that one more reversal would shorten |
| GeoRouting.NearestNeighbourOrder | apps/api/src/planning/geo-routing.ts:89-105 | visits every stop once from the first, each the nearest unvisited one, the smallest index among ties |
| GeoRouting.NearestNeighbourUnique | apps/api/src/planning/geo-routing.ts:96-102 | only one order satisfies that description |
| GeoRouting.OrderRouteByDistance | apps/api/src/planning/geo-routing.ts:77-129 | a rearrangement with the first stop unchanged; by the metric between the stops' homes, no part of it is shorter the other way round (but for the skipped one) and it is no longer than always going to the nearest stop; the input itself for two or fewer stops or missing coordinates |
| Clustering.GreedyClusteringUnique | apps/api/src/planning/geo-routing.ts:34-54 | the greedy description (seed: smallest unplaced index; then the unplaced index nearest to the group, first among ties) admits exactly one clustering |
| Clustering.GreedyCovers | apps/api/src/planning/geo-routing.ts:31-56 | a greedy clustering places every index exactly once |
| Clustering.GreedyPacked | apps/api/src/planning/geo-routing.ts:34-54 | no group is empty or over the limit, and all but the last are full |
| Clustering.PackedCount | apps/api/src/planning/geo-routing.ts:22-57 | such groups number exactly the ceiling of n / k |
| Clustering.MinDistanceToCluster | apps/api/src/planning/geo-routing.ts:59-69 | the scan finds the distance to the nearest member |
| Clustering.NearestRemaining | apps/api/src/planning/geo-routing.ts:40-48 | the scan over the shrinking set finds the greedy choice, ties included |
| Clustering.GrowCluster | apps/api/src/planning/geo-routing.ts:35-51 | one round makes a complete greedy group and removes just its members |
| Clustering.ClusterIndices | apps/api/src/planning/geo-routing.ts:31-56 | the loops produce the greedy clustering; a limit below one acts like one |
| Clustering.Chunk | apps/api/src/planning/geo-routing.ts:139-145 | slices that join up to the input, all but the last full |
| GeoRouting.ClusterByProximity | apps/api/src/planning/geo-routing.ts:22-57 | on both paths a partition of the input into ceil(n / k) packed groups; roster order when a home is unknown; otherwise each group starts with the first employee waiting, and whoever joins is the nearest one waiting by the metric between homes, the first among equals |
| TripStateMachine.MilestonesPassed | apps/api/src/trip/trip-state-machine.ts:11-26 | every path of the table has passed, in order, as many milestones as its last status implies, from creation and again from a breakdown |
| TripStateMachine.EnteredExactlyFrom | apps/api/src/trip/trip-state-machine.ts:11-30 | for each status, exactly the statuses it can be entered from |
| TripStateMachine.EarlierMilestoneFirst | apps/api/src/trip/trip-state-machine.ts:11-26 | a milestone is first entered only after the one before it was first entered |
| TripStateMachine.RecoveredAfterBreakdown | apps/api/src/trip/trip-state-machine.ts:11-26 | after each breakdown a path to COMPLETED passes REASSIGNING and the whole chain again |
| TripStateMachine.TerminalIsLast | apps/api/src/trip/trip-state-machine.ts:32-34 | nothing follows a terminal status on any path |
| Trips.IgnoredExactlyTerminal | apps/api/src/trip/trip.service.ts:291 | the statuses the conflict query leaves out are exactly those without an outgoing edge |
| TripRuns.CheckedCrewIsFree | apps/api/src/trip/trip.service.ts:278-300 | a request that passed the conflict check overlaps no other live trip of its driver, vehicle or guard |
| TripRuns.CreateKeeps | apps/api/src/trip/trip.service.ts:20-68 | creation keeps the store consistent: references, one active assignment per trip, no double booking, log replays |
| TripRuns.TransitionKeeps | apps/api/src/trip/trip.service.ts:70-108 | so does a transition |
| TripRuns.AssignKeeps | apps/api/src/trip/trip.service.ts:116-184 | so does an assignment |
| TripRuns.EveryRunIsSafe | apps/api/src/trip/trip.service.ts:20-184 | every run of these calls, each atomic, from empty tables is free of double bookings, has one active assignment per trip, and its log replays to each row's status, version and times |
| TripRuns.ReachedIsConsistent | apps/api/src/trip/trip.service.ts:20-184 | whatever some sequence of such calls leads to from a consistent store is consistent, for the calls made of several steps below |
| TripRuns.RunGrows | apps/api/src/trip/trip.service.ts:83-101 | histories only grow, and a recorded start time never changes |
| TripRuns.TerminalIsFinal | apps/api/src/trip/trip-state-machine.ts:32-34 | once terminal, a trip's status and version never change again |
| TripRuns.CompletedTripVisited | apps/api/src/trip/trip-state-machine.ts:11-26 | each milestone of a completed trip was first visited before the next one |
| TripRuns.CompletedTripRecovered | apps/api/src/trip/trip-state-machine.ts:11-26 | after every breakdown in its log a completed trip was reassigned and made the chain again |
| TripRuns.EndedTrips | apps/api/src/trip/trip.service.ts:88-89 | an end time is on completed trips only, and those have a start time |
| TripRuns.EndsAfterStart | apps/api/src/trip/trip.service.ts:88-89 | with a clock that never runs backwards no trip ends before it started |
| TripRuns.TransitionOutcome | apps/api/src/trip/trip.service.ts:83-101 | a transition moves one row along an edge, counts its version up, sets its times where due and logs the status |
| TripLaws.NeverTwiceAtOnce | apps/api/src/trip/trip.service.ts:110-143 | in a consistent store no driver, vehicle or guard is on two trips that are not over and whose times overlap, an unscheduled end counting as two hours |
| TripLaws.AssignedExactlyWhen | apps/api/src/trip/trip.service.ts:121-143 | a crew is accepted iff the caller is a party and every resource is eligible for the trip's vendor and corporate and held for no other trip then; otherwise the first one that is not decides the error |
| TripLaws.AssignedRows | apps/api/src/trip/trip.service.ts:145-176 | an accepted crew supersedes the trip's earlier ones, the status moves only from SCHEDULED and REASSIGNING, and the call is logged |
| TripLaws.EveryAssignmentWasFit | apps/api/src/trip/trip.service.ts:132-160 | over any run every assignment was made by a call of a party with that crew, all of it eligible when it was made |
| TripLaws.MovedExactlyWhen | apps/api/src/trip/trip.service.ts:72-81 | each error of a transition, and success, iff its condition on the row holds |
| TripLaws.CreatedExactlyWhen | apps/api/src/trip/trip.service.ts:35-60 | a trip is made iff everybody on it is known, named once and the caller's; the row holds what was asked for |
| TripServices.TripService.Create | apps/api/src/trip/trip.service.ts:20-68 | does what the specification says in the success and each error case, and keeps the tables consistent |
| TripServices.TripService.Move | apps/api/src/trip/trip.service.ts:70-108 | the same for a transition |
| TripServices.TripService.CheckRole | apps/api/src/trip/trip.service.ts:266-300 | eligibility first, then a conflicting active assignment, per kind of resource |
| TripServices.TripService.AssignCrew | apps/api/src/trip/trip.service.ts:116-184 | the same for an assignment: supersedes the old crew, moves the status where the edge exists |
| TripServices.TripService.Replace | apps/api/src/incident/operations.service.ts:119-134 | each error case in order, and otherwise the two service calls one after the other, keeping the tables consistent |
| TripServices.ReplacementOutcome | apps/api/src/incident/operations.service.ts:119-134 | success takes a trip from BREAKDOWN to RESOURCES_ASSIGNED two versions on with the new crew; a crew that is turned down leaves it in REASSIGNING with the old one |
| TripServices.ReplacementRefusedExactlyWhen | apps/api/src/incident/operations.service.ts:119-128 | each refusal before the crew is looked at, iff its condition on the trip holds, and nothing changed |
| TripServices.ReplacedReaches | apps/api/src/incident/operations.service.ts:119-134 | a replacement leaves what a transition and an assignment would |
| StaleCommits.CommitLegal | apps/api/src/trip/trip.service.ts:83-91 | a version-guarded commit of a stale call still only follows edges of the table |
| StaleCommits.RunLegal | apps/api/src/trip/trip.service.ts:121-178 | under any interleaving of reads and commits every committed change is an edge, the version counts the changes, and each trip has at most one active assignment |
| StaleCommits.SameVersionSameStatus | apps/api/src/trip/trip.service.ts:83-87 | the version determines the status, never falls, and stands still on terminal trips |
| StaleCommits.StaleChecksDoubleBook | apps/api/src/trip/trip.service.ts:110-143 | a run in which two checks pass before either commit double-books a driver |
| StaleCommits.LateAssignBooksExactlyWhen | apps/api/src/trip/trip.service.ts:145-167 | a late commit double-books nobody iff no live trip whose window overlaps holds any of the crew when it commits |
| StaleCommits.PassingCheckIsFree | apps/api/src/trip/trip.service.ts:129-143 | the crew is so free whenever the check would pass |
| StaleCommits.ConflictExactlyWhen | apps/api/src/trip/trip.service.ts:285-296 | the conflict query finds an assignment iff it overlaps, or its trip has no scheduled end and its two hours are over |
| StaleCommits.FreeCrewTurnedDown | apps/api/src/trip/trip.service.ts:285-299 | a crew that is free and yet refused |
| StaleCommits.StaleAssignBreaksReplay | apps/api/src/trip/trip.service.ts:162-178 | a run in which a late assignment logs an event that replays to a move the row did not make |
| StaleCommits.LateAssignReplaysExactlyWhen | apps/api/src/trip/trip.service.ts:162-178 | the log keeps replaying iff the trip has not since gained the edge to RESOURCES_ASSIGNED |
| StaleCommits.ReachedCommitHarmlessExactlyWhen | apps/api/src/trip/trip.service.ts:121-178 | both conditions, for every pending assignment of every system that reads and commits can reach |
| Compliance.UndatedPickedExactlyWhen | apps/api/src/compliance/compliance.service.ts:45-47 | a document without expiry is picked iff there is one and no dated document outranks it |
| Compliance.CompliantExactlyWhen | apps/api/src/compliance/compliance.service.ts:45-57 | a rule is met iff some document is unexpired, or one is undated and no dated one outranks it |
| Compliance.LapsedHidesUndated | apps/api/src/compliance/compliance.service.ts:45-47 | a lapsed document takes away the compliance an undated one gave |
| Compliance.NonCompliantExactlyWhen | apps/api/src/compliance/compliance.service.ts:45-57 | a rule fails iff every dated document is past its grace and no undated one is picked |
| Compliance.RuleSatisfiedExactly | apps/api/src/compliance/compliance.service.ts:36-57 | a rule is met, or fails, by conditions on the subject's verified documents of its type alone |
| Compliance.EligibleExactlyWhen | apps/api/src/compliance/compliance-rule.service.ts:43-55 | somebody is eligible iff every active blocking rule for everybody, the vendor or the corporate has a document within its grace or one that never runs out |
| Compliance.Evaluate | apps/api/src/compliance/compliance.service.ts:25-91 | non-compliant iff a blocking rule fails, compliant iff every rule is met, eligible iff not non-compliant; the failures and warnings listed in rule order |
| Safety.EvaluateRoute | apps/api/src/safety/safety.service.ts:103-174 | passes iff no mandatory rule is broken; the violations are exactly the broken rules, in policy order |
| Safety.GuardedRouteSafeExactlyWhen | apps/api/src/planning/planning.service.ts:297-310 | adding a guard makes the route safe iff every mandatory rule it broke is a guard rule |
| Safety.GuardDoesNotCureLastDrop | apps/api/src/planning/planning.service.ts:297-310 | a route for which the planner finds a guard and still breaks a mandatory rule |
| Allocation.FindEligible | apps/api/src/planning/planning.service.ts:389-487 | a loop that never breaks early returns the first fit candidate, and logs the candidates in order |
| Allocation.LoggedExactlyWhen | apps/api/src/planning/planning.service.ts:400-425 | an entry is in the log iff it is an unfit candidate with the first check it failed, or the first fit one |
| PlanningLaws.JudgedExactlyWhen | apps/api/src/planning/planning.service.ts:400-425 | which check a resource fails first: seats, eligibility, maintenance, another trip in the two hours, or none |
| Allocation.TryVendor | apps/api/src/planning/planning.service.ts:268-310 | a vendor is used iff it can serve the group; otherwise the exception it leaves, if any |
| Allocation.FitIsAccepted | apps/api/src/planning/planning.service.ts:489-503 | what the planner's availability query lets through passes the trip service's own checks |
| Allocation.PlannedTripCreated | apps/api/src/planning/planning.service.ts:312-318 | creating a planned trip never fails |
| Allocation.PlannedCrewAccepted | apps/api/src/planning/planning.service.ts:320-325 | assigning the chosen crew to it never fails |
| Allocation.FindReplacementVehicle | apps/api/src/incident/operations.service.ts:90-117 | the first of the vendor's first twenty other active vehicles that is eligible and that no trip still to be driven holds |
| Allocation.ReplacementAccepted | apps/api/src/incident/operations.service.ts:90-117 | the trip service accepts that vehicle for every trip of the vendor and corporate, whatever its window |
| Planner.GroupAndRoute | apps/api/src/planning/planning.service.ts:219-235 | the solver's routes, stop by stop, when it answered and every home is known; otherwise as few loads of at most six as possible, by proximity or in roster order; a partition of the demand either way |
| Planner.PlannedTripMade | apps/api/src/planning/planning.service.ts:312-325 | creating and staffing a planned trip appends exactly one created trip and one active assignment |
| Planner.PlannedTripReaches | apps/api/src/planning/planning.service.ts:312-325 | making a planned trip leaves what a creation and an assignment would |
| Planner.PlannedTripSafeExactlyWhen | apps/api/src/planning/planning.service.ts:283-325 | a trip planned without a guard breaks no mandatory safety rule on its stop order; one with a guard breaks none iff the route broke only guard rules |
| PlanningLaws.SafetyExactly | apps/api/src/planning/planning.service.ts:283-293 | the safety check on the ordered stops says what each rule says of the hour, the last stop's gender and half an hour |
| PlanningLaws.GroupPlannedExactly | apps/api/src/planning/planning.service.ts:244-339 | in terms of fleet, rules, stops and tables: a trip is made iff some vendor serves, by the first, with the first vehicle, driver and, if due, guard that suit; the rows left by every vendor tried |
| PlanningLaws.UnguardedTripBreaksNothing | apps/api/src/planning/planning.service.ts:297-325 | no mandatory rule is broken by a trip made without a guard |
| PlanningLaws.RestrictedPassengerIsNotLast | apps/api/src/safety/safety.service.ts:116-132 | once its hour has come the last stop of an unguarded trip is not of the restricted gender, whatever the case of its letters |
| PlanningLaws.ImpossibleRouteIsRefused | apps/api/src/planning/planning.service.ts:307-310 | a route that breaks a mandatory rule when no guard is due gets no trip, and every vendor with a vehicle and a driver leaves the reason |
| Planner.PlanningService.SearchVendors | apps/api/src/planning/planning.service.ts:268-339 | a trip is made iff some vendor can serve the group, with the first such vendor; otherwise nothing changes but the exception rows |
| Planner.PlanningService.PlanGroup | apps/api/src/planning/planning.service.ts:244-339 | the same for the group ordered by distance, with the rows it left and the trips before and after |
| Planner.PlanningService.MakeTrip | apps/api/src/planning/planning.service.ts:312-325 | both service calls succeed and leave exactly the planned trip |
| Planner.RoundAt | apps/api/src/planning/planning.service.ts:119-120 | each group of a generation is planned as one group is, on the trips the groups before it left |
| Planner.GroupDone | apps/api/src/planning/planning.service.ts:119-128 | one group keeps the tally of trips, failed groups, guards, exception rows and placed employees |
| Planner.RoundsTally | apps/api/src/planning/planning.service.ts:119-128 | after all groups: trip k carries the employees of the k-th served group, the unserved groups each left their row in order, every trip is staffed with enough seats, and nobody is lost or repeated |
| Planner.RoundsReach | apps/api/src/planning/planning.service.ts:119-128 | planning the groups leaves what some run of creations and assignments would |
| Planner.PlanningService.PlanGroups | apps/api/src/planning/planning.service.ts:114-128 | the groups are planned one after the other, each on the trips the earlier ones left, and the counters say how many were served, failed and guarded and how many employees are left over |
| Planner.EveryoneAccountedFor | apps/api/src/planning/planning.service.ts:114-143 | every demanded employee is on exactly one of the plan's trips or in exactly one failed group; the unassigned are the demand less those on trips |
| PlanningLaws.SummaryCounts | apps/api/src/planning/planning.service.ts:114-143 | each counter of the plan's summary is the count, over the groups, of what it is named for |
| Planner.ReadyWithExceptionsExactlyWhen | apps/api/src/planning/planning.service.ts:130-135 | the plan is READY iff every group was served, and then has open exceptions iff a vendor tried before the serving one was refused with an exception |
| Planner.ReadyDespiteException | apps/api/src/planning/planning.service.ts:302-309 | a fleet and two vendors for which a plan is READY with an open exception |
| Planner.TripsOfPlanShareNothing | apps/api/src/planning/planning.service.ts:269-325 | no two trips of one plan share a vehicle, driver or guard |
| Planner.PlanningService.Generate | apps/api/src/planning/planning.service.ts:81-152 | all of this for a whole generation: the rounds, the tally, the trips matched to served groups, no resource shared, and the plan's number, link, status and summary with the previous version superseded |
| Planner.PlanningService.Schedule | apps/api/src/planning/planning.service.ts:178-183 | the loop schedules exactly the plan's created trips, stopping at a refusal |
| Planner.PlanningService.Publish | apps/api/src/planning/planning.service.ts:155-195 | each error case, and on success no open exception and no trip of the plan left in CREATED |
| Plans.ScheduleMovesOn | apps/api/src/planning/planning.service.ts:178-183 | scheduling never moves a trip to another plan or back to CREATED, and finishes only when none of the plan's trips is in CREATED |
| Plans.ScheduleReaches | apps/api/src/planning/planning.service.ts:178-183 | scheduling leaves what some run of transitions would |
| PlanLaws.GeneratedExactly | apps/api/src/planning/planning.service.ts:87-101 | the new plan follows the newest of its shift and day, which is superseded when it is finished, and no other plan is touched |
| PlanLaws.PublishableExactlyWhen | apps/api/src/planning/planning.service.ts:156-169 | each refusal to publish, and success, iff its condition on the plan holds |
| PlanLaws.RetiredExactly | apps/api/src/planning/planning.service.ts:171-176 | the plan published before for the same shift and day is superseded, and no other is touched |
| PlanLaws.ScheduledExactly | apps/api/src/planning/planning.service.ts:178-183 | scheduling succeeds iff the caller is a party to all of the plan's created trips, and then changes just their status and version |
| PlanRuns.LatestIsLast | apps/api/src/planning/planning.service.ts:87-90 | the query by highest version finds the plan made last for that shift and day |
| PlanRuns.StartLinked | apps/api/src/planning/planning.service.ts:92-101 | a new generation continues the numbering 1, 2, 3, ... and links to its predecessor |
| PlanRuns.FinishSound | apps/api/src/planning/planning.service.ts:130-149 | a finish, however late, publishes nothing and keeps every invariant |
| PlanRuns.PublishSound | apps/api/src/planning/planning.service.ts:155-195 | a publication keeps every invariant and at most one plan published per shift and day |
| PlanRuns.PublishedWhenClean | apps/api/src/planning/planning.service.ts:163-183 | a plan becomes published only by its own publication, with no open exception and none of its trips in CREATED |
| PlanRuns.StepSound | apps/api/src/planning/planning.service.ts:81-195 | every step keeps the invariants; published plans stay clean iff the step does not make a trip by hand for a published plan |
| PlanRuns.EveryRunIsSound | apps/api/src/planning/planning.service.ts:81-195 | over every interleaving, versions 1..n linked per shift and day, and at most one PUBLISHED |
| PlanRuns.EveryStepsRun | apps/api/src/planning/planning.service.ts:81-195 | every sequence of steps whatever makes such a run |
| PlanRuns.PublishedPlansAreClean | apps/api/src/planning/planning.service.ts:163-183 | published plans stay without open exceptions and created trips as long as nobody adds a trip to one by hand |
| PlanRuns.TripJoinsPublished | apps/api/src/trip/trip.service.ts:20-68 | a run of four steps after which a published plan has a trip that is only created |
| PlanRuns.EveryRunIsConsistent | apps/api/src/planning/planning.service.ts:81-195 | over every interleaving of generations, publications and trip operations no resource is double-booked, each trip has one active assignment and the log replays |
| CsvExport.ReadEscaped | apps/api/src/platform-admin/platform-export.service.ts:14-17 | an escaped cell, before a separator or the end, reads back as the cell |
| CsvExport.ReadTextOf | apps/api/src/platform-admin/platform-export.service.ts:14-23 | a fully escaped table with no empty record reads back as itself |
| CsvExport.ReadLength | apps/api/src/platform-admin/platform-export.service.ts:14-23 | the reader never gets out of a text a table that would need more text to print |
| CsvExport.ReadBackExactlyWhen | apps/api/src/platform-admin/platform-export.service.ts:19-23 | the export reads back as header and cell strings iff it has a column and no header name needs escaping |
| CsvExport.ReadsBackRows | apps/api/src/platform-admin/platform-export.service.ts:14-22 | record k + 1 of the text says in each field the text row k holds in that column, and nothing for null, undefined or missing values |
| CsvExport.PrintingIsInjective | apps/api/src/platform-admin/platform-export.service.ts:19-23 | tables that print the same text are the same tables of strings |
| CsvExport.SameTextSameRows | apps/api/src/platform-admin/platform-export.service.ts:14-22 | rows that print the same agree on every text that is not empty |
| CsvExport.HeaderIsNotEscaped | apps/api/src/platform-admin/platform-export.service.ts:20 | one column with a comma in its name prints and reads back as two |
| Pricing.Compute | apps/api/src/billing/trip-charge.service.ts:73-115 | the branches price as specified; never below the guarantee; SLAB never above the cap unless the guarantee is; tax is what corporate and vendor amounts differ by |
| Pricing.FlatIsPaid | apps/api/src/billing/trip-charge.service.ts:79-91 | per trip, and under unknown models, the larger of flat rate and guarantee |
| Pricing.KilometresArePaid | apps/api/src/billing/trip-charge.service.ts:77-91 | per kilometre, rate times distance, and in the hybrid model the flat rate as well, but at least the guarantee |
| Pricing.SlabIsPaid | apps/api/src/billing/trip-charge.service.ts:25-34 | base fare and the rate of the first slab the distance lies in, of the last slab when in none, cut at the cap, but at least the guarantee |
| Pricing.WithoutSlabsBaseIsPaid | apps/api/src/billing/trip-charge.service.ts:28 | with no slabs at all the base fare alone |
| Pricing.TaxComesOnTop | apps/api/src/billing/trip-charge.service.ts:93-106 | a hundred times the tax is the payable times the percentage, and the corporate pays both |
| Pricing.MatchingIsTheSlab | apps/api/src/billing/trip-charge.service.ts:25-28 | for slabs that follow one another the search picks the only slab that holds the distance |
| Pricing.SlabRateMonotone | apps/api/src/billing/trip-charge.service.ts:25-28 | above the first minimum the rate never falls with distance |
| Pricing.PayableMonotone | apps/api/src/billing/trip-charge.service.ts:76-93 | under every pricing model payable and corporate charge never fall with distance |
| Pricing.SlabMonotoneExactlyWhen | apps/api/src/billing/trip-charge.service.ts:25-34 | over all distances from 0 on they never fall iff the first minimum is negative or cap and guarantee make the first and the last slab cost the same |
| Pricing.UnknownDistanceCostsMost | apps/api/src/billing/trip-charge.service.ts:74 | slabs under which distance 0 costs more than 5 km |
| RateCards.HighestIsBest | apps/api/src/contract/contract.service.ts:93-113 | with unique versions the ordered query has just one possible answer, the modelled one |
| RateCards.FoundExactlyWhen | apps/api/src/contract/contract.service.ts:93-113 | the card found is the newest in force for the zone, if one is named and has one, and else the newest without a zone; both ends of a window count |
| RateCards.ClosedNoLongerFound | apps/api/src/contract/contract.service.ts:152-156 | a closed card is found for no later date |
| RateCards.AddedTakesEffect | apps/api/src/contract/contract.service.ts:55-86 | an added card is the one found for every date of its window |
| RateCards.EditTakesEffect | apps/api/src/contract/contract.service.ts:129-150 | the successor of the newest card is the one found for its window, with the edited terms and the others kept |
| RateCards.AddKeepsPastExactlyWhen | apps/api/src/contract/contract.service.ts:55-86 | adding a card leaves every past lookup alone iff it starts no earlier than now or never applies |
| RateCards.AppendKeepsPastExactlyWhen | apps/api/src/contract/contract.service.ts:93-113 | a further card goes unnoticed in the past iff a card at least as new applies at every past date it applies to |
| RateCards.CloseKeepsPastExactlyWhen | apps/api/src/contract/contract.service.ts:153-156 | closing any card leaves every past lookup alone iff a newer card of its key applies at each past date the closing reopens |
| RateCards.CloseKeepsPast | apps/api/src/contract/contract.service.ts:153-156 | closing a card that had not run out always does |
| RateCards.NewestHiddenExactlyWhen | apps/api/src/contract/contract.service.ts:153-156 | for the newest card of a key the condition is that the card had not run out |
| RateCards.EditedCardHidden | apps/api/src/contract/contract.service.ts:129-156 | removing a card that an open-ended edit has closed is harmless, however much later |
| RateCards.UpdateKeepsUniqueExactlyWhen | apps/api/src/contract/contract.service.ts:129-150 | an edit keeps version numbers unique iff its successor number is free |
| RateCards.UpdateKeepsPastExactlyWhen | apps/api/src/contract/contract.service.ts:129-150 | editing any card leaves past lookups alone iff both hold: reopened dates have a newer card, and so have the past dates its successor applies to |
| RateCards.NewestUpdateKeepsPastExactlyWhen | apps/api/src/contract/contract.service.ts:129-150 | for the newest card: iff it had not run out and its successor starts no earlier than now |
| RateCards.PrudentExactlyWhen | apps/api/src/contract/contract.service.ts:55-156 | the condition on each operation is exactly what keeps past lookups and unique versions |
| RateCards.PastPricesCanChange | apps/api/src/contract/contract.service.ts:55-156 | an added, a closed and an edited card that change the lookup of an earlier day |
| RateCards.PastPricesAreFrozen | apps/api/src/contract/contract.service.ts:55-156 | over any run of operations that meet those conditions every date before one of them finds the same card and terms after it and after all later ones, zone priority included |
| RateCards.ContractService.AddRateCard | apps/api/src/contract/contract.service.ts:55-86 | for an owner, appends the next version of the key; otherwise changes nothing |
| RateCards.ContractService.UpdateRateCard | apps/api/src/contract/contract.service.ts:129-150 | for an owner, closes the card and appends the edited successor |
| RateCards.ContractService.RemoveRateCard | apps/api/src/contract/contract.service.ts:153-156 | for an owner, closes the card and destroys nothing |
| TripCharges.RecomputedChargeIsUnchanged | apps/api/src/billing/trip-charge.service.ts:67-93 | recomputing a trip scheduled before a rate-card operation gives the same card, terms and amounts after it |
| TripCharges.RunKeepsOnlyCompleted | apps/api/src/billing/trip-charge.service.ts:60-62 | a charge belongs to a completed trip in every later state too |
| TripCharges.PricedExactlyWhen | apps/api/src/billing/trip-charge.service.ts:49-93 | each error iff its condition holds; otherwise the newest zone-less card in force at the scheduled start for the active vehicle's type, and the actual, else estimated, else no kilometres |
| TripCharges.TripChargeService.ComputeForTrip | apps/api/src/billing/trip-charge.service.ts:49-116 | each error in order; success stores the price and counts the version up |
| Invoices.ReconciliationBound | apps/api/src/billing/invoice.service.ts:28-83 | over any run, claimed less validated less recorded variances is at most 0.01 per line matched within tolerance |
| Invoices.BoundIsReached | apps/api/src/billing/invoice.service.ts:39-42 | that bound is attained for every number of lines |
| Invoices.SubmittedGapIsVariance | apps/api/src/billing/invoice.service.ts:78-91 | the totals stored on a submitted invoice meet the bound for the lines it then had, whatever was added since |
| Invoices.VendorsAddUp | apps/api/src/billing/invoice.service.ts:139-147 | amounts split by vendor add up to the whole |
| Invoices.PayablesAreConserved | apps/api/src/billing/invoice.service.ts:133-160 | the rows together owe what all billed invoices together do |
| Invoices.BilledExactly | apps/api/src/billing/invoice.service.ts:133-147 | the sums per vendor are those over the vendor's submitted and approved invoices and their lines |
| Invoices.RowsAddUp | apps/api/src/billing/invoice.service.ts:133-160 | every vendor with such an invoice has one row, which says these sums |
| Invoices.SummariseByVendor | apps/api/src/billing/invoice.service.ts:139-159 | the map-building loop gives, per vendor in order of first appearance, what filtering and summing gives |
| Invoices.InvoiceService.AddLine | apps/api/src/billing/invoice.service.ts:28-60 | appends the reconciled line; amounts stay consistent |
| Invoices.InvoiceService.DisputeLine | apps/api/src/billing/invoice.service.ts:62-68 | sets the status and the reason of one line and changes no amount |
| Invoices.InvoiceService.ApproveLine | apps/api/src/billing/invoice.service.ts:70-76 | the same, for the corporate only |
| Invoices.InvoiceService.Submit | apps/api/src/billing/invoice.service.ts:78-91 | stores both totals, which meet the bound; refuses an invoice without lines |
| Invoices.InvoiceService.Approve | apps/api/src/billing/invoice.service.ts:93-103 | refuses while a line is disputed |
| Invoices.InvoiceService.RecordPayment | apps/api/src/billing/invoice.service.ts:113-126 | sets the payment status, and the amount if one is given, for the corporate only |
| Invoices.InvoiceService.VendorPayablesSummary | apps/api/src/billing/invoice.service.ts:133-160 | the rows are the per-vendor sums over submitted and approved invoices and conserve the totals; each has its vendor's name, if known |
| DriverPay.PayIsConserved | apps/api/src/driver-payment/driver-payment.service.ts:26-39 | in every reachable state, vouchers that do not overlap pay between them exactly the payable of the distinct completed trips they cover |
| DriverPay.TripsArePaidOnce | apps/api/src/driver-payment/driver-payment.service.ts:26-39 | the same in terms of the rows: vendor payable of each completed trip of a claim's vendor that ended in its period with its driver, once |
| DriverPay.GrossIsOwed | apps/api/src/driver-payment/driver-payment.service.ts:26-39 | the gross of one voucher, likewise |
| DriverPay.StepKeepsPay | apps/api/src/driver-payment/driver-payment.service.ts:26-39 | after a period's end only giving a completed trip another crew can change what it pays |
| DriverPay.PayIsSettled | apps/api/src/driver-payment/driver-payment.service.ts:26-39 | the same over whole runs |
| DriverPay.NewCrewMovesPay | apps/api/src/trip/trip.service.ts:145-160 | by exactly how much a new crew on a completed trip changes each voucher |
| DriverPay.LateCrewKeepsPayExactlyWhen | apps/api/src/trip/trip.service.ts:145-160 | it changes none iff nothing is due for the trip or the same driver is named |
| DriverPay.LateCrewTakesPay | apps/api/src/trip/trip.service.ts:145-160 | a run after which one driver's pay for a completed trip is another's |
| DriverPay.LockedForGood | apps/api/src/driver-payment/driver-payment.service.ts:46-85 | over any run locked vouchers never change, deductions are kept, and net is gross less deductions |
| DriverPay.DriverPaymentService.Generate | apps/api/src/driver-payment/driver-payment.service.ts:15-69 | each error case; otherwise the draft's gross is the sum over the driver's completed trips of the vendor in the period |
| DriverPay.DriverPaymentService.Lock | apps/api/src/driver-payment/driver-payment.service.ts:79-94 | locks a draft of this vendor and changes nothing else |

## Left out

- Database, HTTP, authentication, message queue, notifications and incident rows: wiring without decisions. A table is a sequence, a row's identifier its position, and a time an integer number of milliseconds; the clock is a parameter.
- Rounding of money to two decimals in the database, floating point and NaN: amounts and distances are exact reals.
- The great-circle formula: any symmetric real distance stands for it.
- The route solver (apps/optimizer-service/app.py:78-84 and 95-105): its answer is a parameter, assumed to be a partition of the demand into non-empty routes within capacity; its depot and failures beyond "no answer" are not modelled.
- The roster: that no employee is demanded twice (unique per employee, shift and date, apps/api/prisma/schema.prisma:868) and that the employees belong to the corporate are preconditions of planning.
- Event names are a datatype, not strings; other services' events carry a name that replay ignores.
- Planner.PlanningService.SearchVendors: the stored decision log, and the vendor and the violations an exception row carries besides the group size, are left out.
- Planner.PlanningService.PlanGroup: the same.
- Planner.PlanningService.Generate: takes the clock, the rules and the fleet as fixed for the whole generation; interleaving is the subject of the plan runs, where the steps of a generation are arbitrary and so include what this method does.
- GeoRouting.ClusterByProximity: with a home missing and a group size below one the slicing loop never ends, so that call is excluded; every caller passes six.
- Planner.PlanningService.Publish: runs its trip transitions as one atomic call.
- Allocation.FindEligible: one method for the three loops of the source, which differ in the two checks only vehicles have; the labels and sentences of the log are left out.
- Maintenance records: a flag on the vehicle says whether one blocks it.
- Safety.EvaluateRoute: upper-casing covers ASCII letters; writing violation events and malformed rule configurations are left out.
- Compliance.Evaluate: the stored snapshot of the evaluation is left out.
- CsvExport: cells are strings or empty; how other values turn into strings, and the export job with its files, are left out.
- Zones: charges are computed without a zone, as the source does; a lookup with one is modelled in the rate cards.
- Penalties and adjustments: recorded by the source without further effect. Of a vendor's record the payables carry the name only.
- RateCards.UpdateKeepsPastExactlyWhen: where two cards of a key share a version the database may answer either; the model answers the older one. Which edits avoid that is stated apart.
- One-time passcodes, roster locks, approvals, feature flags, subscriptions, dashboards, search, support and the applications: no rule here depends on them, or they would add single-branch updates only.
