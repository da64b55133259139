// Grouping employees into vehicle loads and ordering the stops of one load.
module GeoRouting {
  import opened Common
  import opened PathLength
  import Clustering
  import TwoOpt

  datatype Location = Location(latitude: real, longitude: real)

  // Any distance between two places; great-circle distance is one.
  type Metric = (Location, Location) -> real

  ghost predicate SymmetricMetric(metric: Metric) {
    forall a, b :: metric(a, b) == metric(b, a)
  }

  // An employee to be picked up. Home coordinates may not have been captured.
  datatype Stop = Stop(employeeId: int, gender: Option<string>, latitude: Option<real>, longitude: Option<real>)
  {
    predicate Located() { latitude.Some? && longitude.Some? }

    function Home(): Location
      requires Located()
    {
      Location(latitude.value, longitude.value)
    }
  }

  predicate AllLocated(stops: seq<Stop>) {
    forall k | 0 <= k < |stops| :: stops[k].Located()
  }

  // The metric on the indices of a list of located stops.
  function IndexDistance(metric: Metric, stops: seq<Stop>): Distance
    requires AllLocated(stops)
  {
    (i: int, j: int) =>
      if 0 <= i < |stops| && 0 <= j < |stops| then metric(stops[i].Home(), stops[j].Home()) else 0.0
  }

  lemma IndexDistanceSymmetric(metric: Metric, stops: seq<Stop>)
    requires SymmetricMetric(metric) && AllLocated(stops)
    ensures Symmetric(IndexDistance(metric, stops))
  {
    var d := IndexDistance(metric, stops);
    forall i, j ensures d(i, j) == d(j, i) {
      if 0 <= i < |stops| && 0 <= j < |stops| {
        var a, b := stops[i].Home(), stops[j].Home();
        assert metric(a, b) == metric(b, a);
      }
    }
  }

  // ---- Distances between the stops themselves ----

  ghost predicate KnowsHome(stop: Stop) {
    stop.latitude.Some? && stop.longitude.Some?
  }

  ghost function Apart(metric: Metric, a: Stop, b: Stop): real {
    if KnowsHome(a) && KnowsHome(b)
    then metric(Location(a.latitude.value, a.longitude.value), Location(b.latitude.value, b.longitude.value))
    else 0.0
  }

  ghost function RouteLength(metric: Metric, route: seq<Stop>): real {
    if |route| < 2 then 0.0 else Apart(metric, route[0], route[1]) + RouteLength(metric, route[1..])
  }

  // From stop i of the list to stop j.
  ghost function Far(metric: Metric, stops: seq<Stop>, i: int, j: int): real {
    if 0 <= i < |stops| && 0 <= j < |stops| then Apart(metric, stops[i], stops[j]) else 0.0
  }

  lemma IndexDistanceIsFar(metric: Metric, stops: seq<Stop>)
    requires AllLocated(stops)
    ensures forall i, j :: IndexDistance(metric, stops)(i, j) == Far(metric, stops, i, j)
  {
    forall i, j ensures IndexDistance(metric, stops)(i, j) == Far(metric, stops, i, j) {
      if 0 <= i < |stops| && 0 <= j < |stops| {
        var a, b := stops[i], stops[j];
        assert a.Located() && b.Located();
        assert a.Home() == Location(a.latitude.value, a.longitude.value);
        assert b.Home() == Location(b.latitude.value, b.longitude.value);
        assert IndexDistance(metric, stops)(i, j) == metric(a.Home(), b.Home());
      }
    }
  }

  // The stops at these positions of the list.
  ghost function Listed(stops: seq<Stop>, positions: seq<int>): (r: seq<Stop>)
    ensures |r| == |positions|
  {
    seq(|positions|, k requires 0 <= k < |positions| =>
      if 0 <= positions[k] < |stops| then stops[positions[k]] else Stop(0, None, None, None))
  }

  lemma GatheredIsListed(stops: seq<Stop>, positions: seq<int>)
    requires forall i :: i in positions ==> 0 <= i < |stops|
    ensures Gather(stops, positions) == Listed(stops, positions)
  {
    forall k | 0 <= k < |positions| ensures 0 <= positions[k] < |stops| { assert positions[k] in positions; }
  }

  // ---- Grouping ----

  ghost predicate InBounds(groups: seq<seq<int>>, n: nat) {
    forall q | 0 <= q < |groups| :: forall i :: i in groups[q] ==> 0 <= i < n
  }

  function GatherAll<T>(items: seq<T>, groups: seq<seq<int>>): (r: seq<seq<T>>)
    requires InBounds(groups, |items|)
    ensures |r| == |groups|
  {
    seq(|groups|, q requires 0 <= q < |groups| => Gather(items, groups[q]))
  }

  lemma {:induction false} MembersInFlatten<T>(groups: seq<seq<T>>, q: nat)
    requires q < |groups|
    ensures forall x :: x in groups[q] ==> x in Flatten(groups)
  {
    if q > 0 { MembersInFlatten(groups[1..], q - 1); }
  }

  lemma {:induction false} FlattenGatherAll<T>(items: seq<T>, groups: seq<seq<int>>)
    requires InBounds(groups, |items|)
    requires forall i :: i in Flatten(groups) ==> 0 <= i < |items|
    ensures Flatten(GatherAll(items, groups)) == Gather(items, Flatten(groups))
  {
    if groups != [] {
      var rest := groups[1..];
      assert GatherAll(items, groups)[1..] == GatherAll(items, rest);
      assert forall i :: i in Flatten(rest) ==> i in Flatten(groups);
      FlattenGatherAll(items, rest);
    }
  }

  // Employee x is not yet placed.
  ghost predicate Waiting(n: nat, placed: seq<int>, x: int) {
    0 <= x < n && x !in placed
  }

  // Employee x is as near to the group as any other that is waiting, and nearer than those
  // before it in the roster: some member of the group is at most as far from x as any member is
  // from any of them.
  ghost predicate Nearest(metric: Metric, employees: seq<Stop>, placed: seq<int>, group: seq<int>, x: int)
  {
    exists g :: g in group &&
      forall y, h | Waiting(|employees|, placed, y) && h in group ::
        && Far(metric, employees, x, g) <= Far(metric, employees, y, h)
        && (y < x ==> Far(metric, employees, x, g) < Far(metric, employees, y, h))
  }

  // Member m of the group, when `earlier` are the members of the groups before it.
  ghost predicate JoinsRightly(metric: Metric, employees: seq<Stop>, earlier: seq<int>, group: seq<int>, m: int)
    requires 0 <= m < |group|
  {
    var placed := earlier + group[..m];
    && Waiting(|employees|, placed, group[m])
    && (if m == 0 then forall y | Waiting(|employees|, placed, y) :: group[0] <= y
        else Nearest(metric, employees, placed, group[..m], group[m]))
  }

  // `groups` are the roster positions of the members: the first one waiting starts a group, the
  // nearest one waiting joins it.
  ghost predicate GroupedByProximity(metric: Metric, employees: seq<Stop>, clusters: seq<seq<Stop>>, groups: seq<seq<int>>) {
    && InBounds(groups, |employees|) && |clusters| == |groups| && IsPermutationOfRange(Flatten(groups), |employees|)
    && (forall q | 0 <= q < |groups| :: clusters[q] == Listed(employees, groups[q]))
    && (forall q, m | 0 <= q < |groups| && 0 <= m < |groups[q]| ::
          JoinsRightly(metric, employees, Flatten(groups[..q]), groups[q], m))
  }

  // The minimum over the group, reached at its k-th member, is what is compared.
  lemma ChosenIsNearer(d: Distance, n: nat, placed: seq<int>, group: seq<int>, x: int, k: int, y: int, h: int)
    requires group != [] && Clustering.Chosen(d, n, placed, group, x) && Waiting(n, placed, y) && h in group
    requires 0 <= k < |group| && Clustering.MinDistance(d, x, group) == d(x, group[k])
    ensures d(x, group[k]) <= d(y, h) && (y < x ==> d(x, group[k]) < d(y, h))
  {
    assert y in Clustering.Unplaced(n, placed);
    Clustering.MinDistanceIsLeast(d, y, group);
    if y == x { Clustering.MinDistanceIsLeast(d, x, group); }
    var l :| 0 <= l < |group| && group[l] == h;
    hide Clustering.MinDistance;
    assert Clustering.MinDistance(d, y, group) <= d(y, group[l]);
  }

  lemma ChosenIsNearest(metric: Metric, employees: seq<Stop>, d: Distance, placed: seq<int>, group: seq<int>, x: int)
    requires forall i, j :: d(i, j) == Far(metric, employees, i, j)
    requires group != [] && Clustering.Chosen(d, |employees|, placed, group, x)
    ensures Nearest(metric, employees, placed, group, x)
  {
    var n := |employees|;
    Clustering.MinDistanceIsLeast(d, x, group);
    var k :| 0 <= k < |group| && Clustering.MinDistance(d, x, group) == d(x, group[k]);
    var g := group[k];
    hide Far, Clustering.MinDistance, Clustering.Chosen, Waiting;
    forall y, h | Waiting(n, placed, y) && h in group
      ensures Far(metric, employees, x, g) <= Far(metric, employees, y, h)
      ensures y < x ==> Far(metric, employees, x, g) < Far(metric, employees, y, h)
    {
      ChosenIsNearer(d, n, placed, group, x, k, y, h);
    }
  }

  lemma ChosenJoinsRightly(metric: Metric, employees: seq<Stop>, cap: int, earlier: seq<int>, group: seq<int>, m: int)
    requires AllLocated(employees)
    requires Clustering.GreedyGroup(IndexDistance(metric, employees), |employees|, cap, earlier, group) && 0 <= m < |group|
    ensures JoinsRightly(metric, employees, earlier, group, m)
  {
    var d, n, placed := IndexDistance(metric, employees), |employees|, earlier + group[..m];
    assert Clustering.Chosen(d, n, placed, group[..m], group[m]);
    if m > 0 {
      IndexDistanceIsFar(metric, employees);
      ChosenIsNearest(metric, employees, d, placed, group[..m], group[m]);
    } else {
      forall y | Waiting(n, placed, y) ensures group[0] <= y { assert y in Clustering.Unplaced(n, placed); }
    }
  }

  lemma GreedyIsByProximity(metric: Metric, employees: seq<Stop>, cap: int, clusters: seq<seq<Stop>>, groups: seq<seq<int>>)
    requires AllLocated(employees) && InBounds(groups, |employees|) && clusters == GatherAll(employees, groups)
    requires Clustering.GreedyClustering(IndexDistance(metric, employees), |employees|, cap, groups)
    ensures GroupedByProximity(metric, employees, clusters, groups)
  {
    Clustering.GreedyCovers(IndexDistance(metric, employees), |employees|, cap, groups);
    forall q, m | 0 <= q < |groups| && 0 <= m < |groups[q]|
      ensures JoinsRightly(metric, employees, Flatten(groups[..q]), groups[q], m)
    {
      ChosenJoinsRightly(metric, employees, cap, Flatten(groups[..q]), groups[q], m);
    }
    forall q | 0 <= q < |groups| ensures clusters[q] == Listed(employees, groups[q]) {
      GatheredIsListed(employees, groups[q]);
    }
  }

  // Groups by proximity when every home is known, and otherwise slices the roster order.
  // With an unknown home the slicing loop does not end unless the group size is positive.
  method ClusterByProximity(metric: Metric, employees: seq<Stop>, maxGroupSize: int)
    returns (clusters: seq<seq<Stop>>)
    requires AllLocated(employees) || maxGroupSize >= 1
    // Nobody is lost or repeated, and as few groups as possible are used.
    ensures multiset(Flatten(clusters)) == multiset(employees)
    ensures var cap := if maxGroupSize < 1 then 1 else maxGroupSize;
            Clustering.Packed(clusters, cap) && |clusters| == (|employees| + cap - 1) / cap
    ensures !AllLocated(employees) ==> Flatten(clusters) == employees
    ensures AllLocated(employees) ==>
              exists groups ::
                && InBounds(groups, |employees|)
                && Clustering.GreedyClustering(IndexDistance(metric, employees), |employees|,
                                               if maxGroupSize < 1 then 1 else maxGroupSize, groups)
                && clusters == GatherAll(employees, groups)
    // In terms of the stops: who joins a group is the nearest of those still waiting.
    ensures if forall k | 0 <= k < |employees| :: KnowsHome(employees[k])
            then exists groups :: GroupedByProximity(metric, employees, clusters, groups)
            else Flatten(clusters) == employees
  {
    ghost var cap := if maxGroupSize < 1 then 1 else maxGroupSize;
    if employees == [] {
      clusters := [];
      ghost var none: seq<seq<int>> := [];
      assert Clustering.GreedyClustering(IndexDistance(metric, employees), 0, cap, none);
      assert clusters == GatherAll(employees, none);
      GreedyIsByProximity(metric, employees, cap, clusters, none);
      Clustering.PackedCount(clusters, cap);
      return;
    }
    var hasAllCoordinates := AllLocated(employees);
    if !hasAllCoordinates {
      clusters := Clustering.Chunk(employees, maxGroupSize);
      Clustering.PackedCount(clusters, cap);
      return;
    }
    var d := IndexDistance(metric, employees);
    var groups := Clustering.ClusterIndices(d, |employees|, maxGroupSize);
    Clustering.GreedyCovers(d, |employees|, cap, groups);
    Clustering.GreedyPacked(d, |employees|, cap, groups);
    PermutationInRange(Flatten(groups), |employees|);
    forall q | 0 <= q < |groups| ensures forall i :: i in groups[q] ==> 0 <= i < |employees| {
      MembersInFlatten(groups, q);
    }
    clusters := GatherAll(employees, groups);
    FlattenGatherAll(employees, groups);
    GatherPermutation(employees, Flatten(groups));
    GreedyIsByProximity(metric, employees, cap, clusters, groups);
    Clustering.PackedCount(clusters, cap);
  }

  // ---- Ordering ----

  // The nearest stop not yet on the path, the smallest index among equally near ones.
  ghost predicate NearestNext(d: Distance, n: nat, path: seq<int>, x: int)
    requires path != []
  {
    && 0 <= x < n && x !in path
    && forall y | 0 <= y < n && y !in path && y != x ::
         d(Last(path), x) < d(Last(path), y) || (d(Last(path), x) == d(Last(path), y) && x < y)
  }

  ghost predicate NearestNeighbourPath(d: Distance, n: nat, path: seq<int>) {
    && path != [] && path[0] == 0
    && forall k | 0 < k < |path| :: NearestNext(d, n, path[..k], path[k])
  }

  // The construction has no freedom either.
  lemma {:induction false} NearestNeighbourUnique(d: Distance, n: nat, p: seq<int>, q: seq<int>)
    requires |p| == |q|
    requires NearestNeighbourPath(d, n, p) && NearestNeighbourPath(d, n, q)
    ensures p == q
  {
    if |p| > 1 {
      var k := |p| - 1;
      forall m | 0 < m < k ensures NearestNext(d, n, p[..k][..m], p[..k][m]) && NearestNext(d, n, q[..k][..m], q[..k][m]) {
        assert p[..k][..m] == p[..m] && q[..k][..m] == q[..m];
      }
      NearestNeighbourUnique(d, n, p[..k], q[..k]);
      assert NearestNext(d, n, p[..k], p[k]) && NearestNext(d, n, q[..k], q[k]);
      assert p == p[..k] + [p[k]] && q == q[..k] + [q[k]];
    }
  }

  lemma NearestNeighbourPush(d: Distance, n: nat, path: seq<int>, x: int)
    requires NearestNeighbourPath(d, n, path) && NearestNext(d, n, path, x)
    ensures NearestNeighbourPath(d, n, path + [x])
  {
    hide NearestNext;
    var pushed := path + [x];
    forall k | 0 < k < |pushed| ensures NearestNext(d, n, pushed[..k], pushed[k]) {
      assert pushed[..k] == if k < |path| then path[..k] else path;
    }
  }

  // The best of the unvisited stops before `end`; -1 when there is none.
  ghost predicate BestSoFar(d: Distance, path: seq<int>, nearest: int, end: int)
    requires path != []
  {
    if nearest == -1 then forall y | 0 <= y < end :: y in path
    else
      && 0 <= nearest < end && nearest !in path
      && forall y | 0 <= y < end && y !in path && y != nearest ::
           d(Last(path), nearest) < d(Last(path), y) || (d(Last(path), nearest) == d(Last(path), y) && nearest < y)
  }

  method NearestNeighbourOrder(d: Distance, n: nat) returns (order: seq<int>)
    requires n > 0
    ensures |order| == n && NearestNeighbourPath(d, n, order)
    ensures IsPermutationOfRange(order, n)
  {
    var visited := new bool[n](_ => false);
    order := [0];
    visited[0] := true;
    assert NearestNeighbourPath(d, n, order);
    hide NearestNeighbourPath;
    for step := 1 to n
      invariant |order| == step && NoDuplicates(order)
      invariant forall j | 0 <= j < n :: visited[j] <==> j in order
      invariant forall x :: x in order ==> 0 <= x < n
      invariant NearestNeighbourPath(d, n, order)
    {
      var last := order[|order| - 1];
      ghost var free := MissingIndex(order, n);
      var nearest := -1;
      for j := 0 to n
        invariant BestSoFar(d, order, nearest, j)
      {
        if !visited[j] && (nearest == -1 || d(last, j) < d(last, nearest)) {
          nearest := j;
        }
      }
      assert NearestNext(d, n, order, nearest);
      NearestNeighbourPush(d, n, order, nearest);
      order := order + [nearest];
      visited[nearest] := true;
    }
    FullIsPermutation(order, n);
  }

  // The route that `order` describes: a rearrangement of the stops, starting at the first one,
  // no longer than the nearest-neighbour route, which no visited segment reversal shortens.
  ghost predicate GoodRoute(d: Distance, n: nat, order: seq<int>) {
    && IsPermutationOfRange(order, n)
    && n > 0 && |order| == n && order[0] == 0
    && TwoOpt.LocallyOptimal(d, order)
    && exists start :: |start| == n && NearestNeighbourPath(d, n, start) && Length(d, order) <= Length(d, start)
  }

  ghost predicate IsRouteOf(metric: Metric, points: seq<Stop>, route: seq<Stop>) {
    && multiset(route) == multiset(points)
    && |route| == |points|
    && (points != [] ==> route[0] == points[0])
    && (if |points| <= 2 || !AllLocated(points) then route == points
        else exists order ::
               && GoodRoute(IndexDistance(metric, points), |points|, order)
               && (forall i :: i in order ==> 0 <= i < |points|)
               && route == Gather(points, order))
  }

  // The stops at positions lo, ..., hi in the opposite order.
  ghost function TurnedRound(route: seq<Stop>, lo: int, hi: int): (r: seq<Stop>)
    requires 0 <= lo <= hi < |route|
    ensures |r| == |route|
  {
    seq(|route|, k requires 0 <= k < |route| => if lo <= k <= hi then route[lo + hi - k] else route[k])
  }

  // No part of the route after the first stop, two stops or longer and not all of the rest, is
  // shorter the other way round.
  ghost predicate NoTurnHelps(metric: Metric, route: seq<Stop>) {
    forall i, j :: TurnDoesNotHelp(metric, route, i, j)
  }

  ghost predicate TurnDoesNotHelp(metric: Metric, route: seq<Stop>, i: int, j: int) {
    0 <= i && i + 2 <= j < |route| && !(i == 0 && j == |route| - 1) ==>
      RouteLength(metric, route) <= RouteLength(metric, TurnedRound(route, i + 1, j))
  }

  // From the first stop on, always to the nearest one not yet visited, the first among equals.
  ghost predicate GoesToNearest(metric: Metric, points: seq<Stop>, path: seq<int>) {
    && IsPermutationOfRange(path, |points|) && |path| == |points| > 0 && path[0] == 0
    && (forall k | 0 <= k < |path| :: 0 <= path[k] < |points|)
    && (forall k, y | 0 < k < |path| && Waiting(|points|, path[..k], y) ::
          && Far(metric, points, path[k - 1], path[k]) <= Far(metric, points, path[k - 1], y)
          && (y < path[k] ==>
                Far(metric, points, path[k - 1], path[k]) < Far(metric, points, path[k - 1], y)))
  }

  ghost predicate NoLongerThanNearest(metric: Metric, points: seq<Stop>, route: seq<Stop>) {
    exists path ::
      && GoesToNearest(metric, points, path)
      && RouteLength(metric, route) <= RouteLength(metric, Listed(points, path))
  }

  lemma {:induction false} LengthOfGathered(metric: Metric, points: seq<Stop>, order: seq<int>)
    requires AllLocated(points) && forall i :: i in order ==> 0 <= i < |points|
    ensures RouteLength(metric, Gather(points, order)) == Length(IndexDistance(metric, points), order)
  {
    if |order| >= 2 {
      assert order[0] in order && order[1] in order;
      forall i | i in order[1..] ensures 0 <= i < |points| { assert i in order; }
      assert Gather(points, order)[1..] == Gather(points, order[1..]);
      LengthOfGathered(metric, points, order[1..]);
      IndexDistanceIsFar(metric, points);
    }
  }

  lemma TurnedGathered(points: seq<Stop>, order: seq<int>, lo: nat, hi: int)
    requires lo <= hi < |order| && forall i :: i in order ==> 0 <= i < |points|
    ensures forall i :: i in ReversedBetween(order, lo, hi) ==> 0 <= i < |points|
    ensures Gather(points, ReversedBetween(order, lo, hi)) == TurnedRound(Gather(points, order), lo, hi)
  {
    hide ReversedBetween;
    var turned := ReversedBetween(order, lo, hi);
    forall k | 0 <= k < |order|
      ensures turned[k] == order[if lo <= k <= hi then lo + hi - k else k] && turned[k] in order
    {
      ReversedBetweenAt(order, lo, hi, k);
    }
  }

  lemma GatheredNoTurnHelps(metric: Metric, points: seq<Stop>, order: seq<int>)
    requires AllLocated(points) && forall i :: i in order ==> 0 <= i < |points|
    requires TwoOpt.LocallyOptimal(IndexDistance(metric, points), order)
    ensures NoTurnHelps(metric, Gather(points, order))
  {
    var route := Gather(points, order);
    forall i, j ensures TurnDoesNotHelp(metric, route, i, j) {
      if 0 <= i && i + 2 <= j < |route| && !(i == 0 && j == |route| - 1) {
        assert TwoOpt.Visited(|order|, i, j);
        TurnedGathered(points, order, i + 1, j);
        LengthOfGathered(metric, points, order);
        LengthOfGathered(metric, points, ReversedBetween(order, i + 1, j));
      }
    }
  }

  lemma NearestNeighbourGoesToNearest(metric: Metric, points: seq<Stop>, path: seq<int>)
    requires AllLocated(points) && |path| == |points|
    requires NearestNeighbourPath(IndexDistance(metric, points), |points|, path) && IsPermutationOfRange(path, |points|)
    ensures GoesToNearest(metric, points, path)
  {
    var d := IndexDistance(metric, points);
    PermutationInRange(path, |points|);
    forall k | 0 <= k < |path| ensures 0 <= path[k] < |points| { assert path[k] in path; }
    forall k, y | 0 < k < |path| && Waiting(|points|, path[..k], y)
      ensures Far(metric, points, path[k - 1], path[k]) <= Far(metric, points, path[k - 1], y)
      ensures y < path[k] ==>
                Far(metric, points, path[k - 1], path[k]) < Far(metric, points, path[k - 1], y)
    {
      assert NearestNext(d, |points|, path[..k], path[k]);
      assert Last(path[..k]) == path[k - 1];
      IndexDistanceIsFar(metric, points);
    }
  }

  method OrderRouteByDistance(metric: Metric, points: seq<Stop>) returns (route: seq<Stop>)
    requires SymmetricMetric(metric)
    ensures IsRouteOf(metric, points, route)
    // In terms of the stops: no longer than always going to the nearest, and no turn helps.
    ensures if |points| > 2 && forall k | 0 <= k < |points| :: KnowsHome(points[k])
            then NoTurnHelps(metric, route) && NoLongerThanNearest(metric, points, route)
            else route == points
  {
    if |points| <= 2 || !AllLocated(points) {
      return points;
    }
    var n := |points|;
    var d := IndexDistance(metric, points);
    IndexDistanceSymmetric(metric, points);
    var start := NearestNeighbourOrder(d, n);
    var order := new int[n](k requires 0 <= k < n => start[k]);
    assert order[..] == start;
    TwoOpt.Optimize(d, order);
    PermutationInRange(order[..], n);
    route := Gather(points, order[..]);
    GatherPermutation(points, order[..]);
    GatheredNoTurnHelps(metric, points, order[..]);
    NearestNeighbourGoesToNearest(metric, points, start);
    PermutationInRange(start, n);
    LengthOfGathered(metric, points, order[..]);
    LengthOfGathered(metric, points, start);
    GatheredIsListed(points, start);
    assert GoodRoute(d, n, order[..]);
  }

  // ---- Four stops for which the skipped pair matters ----

  // The triangle inequality holds between them.
  function Crossing(i: int, j: int): real {
    match (i, j)
    case (0, 1) => 10.0 case (1, 0) => 10.0
    case (0, 2) => 14.0 case (2, 0) => 14.0
    case (0, 3) => 13.0 case (3, 0) => 13.0
    case (1, 2) => 10.0 case (2, 1) => 10.0
    case (1, 3) => 11.0 case (3, 1) => 11.0
    case (2, 3) => 20.0 case (3, 2) => 20.0
    case _ => 0.0
  }

  lemma CrossingNearest()
    ensures NearestNeighbourPath(Crossing, 4, [0, 1, 2, 3])
  {
    var p := [0, 1, 2, 3];
    assert NearestNext(Crossing, 4, [0], 1);
    assert NearestNext(Crossing, 4, [0, 1], 2);
    assert NearestNext(Crossing, 4, [0, 1, 2], 3);
    assert p[..1] == [0] && p[..2] == [0, 1] && p[..3] == [0, 1, 2];
    hide NearestNext;
    forall k | 0 < k < 4 ensures NearestNext(Crossing, 4, p[..k], p[k]) {
      assert k == 1 || k == 2 || k == 3;
    }
  }

  lemma CrossingStops()
    requires Symmetric(Crossing)
    ensures TwoOpt.LocallyOptimal(Crossing, [0, 2, 1, 3])
  {
    var p := [0, 2, 1, 3];
    hide Length, ReversedBetween;
    forall i, j | TwoOpt.Visited(4, i, j) ensures Length(Crossing, p) <= Length(Crossing, ReversedBetween(p, i + 1, j)) {
      ReversalGain(Crossing, p, i, j);
      assert (i == 0 && j == 2) || (i == 1 && j == 3);
    }
  }

  lemma CrossingShortens()
    requires Symmetric(Crossing)
    ensures ReversedBetween([0, 1, 2, 3], 1, 2) == [0, 2, 1, 3]
    ensures Length(Crossing, [0, 2, 1, 3]) < Length(Crossing, [0, 1, 2, 3])
  {
    ReversedAt([1, 2], 0);
    ReversedAt([1, 2], 1);
    assert [0, 1, 2, 3][1..3] == [1, 2];
    ReversalGain(Crossing, [0, 1, 2, 3], 0, 2);
    hide Length;
  }

  // The first pair the search looks at, (0, 2), shortens the nearest-neighbour path 0 1 2 3 to
  // 0 2 1 3. No visited reversal shortens that, so there the search ends; turning round
  // everything after the first stop would.
  lemma SkippedPairMatters()
    ensures Symmetric(Crossing) && NearestNeighbourPath(Crossing, 4, [0, 1, 2, 3])
    ensures ReversedBetween([0, 1, 2, 3], 1, 2) == [0, 2, 1, 3]
    ensures Length(Crossing, [0, 2, 1, 3]) < Length(Crossing, [0, 1, 2, 3])
    ensures TwoOpt.LocallyOptimal(Crossing, [0, 2, 1, 3])
    ensures !TwoOpt.FullyOptimal(Crossing, [0, 2, 1, 3])
  {
    CrossingNearest();
    hide NearestNext, NearestNeighbourPath;
    assert Symmetric(Crossing);
    hide Length, ReversedBetween;
    CrossingShortens();
    CrossingStops();
    TwoOpt.FullyOptimalExactlyWhen(Crossing, [0, 2, 1, 3]);
  }
}
