// Greedy grouping of stops, each named by its index, into groups of at most `cap`.
module Clustering {
  import opened Common
  import opened PathLength

  // ---- Shape of a grouping ----

  // No group is empty or too large, and all but the last are full.
  ghost predicate Packed<T>(groups: seq<seq<T>>, cap: int) {
    forall q | 0 <= q < |groups| :: 0 < |groups[q]| <= cap && (q < |groups| - 1 ==> |groups[q]| == cap)
  }

  lemma {:induction false} PackedSize<T>(groups: seq<seq<T>>, cap: nat)
    requires Packed(groups, cap) && groups != []
    ensures (|groups| - 1) * cap < |Flatten(groups)| <= |groups| * cap
  {
    if |groups| == 1 {
      assert Flatten(groups) == groups[0] + Flatten<T>([]);
    } else {
      PackedSize(groups[1..], cap);
    }
  }

  // Packing n items takes the ceiling of n / cap groups.
  lemma PackedCount<T>(groups: seq<seq<T>>, cap: int)
    requires cap >= 1 && Packed(groups, cap)
    ensures |groups| == (|Flatten(groups)| + cap - 1) / cap
  {
    if groups != [] {
      PackedSize(groups, cap);
      QuotientIs(|Flatten(groups)| + cap - 1, cap, |groups|);
    } else {
      QuotientIs(cap - 1, cap, 0);
    }
  }

  lemma MultiplesInOrder(x: int, y: int, b: int)
    requires b > 0 && x < y
    ensures (x + 1) * b <= y * b
  {
  }

  lemma QuotientIs(a: int, b: int, q: int)
    requires b > 0 && q * b <= a < (q + 1) * b
    ensures a / b == q
  {
    var p := a / b;
    assert p * b <= a < p * b + b;
    if p > q {
      MultiplesInOrder(q, p, b);
    } else if p < q {
      MultiplesInOrder(p, q, b);
    }
  }

  // ---- What it means to choose greedily ----

  ghost function Unplaced(n: nat, placed: seq<int>): set<int> {
    set i | 0 <= i < n && i !in placed
  }

  // The distance from `x` to the nearest member of the group.
  function MinDistance(d: Distance, x: int, group: seq<int>): real
    requires group != []
  {
    if |group| == 1 then d(x, group[0])
    else
      var rest := MinDistance(d, x, group[1..]);
      if rest < d(x, group[0]) then rest else d(x, group[0])
  }

  lemma {:induction false} MinDistanceIsLeast(d: Distance, x: int, group: seq<int>)
    requires group != []
    ensures forall k | 0 <= k < |group| :: MinDistance(d, x, group) <= d(x, group[k])
    ensures exists k :: 0 <= k < |group| && MinDistance(d, x, group) == d(x, group[k])
  {
    if |group| == 1 {
      assert MinDistance(d, x, group) == d(x, group[0]);
    } else {
      MinDistanceIsLeast(d, x, group[1..]);
      assert MinDistance(d, x, group) <= d(x, group[0]);
      assert forall k | 0 <= k < |group| - 1 :: group[1..][k] == group[k + 1];
    }
  }

  // A group is seeded by the smallest unplaced index. Every later member is the unplaced index
  // nearest to the group so far; of several equally near ones it is the smallest.
  ghost predicate Chosen(d: Distance, n: nat, placed: seq<int>, group: seq<int>, x: int) {
    && x in Unplaced(n, placed)
    && forall y | y in Unplaced(n, placed) && y != x ::
         if group == [] then x < y
         else MinDistance(d, x, group) < MinDistance(d, y, group)
              || (MinDistance(d, x, group) == MinDistance(d, y, group) && x < y)
  }

  ghost predicate Grown(d: Distance, n: nat, placed: seq<int>, group: seq<int>) {
    forall m | 0 <= m < |group| :: Chosen(d, n, placed + group[..m], group[..m], group[m])
  }

  ghost predicate GreedyGroup(d: Distance, n: nat, cap: int, placed: seq<int>, group: seq<int>) {
    && 0 < |group| <= cap
    && Grown(d, n, placed, group)
    && (|group| == cap || Unplaced(n, placed + group) == {})
  }

  ghost predicate GreedySoFar(d: Distance, n: nat, cap: int, groups: seq<seq<int>>) {
    forall q | 0 <= q < |groups| :: GreedyGroup(d, n, cap, Flatten(groups[..q]), groups[q])
  }

  ghost predicate GreedyClustering(d: Distance, n: nat, cap: int, groups: seq<seq<int>>) {
    GreedySoFar(d, n, cap, groups) && Unplaced(n, Flatten(groups)) == {}
  }

  lemma SeedIsUnplaced(d: Distance, n: nat, cap: int, placed: seq<int>, group: seq<int>)
    requires GreedyGroup(d, n, cap, placed, group)
    ensures Unplaced(n, placed) != {}
  {
    MemberWasUnplaced(d, n, placed, group, 0);
    assert placed + group[..0] == placed;
  }

  // ---- Greedy choice leaves no freedom: there is only one greedy clustering ----

  lemma {:induction false} GrownAgree(d: Distance, n: nat, placed: seq<int>, g: seq<int>, h: seq<int>, m: nat)
    requires Grown(d, n, placed, g) && Grown(d, n, placed, h)
    requires m <= |g| && m <= |h|
    ensures g[..m] == h[..m]
  {
    if m > 0 {
      GrownAgree(d, n, placed, g, h, m - 1);
      assert Chosen(d, n, placed + g[..m - 1], g[..m - 1], g[m - 1]);
      assert Chosen(d, n, placed + h[..m - 1], h[..m - 1], h[m - 1]);
      assert g[m - 1] == h[m - 1];
    }
  }

  lemma MemberWasUnplaced(d: Distance, n: nat, placed: seq<int>, group: seq<int>, m: nat)
    requires Grown(d, n, placed, group) && m < |group|
    ensures group[m] in Unplaced(n, placed + group[..m])
  {
    assert Chosen(d, n, placed + group[..m], group[..m], group[m]);
  }

  lemma GroupNoLonger(d: Distance, n: nat, cap: int, placed: seq<int>, g: seq<int>, h: seq<int>)
    requires GreedyGroup(d, n, cap, placed, g) && GreedyGroup(d, n, cap, placed, h)
    ensures |h| <= |g|
  {
    if |g| < |h| {
      MemberWasUnplaced(d, n, placed, h, |g|);
      assert g[..|g|] == g;
      GrownAgree(d, n, placed, g, h, |g|);
    }
  }

  lemma GroupUnique(d: Distance, n: nat, cap: int, placed: seq<int>, g: seq<int>, h: seq<int>)
    requires GreedyGroup(d, n, cap, placed, g) && GreedyGroup(d, n, cap, placed, h)
    ensures g == h
  {
    GroupNoLonger(d, n, cap, placed, g, h);
    GroupNoLonger(d, n, cap, placed, h, g);
    GrownAgree(d, n, placed, g, h, |g|);
    assert g[..|g|] == g && h[..|g|] == h;
  }

  lemma {:induction false} ClusteringsAgree(d: Distance, n: nat, cap: int,
                                            gs: seq<seq<int>>, hs: seq<seq<int>>, q: nat)
    requires GreedySoFar(d, n, cap, gs) && GreedySoFar(d, n, cap, hs)
    requires q <= |gs| && q <= |hs|
    ensures gs[..q] == hs[..q]
  {
    if q > 0 {
      ClusteringsAgree(d, n, cap, gs, hs, q - 1);
      GroupUnique(d, n, cap, Flatten(gs[..q - 1]), gs[q - 1], hs[q - 1]);
    }
  }

  lemma NoMoreGroups(d: Distance, n: nat, cap: int, gs: seq<seq<int>>, hs: seq<seq<int>>)
    requires GreedyClustering(d, n, cap, gs) && GreedyClustering(d, n, cap, hs)
    ensures |hs| <= |gs|
  {
    if |gs| < |hs| {
      ClusteringsAgree(d, n, cap, gs, hs, |gs|);
      assert gs[..|gs|] == gs;
      SeedIsUnplaced(d, n, cap, Flatten(gs), hs[|gs|]);
    }
  }

  lemma GreedyClusteringUnique(d: Distance, n: nat, cap: int, gs: seq<seq<int>>, hs: seq<seq<int>>)
    requires GreedyClustering(d, n, cap, gs) && GreedyClustering(d, n, cap, hs)
    ensures gs == hs
  {
    NoMoreGroups(d, n, cap, gs, hs);
    NoMoreGroups(d, n, cap, hs, gs);
    ClusteringsAgree(d, n, cap, gs, hs, |gs|);
    assert gs[..|gs|] == gs && hs[..|gs|] == hs;
  }

  // ---- A greedy clustering loses and repeats nobody ----

  lemma {:induction false} GrownNoDuplicates(d: Distance, n: nat, placed: seq<int>, group: seq<int>, m: nat)
    requires Grown(d, n, placed, group) && m <= |group|
    requires NoDuplicates(placed) && forall x :: x in placed ==> 0 <= x < n
    ensures NoDuplicates(placed + group[..m]) && forall x :: x in placed + group[..m] ==> 0 <= x < n
  {
    if m == 0 {
      assert placed + group[..0] == placed;
    } else {
      GrownNoDuplicates(d, n, placed, group, m - 1);
      assert Chosen(d, n, placed + group[..m - 1], group[..m - 1], group[m - 1]);
      assert placed + group[..m] == placed + group[..m - 1] + [group[m - 1]];
    }
  }

  lemma {:induction false} GreedyNoDuplicates(d: Distance, n: nat, cap: int, groups: seq<seq<int>>)
    requires GreedySoFar(d, n, cap, groups)
    ensures NoDuplicates(Flatten(groups)) && forall x :: x in Flatten(groups) ==> 0 <= x < n
  {
    if groups != [] {
      var init, g := groups[..|groups| - 1], Last(groups);
      assert groups == init + [g];
      FlattenPush(init, g);
      forall q | 0 <= q < |init| ensures GreedyGroup(d, n, cap, Flatten(init[..q]), init[q]) {
        assert init[..q] == groups[..q];
      }
      GreedyNoDuplicates(d, n, cap, init);
      assert GreedyGroup(d, n, cap, Flatten(groups[..|init|]), groups[|init|]);
      assert groups[..|init|] == init;
      GrownNoDuplicates(d, n, Flatten(init), g, |g|);
      assert g[..|g|] == g;
    }
  }

  lemma GreedyCovers(d: Distance, n: nat, cap: int, groups: seq<seq<int>>)
    requires GreedyClustering(d, n, cap, groups)
    ensures IsPermutationOfRange(Flatten(groups), n)
  {
    var placed := Flatten(groups);
    GreedyNoDuplicates(d, n, cap, groups);
    forall x ensures x in placed <==> 0 <= x < n {
      assert x in Unplaced(n, placed) <==> 0 <= x < n && x !in placed;
    }
    PermutationOfRange(placed, n);
  }

  lemma OnlyLastNotFull(d: Distance, n: nat, cap: int, groups: seq<seq<int>>, q: nat)
    requires GreedySoFar(d, n, cap, groups) && q < |groups| - 1
    ensures |groups[q]| == cap
  {
    assert groups[..q + 1] == groups[..q] + [groups[q]];
    FlattenPush(groups[..q], groups[q]);
    assert GreedyGroup(d, n, cap, Flatten(groups[..q + 1]), groups[q + 1]);
    SeedIsUnplaced(d, n, cap, Flatten(groups[..q + 1]), groups[q + 1]);
    assert GreedyGroup(d, n, cap, Flatten(groups[..q]), groups[q]);
  }

  lemma GreedyPacked(d: Distance, n: nat, cap: int, groups: seq<seq<int>>)
    requires GreedySoFar(d, n, cap, groups)
    ensures Packed(groups, cap)
  {
    forall q | 0 <= q < |groups|
      ensures 0 < |groups[q]| <= cap && (q < |groups| - 1 ==> |groups[q]| == cap)
    {
      assert GreedyGroup(d, n, cap, Flatten(groups[..q]), groups[q]);
      if q < |groups| - 1 { OnlyLastNotFull(d, n, cap, groups, q); }
    }
  }

  // ---- The loops ----

  // The members of an insertion-ordered set of indices that only ever shrinks.
  ghost predicate Ascending(s: seq<int>) {
    forall i, j :: 0 <= i < j < |s| ==> s[i] < s[j]
  }

  ghost predicate Remains(n: nat, placed: seq<int>, remaining: seq<int>) {
    Ascending(remaining) && forall x :: x in remaining <==> x in Unplaced(n, placed)
  }

  lemma NoneRemain(n: nat, placed: seq<int>)
    requires Remains(n, placed, [])
    ensures Unplaced(n, placed) == {}
  {
    forall x ensures x !in Unplaced(n, placed) {
      assert x !in [];
    }
  }

  method MinDistanceToCluster(d: Distance, x: int, cluster: seq<int>) returns (min: real)
    requires cluster != []
    ensures min == MinDistance(d, x, cluster)
  {
    min := d(x, cluster[0]);
    ghost var at := 0;
    for q := 1 to |cluster|
      invariant at < q && min == d(x, cluster[at])
      invariant forall m | 0 <= m < q :: min <= d(x, cluster[m])
    {
      var distance := d(x, cluster[q]);
      if distance < min {
        min, at := distance, q;
      }
    }
    MinDistanceIsLeast(d, x, cluster);
  }

  // The first of the nearest, found by scanning, is the greedy choice.
  ghost predicate FirstNearest(d: Distance, remaining: seq<int>, cluster: seq<int>, at: int, end: int)
    requires 0 <= at < end <= |remaining| && cluster != []
  {
    var nearest := MinDistance(d, remaining[at], cluster);
    && (forall r | 0 <= r < at :: nearest < MinDistance(d, remaining[r], cluster))
    && (forall r | at <= r < end :: nearest <= MinDistance(d, remaining[r], cluster))
  }

  lemma FirstNearestIsChosen(d: Distance, n: nat, placed: seq<int>, remaining: seq<int>, cluster: seq<int>, at: nat)
    requires Remains(n, placed, remaining) && at < |remaining| && cluster != []
    requires FirstNearest(d, remaining, cluster, at, |remaining|)
    ensures Chosen(d, n, placed, cluster, remaining[at])
  {
    var x := remaining[at];
    assert x in remaining;
    forall y | y in Unplaced(n, placed) && y != x
      ensures MinDistance(d, x, cluster) < MinDistance(d, y, cluster)
              || (MinDistance(d, x, cluster) == MinDistance(d, y, cluster) && x < y)
    {
      assert y in remaining;
      var r :| 0 <= r < |remaining| && remaining[r] == y;
    }
  }

  method NearestRemaining(d: Distance, n: nat, ghost placed: seq<int>, remaining: seq<int>, cluster: seq<int>)
    returns (at: nat)
    requires Remains(n, placed, remaining) && remaining != [] && cluster != []
    ensures at < |remaining| && Chosen(d, n, placed, cluster, remaining[at])
  {
    at := 0;
    var nearest := MinDistanceToCluster(d, remaining[0], cluster);
    for q := 1 to |remaining|
      invariant at < q && nearest == MinDistance(d, remaining[at], cluster)
      invariant FirstNearest(d, remaining, cluster, at, q)
    {
      var distance := MinDistanceToCluster(d, remaining[q], cluster);
      if distance < nearest {
        nearest, at := distance, q;
      }
    }
    FirstNearestIsChosen(d, n, placed, remaining, cluster, at);
  }

  lemma RemoveChosen(n: nat, placed: seq<int>, remaining: seq<int>, at: nat)
    requires Remains(n, placed, remaining) && at < |remaining|
    ensures Remains(n, placed + [remaining[at]], RemoveAt(remaining, at))
  {
    var rest := RemoveAt(remaining, at);
    forall x ensures x in rest <==> x in Unplaced(n, placed + [remaining[at]]) {
      if x in remaining && x != remaining[at] {
        var r :| 0 <= r < |remaining| && remaining[r] == x;
        assert rest[if r < at then r else r - 1] == x;
      }
      if x in rest { assert x in remaining && x in Unplaced(n, placed); }
    }
  }

  lemma GrownPush(d: Distance, n: nat, placed: seq<int>, group: seq<int>, x: int)
    requires Grown(d, n, placed, group) && Chosen(d, n, placed + group, group, x)
    ensures Grown(d, n, placed, group + [x])
  {
    var g := group + [x];
    forall m | 0 <= m < |g| ensures Chosen(d, n, placed + g[..m], g[..m], g[m]) {
      assert g[..m] == if m < |group| then group[..m] else group;
    }
  }

  // Fills one group from the remaining indices.
  method GrowCluster(d: Distance, n: nat, k: int, ghost placed: seq<int>, remaining: seq<int>)
    returns (cluster: seq<int>, left: seq<int>)
    requires Remains(n, placed, remaining) && remaining != []
    ensures GreedyGroup(d, n, if k < 1 then 1 else k, placed, cluster)
    ensures Remains(n, placed + cluster, left) && |left| < |remaining|
  {
    assert remaining[0] in Unplaced(n, placed) by { assert remaining[0] in remaining; }
    forall y | y in Unplaced(n, placed) && y != remaining[0] ensures remaining[0] < y {
      var r :| 0 <= r < |remaining| && remaining[r] == y;
    }
    cluster := [remaining[0]];
    RemoveChosen(n, placed, remaining, 0);
    left := RemoveAt(remaining, 0);
    assert placed + [] == placed;
    GrownPush(d, n, placed, [], remaining[0]);
    while |cluster| < k && left != []
      invariant 0 < |cluster| <= if k < 1 then 1 else k
      invariant Grown(d, n, placed, cluster)
      invariant Remains(n, placed + cluster, left) && |left| < |remaining|
      decreases |left|
    {
      var at := NearestRemaining(d, n, placed + cluster, left, cluster);
      GrownPush(d, n, placed, cluster, left[at]);
      RemoveChosen(n, placed + cluster, left, at);
      assert placed + cluster + [left[at]] == placed + (cluster + [left[at]]);
      cluster, left := cluster + [left[at]], RemoveAt(left, at);
    }
    if left == [] { NoneRemain(n, placed + cluster); }
  }

  method ClusterIndices(d: Distance, n: nat, k: int) returns (clusters: seq<seq<int>>)
    ensures GreedyClustering(d, n, if k < 1 then 1 else k, clusters)
  {
    ghost var cap := if k < 1 then 1 else k;
    var remaining := Range(n);
    clusters := [];
    forall x ensures x in Range(n) <==> x in Unplaced(n, []) {
      if 0 <= x < n { assert Range(n)[x] == x; }
    }
    while remaining != []
      invariant GreedySoFar(d, n, cap, clusters)
      invariant Remains(n, Flatten(clusters), remaining)
      decreases |remaining|
    {
      var cluster, left := GrowCluster(d, n, k, Flatten(clusters), remaining);
      ghost var pushed := clusters + [cluster];
      FlattenPush(clusters, cluster);
      forall q | 0 <= q < |pushed| ensures GreedyGroup(d, n, cap, Flatten(pushed[..q]), pushed[q]) {
        assert pushed[..q] == clusters[..q];
        assert clusters[..|clusters|] == clusters;
      }
      clusters, remaining := clusters + [cluster], left;
    }
    NoneRemain(n, Flatten(clusters));
  }

  // Fixed-size slices in the given order.
  method Chunk<T>(items: seq<T>, size: int) returns (result: seq<seq<T>>)
    requires size >= 1 || items == []
    ensures Flatten(result) == items
    ensures Packed(result, size)
  {
    result := [];
    var i := 0;
    while i < |items|
      invariant 0 <= i && (items == [] ==> result == [])
      invariant i <= |items| ==> Flatten(result) == items[..i] && forall q | 0 <= q < |result| :: |result[q]| == size
      invariant i > |items| ==> Flatten(result) == items && Packed(result, size)
      decreases |items| - i
    {
      var end := if i + size <= |items| then i + size else |items|;
      FlattenPush(result, items[i..end]);
      assert items[..i] + items[i..end] == items[..end];
      result := result + [items[i..end]];
      i := i + size;
    }
  }
}
