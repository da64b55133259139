// The 2-opt local search over an array of stop indices.
module TwoOpt {
  import opened Common
  import opened PathLength

  // The positions i + 1, ..., j are a segment of two or more stops after the first stop.
  predicate Segment(n: int, i: int, j: int) {
    0 <= i < n - 1 && i + 2 <= j < n
  }

  // The pairs (i, j) the two inner loops look at: all but the pair (0, n - 1).
  predicate Visited(n: int, i: int, j: int) {
    Segment(n, i, j) && !(i == 0 && j == n - 1)
  }

  // Turning round no visited segment makes the path shorter.
  ghost predicate LocallyOptimal(d: Distance, p: seq<int>) {
    forall i, j | Visited(|p|, i, j) :: Length(d, p) <= Length(d, ReversedBetween(p, i + 1, j))
  }

  // `q` is `p` rearranged, starting at the same stop and no longer.
  ghost predicate Improves(d: Distance, p: seq<int>, q: seq<int>) {
    && multiset(q) == multiset(p)
    && |q| == |p|
    && (p != [] ==> q[0] == p[0])
    && Length(d, q) <= Length(d, p)
  }

  // ---- Termination: only finitely many orderings, and each round rules some out ----

  ghost function Sequences(stops: set<int>, n: nat): set<seq<int>> {
    if n == 0 then {[]}
    else set s, x | s in Sequences(stops, n - 1) && x in stops :: s + [x]
  }

  lemma {:induction false} SequencesComplete(stops: set<int>, s: seq<int>)
    requires forall x :: x in s ==> x in stops
    ensures s in Sequences(stops, |s|)
  {
    if s == [] {
    } else {
      var init := s[..|s| - 1];
      SequencesComplete(stops, init);
      var x := Last(s);
      assert x in s && x in stops;
      assert init + [x] in Sequences(stops, |s|);
      assert s == init + [x];
    }
  }

  // The orderings that are still shorter than `p`.
  ghost function Shorter(d: Distance, stops: set<int>, p: seq<int>): set<seq<int>> {
    set s | s in Sequences(stops, |p|) && Length(d, s) < Length(d, p)
  }

  // A strictly shorter rearrangement leaves strictly fewer orderings to beat.
  lemma FewerShorter(d: Distance, stops: set<int>, p: seq<int>, q: seq<int>)
    requires |p| == |q| && Length(d, q) < Length(d, p)
    requires forall x :: x in q ==> x in stops
    ensures Shorter(d, stops, q) < Shorter(d, stops, p)
  {
    SequencesComplete(stops, q);
    assert q in Shorter(d, stops, p) && q !in Shorter(d, stops, q);
  }

  // ---- The search ----

  // `now` is `was` with the positions start, ..., lo - 1 and hi + 1, ..., end swapped across.
  ghost predicate SwappedOutside(was: seq<int>, now: seq<int>, start: int, end: int, lo: int, hi: int) {
    && |now| == |was| && 0 <= start <= lo <= end + 1 && start - 1 <= hi <= end < |was|
    && (forall k | 0 <= k < start || lo <= k <= hi || end < k < |was| :: now[k] == was[k])
    && (forall k | start <= k < lo || hi < k <= end :: now[k] == was[start + end - k])
  }

  lemma SwapOneMore(was: seq<int>, now: seq<int>, start: int, end: int, lo: int, hi: int)
    requires SwappedOutside(was, now, start, end, lo, hi)
    requires lo < hi && lo + hi == start + end
    ensures SwappedOutside(was, now[lo := now[hi]][hi := now[lo]], start, end, lo + 1, hi - 1)
  {
    assert now[lo] == was[lo] && now[hi] == was[hi];
  }

  lemma SwappedIsReversed(was: seq<int>, now: seq<int>, start: nat, end: nat, lo: int, hi: int)
    requires SwappedOutside(was, now, start, end, lo, hi)
    requires start <= end && lo + hi == start + end && lo >= hi
    ensures now == ReversedBetween(was, start, end)
  {
    var segment := was[start..end + 1];
    forall k | 0 <= k < |was| ensures now[k] == ReversedBetween(was, start, end)[k] {
      if start <= k <= end {
        ReversedAt(segment, k - start);
        assert segment[|segment| - 1 - (k - start)] == was[start + end - k];
        assert now[k] == was[start + end - k];
        assert ReversedBetween(was, start, end)[k] == Reversed(segment)[k - start];
      }
    }
  }

  // Swaps inwards from both ends of the segment.
  method ReverseSegment(order: array<int>, start: nat, end: nat)
    requires start <= end < order.Length
    modifies order
    ensures order[..] == ReversedBetween(old(order[..]), start, end)
  {
    assert SwappedOutside(order[..], order[..], start, end, start, end);
    hide ReversedBetween, SwappedOutside;
    var lo, hi := start, end;
    while lo < hi
      invariant start <= lo <= hi + 1 <= end + 1
      invariant lo + hi == start + end
      invariant SwappedOutside(old(order[..]), order[..], start, end, lo, hi)
    {
      SwapOneMore(old(order[..]), order[..], start, end, lo, hi);
      ghost var before := order[..];
      order[lo], order[hi] := order[hi], order[lo];
      assert order[..] == before[lo := before[hi]][hi := before[lo]];
      lo := lo + 1;
      hi := hi - 1;
    }
    SwappedIsReversed(old(order[..]), order[..], start, end, lo, hi);
  }

  // One candidate pair: reverse the segment exactly when that shortens the path.
  method TryReversal(d: Distance, order: array<int>, i: nat, j: nat) returns (improved: bool)
    requires Symmetric(d)
    requires Visited(order.Length, i, j)
    modifies order
    ensures improved <==> Length(d, ReversedBetween(old(order[..]), i + 1, j)) < Length(d, old(order[..]))
    ensures order[..] == if improved then ReversedBetween(old(order[..]), i + 1, j) else old(order[..])
    ensures Improves(d, old(order[..]), order[..])
  {
    var n := order.Length;
    ReversalGain(d, order[..], i, j);
    ReversedBetweenMultiset(order[..], i + 1, j);
    var a := order[i];
    var b := order[i + 1];
    var c := order[j];
    var e := order[if j + 1 < n then j + 1 else j];
    var before := d(a, b) + if j + 1 < n then d(c, e) else 0.0;
    var after := d(a, c) + if j + 1 < n then d(b, e) else 0.0;
    improved := after < before;
    if improved {
      ReverseSegment(order, i + 1, j);
    }
  }

  // The state of one sweep over the pairs before (i, j) in loop order.
  ghost predicate Swept(d: Distance, start: seq<int>, now: seq<int>, improved: bool, i: int, j: int) {
    && Improves(d, start, now)
    && (improved ==> Length(d, now) < Length(d, start))
    && (!improved ==>
          && now == start
          && forall i', j' | Visited(|now|, i', j') && (i' < i || (i' == i && j' < j)) ::
               Length(d, now) <= Length(d, ReversedBetween(now, i' + 1, j')))
  }

  lemma SweptOne(d: Distance, start: seq<int>, now: seq<int>, next: seq<int>,
                 improved: bool, shorter: bool, i: int, j: int)
    requires Swept(d, start, now, improved, i, j)
    requires Visited(|now|, i, j) && Improves(d, now, next)
    requires shorter <==> Length(d, ReversedBetween(now, i + 1, j)) < Length(d, now)
    requires shorter ==> Length(d, next) < Length(d, now)
    requires !shorter ==> next == now
    ensures Swept(d, start, next, improved || shorter, i, j + 1)
  {
  }

  method Sweep(d: Distance, order: array<int>) returns (improved: bool)
    requires Symmetric(d)
    requires order.Length > 2
    modifies order
    ensures Improves(d, old(order[..]), order[..])
    ensures improved ==> Length(d, order[..]) < Length(d, old(order[..]))
    ensures !improved ==> order[..] == old(order[..]) && LocallyOptimal(d, order[..])
  {
    var n := order.Length;
    improved := false;
    for i := 0 to n - 1
      invariant Swept(d, old(order[..]), order[..], improved, i, 0)
    {
      var j := i + 2;
      while j < n
        invariant i + 2 <= j
        invariant Swept(d, old(order[..]), order[..], improved, i, j)
      {
        if !(i == 0 && j == n - 1) {
          ghost var now := order[..];
          var shorter := TryReversal(d, order, i, j);
          SweptOne(d, old(order[..]), now, order[..], improved, shorter, i, j);
          if shorter { improved := true; }
        }
        j := j + 1;
      }
    }
  }

  // Sweeps until nothing improves. Distances are arbitrary reals, so the length alone is no
  // termination measure; the set of orderings still shorter than the current one is.
  method Optimize(d: Distance, order: array<int>)
    requires Symmetric(d)
    requires order.Length > 2
    modifies order
    ensures Improves(d, old(order[..]), order[..])
    ensures LocallyOptimal(d, order[..])
  {
    ghost var stops := ElementsOf(order[..]);
    var improved := true;
    while improved
      invariant Improves(d, old(order[..]), order[..])
      invariant forall x :: x in order[..] ==> x in stops
      invariant !improved ==> LocallyOptimal(d, order[..])
      decreases Shorter(d, stops, order[..]), improved
    {
      ghost var before := order[..];
      improved := Sweep(d, order);
      forall x | x in order[..] ensures x in stops {
        assert x in multiset(order[..]) && x in before;
      }
      if improved { FewerShorter(d, stops, before, order[..]); }
    }
  }

  // ---- What the skipped pair costs ----

  // No reversal of any later segment at all makes the path shorter.
  ghost predicate FullyOptimal(d: Distance, p: seq<int>) {
    forall i, j | Segment(|p|, i, j) :: Length(d, p) <= Length(d, ReversedBetween(p, i + 1, j))
  }

  // The search leaves out the pair (0, n - 1), which would turn round everything after the
  // first stop. A locally optimal path is fully optimal exactly when its last stop is no
  // closer to the first one than the second stop is.
  lemma FullyOptimalExactlyWhen(d: Distance, p: seq<int>)
    requires Symmetric(d) && |p| > 2
    requires LocallyOptimal(d, p)
    ensures FullyOptimal(d, p) <==> d(p[0], p[1]) <= d(p[0], Last(p))
  {
    ReversalGain(d, p, 0, |p| - 1);
    assert Segment(|p|, 0, |p| - 1);
    forall i, j | Segment(|p|, i, j) && !(i == 0 && j == |p| - 1)
      ensures Length(d, p) <= Length(d, ReversedBetween(p, i + 1, j))
    {
      assert Visited(|p|, i, j);
    }
  }
}
