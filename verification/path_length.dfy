// Lengths of open paths, and what reversing one segment does to them.
module PathLength {
  import opened Common

  // A distance between two stops, each named by its index.
  type Distance = (int, int) -> real

  ghost predicate Symmetric(d: Distance) {
    forall i, j :: d(i, j) == d(j, i)
  }

  lemma SymmetricAt(d: Distance, i: int, j: int)
    requires Symmetric(d)
    ensures d(i, j) == d(j, i)
  {
  }

  function Length(d: Distance, p: seq<int>): real {
    if |p| < 2 then 0.0 else d(p[0], p[1]) + Length(d, p[1..])
  }

  function Reversed(p: seq<int>): (r: seq<int>)
    ensures |r| == |p|
  {
    if p == [] then [] else Reversed(p[1..]) + [p[0]]
  }

  // `p` with the positions lo, ..., hi turned round.
  function ReversedBetween(p: seq<int>, lo: nat, hi: int): (r: seq<int>)
    requires lo <= hi + 1 <= |p|
    ensures |r| == |p|
  {
    p[..lo] + Reversed(p[lo..hi + 1]) + p[hi + 1..]
  }

  lemma {:induction false} ReversedAt(p: seq<int>, k: nat)
    requires k < |p|
    ensures Reversed(p)[k] == p[|p| - 1 - k]
  {
    if k < |p| - 1 {
      ReversedAt(p[1..], k);
    }
  }

  lemma {:induction false} ReversedMultiset(p: seq<int>)
    ensures multiset(Reversed(p)) == multiset(p)
  {
    if p != [] {
      ReversedMultiset(p[1..]);
      assert p == [p[0]] + p[1..];
    }
  }

  lemma ReversedBetweenAt(p: seq<int>, lo: nat, hi: int, k: nat)
    requires lo <= hi < |p| && k < |p|
    ensures ReversedBetween(p, lo, hi)[k] == if lo <= k <= hi then p[lo + hi - k] else p[k]
  {
    if lo <= k <= hi {
      ReversedAt(p[lo..hi + 1], k - lo);
    }
  }

  lemma ReversedBetweenMultiset(p: seq<int>, lo: nat, hi: int)
    requires lo <= hi + 1 <= |p|
    ensures multiset(ReversedBetween(p, lo, hi)) == multiset(p)
  {
    ReversedMultiset(p[lo..hi + 1]);
    assert p == p[..lo] + p[lo..hi + 1] + p[hi + 1..];
  }

  lemma {:induction false} LengthOfJoin(d: Distance, p: seq<int>, q: seq<int>)
    requires p != [] && q != []
    ensures Length(d, p + q) == Length(d, p) + d(Last(p), q[0]) + Length(d, q)
  {
    if |p| == 1 {
      assert (p + q)[1..] == q;
    } else {
      assert (p + q)[1..] == p[1..] + q;
      LengthOfJoin(d, p[1..], q);
    }
  }

  lemma {:induction false} LengthOfReversed(d: Distance, p: seq<int>)
    requires Symmetric(d)
    ensures Length(d, Reversed(p)) == Length(d, p)
  {
    if |p| >= 2 {
      var tail := p[1..];
      LengthOfReversed(d, tail);
      LengthOfJoin(d, Reversed(tail), [p[0]]);
      ReversedAt(tail, |tail| - 1);
      assert Last(Reversed(tail)) == p[1];
      SymmetricAt(d, p[0], p[1]);
    } else if |p| == 1 {
      assert Reversed(p[1..]) == [];
    }
  }

  // The two edges that reversing positions i + 1, ..., j takes away, and the two it puts in.
  // At the end of the path there is only one of each.
  function EdgesRemoved(d: Distance, p: seq<int>, i: nat, j: int): real
    requires i + 1 <= j < |p|
  {
    d(p[i], p[i + 1]) + if j + 1 < |p| then d(p[j], p[j + 1]) else 0.0
  }

  function EdgesAdded(d: Distance, p: seq<int>, i: nat, j: int): real
    requires i + 1 <= j < |p|
  {
    d(p[i], p[j]) + if j + 1 < |p| then d(p[i + 1], p[j + 1]) else 0.0
  }

  lemma ThreeParts(p: seq<int>, lo: nat, hi: int)
    requires lo <= hi <= |p|
    ensures p == p[..lo] + p[lo..hi] + p[hi..]
  {
  }

  // Turning the middle part round exchanges the edges at its two ends.
  lemma TurningTheMiddle(d: Distance, head: seq<int>, mid: seq<int>, tail: seq<int>)
    requires Symmetric(d) && head != [] && mid != []
    ensures Length(d, head + Reversed(mid) + tail)
         == Length(d, head + mid + tail)
            - d(Last(head), mid[0]) - (if tail == [] then 0.0 else d(Last(mid), tail[0]))
            + d(Last(head), Last(mid)) + (if tail == [] then 0.0 else d(mid[0], tail[0]))
  {
    var dim := Reversed(mid);
    ReversedAt(mid, 0);
    ReversedAt(mid, |mid| - 1);
    LengthOfReversed(d, mid);
    LengthOfJoin(d, head, mid);
    LengthOfJoin(d, head, dim);
    hide Length, Reversed, Symmetric;
    if tail == [] {
      assert head + mid + tail == head + mid && head + dim + tail == head + dim;
    } else {
      LengthOfJoin(d, head + mid, tail);
      LengthOfJoin(d, head + dim, tail);
      assert Last(head + mid) == Last(mid) && Last(head + dim) == Last(dim);
    }
  }

  // Reversing a segment changes the length of the whole path by exactly the local difference.
  lemma ReversalGain(d: Distance, p: seq<int>, i: nat, j: int)
    requires Symmetric(d)
    requires i + 1 <= j < |p|
    ensures Length(d, ReversedBetween(p, i + 1, j))
         == Length(d, p) - EdgesRemoved(d, p, i, j) + EdgesAdded(d, p, i, j)
  {
    ThreeParts(p, i + 1, j + 1);
    TurningTheMiddle(d, p[..i + 1], p[i + 1..j + 1], p[j + 1..]);
    hide Length, Reversed, Symmetric;
  }
}
