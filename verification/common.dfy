// Shared vocabulary: optional values, results, and facts about sequences.
module Common {
  datatype Option<+T> = None | Some(value: T)

  datatype Result<+T, +E> = Ok(value: T) | Err(error: E)

  function Last<T>(s: seq<T>): T
    requires s != []
  {
    s[|s| - 1]
  }

  ghost predicate NoDuplicates<T>(s: seq<T>) {
    forall i, j :: 0 <= i < j < |s| ==> s[i] != s[j]
  }

  function Flatten<T>(groups: seq<seq<T>>): seq<T> {
    if groups == [] then [] else groups[0] + Flatten(groups[1..])
  }

  lemma {:induction false} FlattenPush<T>(groups: seq<seq<T>>, last: seq<T>)
    ensures Flatten(groups + [last]) == Flatten(groups) + last
  {
    if groups == [] {
      assert groups + [last] == [last];
      assert Flatten([last]) == last + Flatten<T>([]);
    } else {
      assert (groups + [last])[1..] == groups[1..] + [last];
      FlattenPush(groups[1..], last);
    }
  }

  lemma {:induction false} FlattenSplit<T>(groups: seq<seq<T>>, k: nat)
    requires k < |groups|
    ensures Flatten(groups) == Flatten(groups[..k]) + groups[k] + Flatten(groups[k + 1..])
  {
    if k > 0 {
      FlattenSplit(groups[1..], k - 1);
      assert groups[..k][1..] == groups[1..][..k - 1];
    }
  }

  // The indices 0, 1, ..., n - 1 in order.
  function Range(n: nat): seq<int> {
    seq(n, i requires 0 <= i < n => i)
  }

  ghost predicate IsPermutationOfRange(p: seq<int>, n: nat) {
    multiset(p) == multiset(Range(n))
  }

  lemma {:induction false} MultiplicityWithoutDuplicates<T>(s: seq<T>, x: T)
    requires NoDuplicates(s)
    ensures multiset(s)[x] == if x in s then 1 else 0
  {
    if s != [] {
      assert s == [s[0]] + s[1..];
      MultiplicityWithoutDuplicates(s[1..], x);
    }
  }

  lemma PermutationOfRange(p: seq<int>, n: nat)
    requires NoDuplicates(p)
    requires forall x :: x in p <==> 0 <= x < n
    ensures IsPermutationOfRange(p, n)
  {
    forall x ensures multiset(p)[x] == multiset(Range(n))[x] {
      MultiplicityWithoutDuplicates(p, x);
      MultiplicityWithoutDuplicates(Range(n), x);
      assert x in Range(n) <==> 0 <= x < n by {
        if 0 <= x < n { assert Range(n)[x] == x; }
      }
    }
  }

  function RemoveAt<T>(s: seq<T>, k: nat): (r: seq<T>)
    requires k < |s|
    ensures |r| == |s| - 1
    ensures multiset(s) == multiset(r) + multiset{s[k]}
    ensures forall x :: x in r ==> x in s
  {
    assert s == s[..k] + [s[k]] + s[k + 1..];
    s[..k] + s[k + 1..]
  }

  ghost function IndexOf<T>(s: seq<T>, x: T): (k: nat)
    requires x in multiset(s)
    ensures k < |s| && s[k] == x
  {
    var k :| 0 <= k < |s| && s[k] == x;
    k
  }

  lemma CancelOne<T>(a: multiset<T>, b: multiset<T>, x: T)
    requires a + multiset{x} == b + multiset{x}
    ensures a == b
  {
    assert a == a + multiset{x} - multiset{x};
    assert b == b + multiset{x} - multiset{x};
  }

  // The elements of `s` looked up one by one.
  function Image<K, V>(f: map<K, V>, s: seq<K>): (r: seq<V>)
    requires forall x :: x in s ==> x in f
    ensures |r| == |s|
  {
    seq(|s|, k requires 0 <= k < |s| => assert s[k] in s; f[s[k]])
  }

  lemma ImageRemoveAt<K, V>(f: map<K, V>, s: seq<K>, k: nat)
    requires k < |s|
    requires forall x :: x in s ==> x in f
    ensures Image(f, RemoveAt(s, k)) == RemoveAt(Image(f, s), k)
  {
  }

  // Looking up a rearranged list gives a rearranged result.
  lemma {:induction false} ImageKeepsMultiset<K, V>(f: map<K, V>, p: seq<K>, q: seq<K>)
    requires multiset(p) == multiset(q)
    requires forall x :: x in p ==> x in f
    requires forall x :: x in q ==> x in f
    ensures multiset(Image(f, p)) == multiset(Image(f, q))
    decreases |p|
  {
    if |p| == 0 {
      assert |multiset(q)| == 0;
    } else {
      var k := IndexOf(q, p[0]);
      var p', q' := RemoveAt(p, 0), RemoveAt(q, k);
      CancelOne(multiset(p'), multiset(q'), p[0]);
      ImageKeepsMultiset(f, p', q');
      ImageRemoveAt(f, p, 0);
      ImageRemoveAt(f, q, k);
    }
  }

  // The elements of `items` picked out by the indices `p`, in the order of `p`.
  function Gather<T>(items: seq<T>, p: seq<int>): (r: seq<T>)
    requires forall i :: i in p ==> 0 <= i < |items|
    ensures |r| == |p|
  {
    seq(|p|, k requires 0 <= k < |p| => assert p[k] in p; items[p[k]])
  }

  lemma PermutationInRange(p: seq<int>, n: nat)
    requires IsPermutationOfRange(p, n)
    ensures |p| == n
    ensures forall x :: x in p <==> 0 <= x < n
  {
    assert |multiset(p)| == |multiset(Range(n))|;
    forall x ensures x in p <==> 0 <= x < n {
      assert x in p <==> x in multiset(p);
      assert x in Range(n) <==> x in multiset(Range(n));
      if 0 <= x < n { assert Range(n)[x] == x; }
    }
  }

  // Picking every index exactly once rearranges the items and loses none.
  lemma GatherPermutation<T>(items: seq<T>, p: seq<int>)
    requires IsPermutationOfRange(p, |items|)
    requires forall i :: i in p ==> 0 <= i < |items|
    ensures multiset(Gather(items, p)) == multiset(items)
  {
    var f := map i | 0 <= i < |items| :: items[i];
    ImageKeepsMultiset(f, p, Range(|items|));
    assert Gather(items, p) == Image(f, p);
    assert items == Image(f, Range(|items|));
  }

  lemma RearrangedNoDuplicates<T>(s: seq<T>, t: seq<T>)
    requires NoDuplicates(s) && multiset(s) == multiset(t)
    ensures NoDuplicates(t)
  {
    forall i, j | 0 <= i < j < |t| ensures t[i] != t[j] {
      MultiplicityWithoutDuplicates(s, t[i]);
      assert t == t[..i] + [t[i]] + t[i + 1..j] + [t[j]] + t[j + 1..];
    }
  }

  // ---- Counting distinct elements ----

  ghost function ElementsOf<T>(s: seq<T>): set<T> {
    set x | x in s
  }

  lemma {:induction false} SizeOfElements<T>(s: seq<T>)
    requires NoDuplicates(s)
    ensures |ElementsOf(s)| == |s|
  {
    if s != [] {
      SizeOfElements(s[1..]);
      assert ElementsOf(s) == ElementsOf(s[1..]) + {s[0]};
    }
  }

  lemma SubsetSize<T>(a: set<T>, b: set<T>)
    requires a <= b
    ensures |a| <= |b|
  {
    assert b == a + (b - a);
  }

  lemma ElementsOfRange(n: nat)
    ensures |ElementsOf(Range(n))| == n
    ensures forall x :: x in ElementsOf(Range(n)) <==> 0 <= x < n
  {
    SizeOfElements(Range(n));
    forall x | 0 <= x < n ensures x in Range(n) {
      assert Range(n)[x] == x;
    }
  }

  // Fewer than n distinct elements miss some index below n.
  lemma MissingIndex(s: seq<int>, n: nat) returns (x: int)
    requires NoDuplicates(s) && |s| < n
    ensures 0 <= x < n && x !in s
  {
    SizeOfElements(s);
    ElementsOfRange(n);
    if ElementsOf(Range(n)) <= ElementsOf(s) {
      SubsetSize(ElementsOf(Range(n)), ElementsOf(s));
    }
    x :| x in ElementsOf(Range(n)) && x !in ElementsOf(s);
  }

  lemma FullIsPermutation(s: seq<int>, n: nat)
    requires NoDuplicates(s) && |s| == n
    requires forall x :: x in s ==> 0 <= x < n
    ensures IsPermutationOfRange(s, n)
  {
    SizeOfElements(s);
    ElementsOfRange(n);
    forall x | 0 <= x < n ensures x in s {
      if x !in s {
        SubsetSize(ElementsOf(s) + {x}, ElementsOf(Range(n)));
      }
    }
    PermutationOfRange(s, n);
  }
}
