/** sort.Slice and slices.SortFunc by their contract, realised as a stable insertion sort. */
module Sorting {
  import opened Heaps
  import opened Ranking

  ghost predicate InOrder<T>(r: seq<T>, less: (T, T) -> bool)
  {
    forall i, j :: 0 <= i < j < |r| ==> !less(r[j], r[i])
  }

  method SortBy<T(!new)>(s: seq<T>, less: (T, T) -> bool) returns (r: seq<T>)
    requires WeakOrder(less)
    ensures InOrder(r, less) && multiset(r) == multiset(s)
  {
    r := [];
    for i := 0 to |s|
      invariant InOrder(r, less) && multiset(r) == multiset(s[..i])
    {
      assert s[..i + 1] == s[..i] + [s[i]];
      r := Insert(r, s[i], less);
    }
    assert s[..|s|] == s;
  }

  method Insert<T(!new)>(r: seq<T>, x: T, less: (T, T) -> bool) returns (r': seq<T>)
    requires WeakOrder(less) && InOrder(r, less)
    ensures InOrder(r', less) && multiset(r') == multiset(r) + multiset{x}
  {
    var p := |r|;
    while p > 0 && less(x, r[p - 1])
      invariant 0 <= p <= |r|
      invariant forall j :: p <= j < |r| ==> less(x, r[j])
    {
      p := p - 1;
    }
    InsertInOrder(r, x, p, less);
    InsertedMultiset(r, p, x);
    r' := Inserted(r, p, x);
  }

  /** r with x placed before position p. */
  function Inserted<T>(r: seq<T>, p: nat, x: T): (r': seq<T>)
    requires p <= |r|
    ensures |r'| == |r| + 1
  {
    seq(|r| + 1, i requires 0 <= i < |r| + 1 => if i < p then r[i] else if i == p then x else r[i - 1])
  }

  lemma InsertedMultiset<T>(r: seq<T>, p: nat, x: T)
    requires p <= |r|
    ensures multiset(Inserted(r, p, x)) == multiset(r) + multiset{x}
  {
    assert Inserted(r, p, x) == r[..p] + [x] + r[p..];
    assert r == r[..p] + r[p..];
  }

  lemma InsertInOrder<T(!new)>(r: seq<T>, x: T, p: nat, less: (T, T) -> bool)
    requires WeakOrder(less) && InOrder(r, less) && p <= |r|
    requires forall j :: p <= j < |r| ==> less(x, r[j])
    requires p > 0 ==> !less(x, r[p - 1])
    ensures InOrder(Inserted(r, p, x), less)
  {
    forall i | 0 <= i < p
      ensures !less(x, r[i])
    {
      if i < p - 1 { assert !less(r[p - 1], r[i]); }
    }
  }

  // ----- a sorted list is determined by its elements

  lemma {:induction false} SortIsUnique<T(!new)>(a: seq<T>, b: seq<T>, less: (T, T) -> bool)
    requires StrictTotal(less) && InOrder(a, less) && InOrder(b, less) && multiset(a) == multiset(b)
    ensures a == b
    decreases |a|
  {
    assert |multiset(a)| == |multiset(b)|;
    if a != [] {
      assert a[0] in multiset(b) && b[0] in multiset(a);
      FirstIsLeast(a, b[0], less);
      FirstIsLeast(b, a[0], less);
      TailCount(a);
      TailCount(b);
      SortIsUnique(a[1..], b[1..], less);
    }
  }

  lemma FirstIsLeast<T(!new)>(a: seq<T>, x: T, less: (T, T) -> bool)
    requires StrictTotal(less) && InOrder(a, less) && x in multiset(a)
    ensures !less(x, a[0])
  {
    var j :| 0 <= j < |a| && a[j] == x;
    if j > 0 { assert !less(a[j], a[0]); }
  }

  lemma TailCount<T>(a: seq<T>)
    requires a != []
    ensures a == [a[0]] + a[1..] && multiset(a[1..]) == multiset(a) - multiset{a[0]}
  {
    assert a == [a[0]] + a[1..];
  }
}
