/** Binary heaps: the sift loops of container/heap and vector/ann/heap.go over a strict weak order. */
module Heaps {

  /** less is a strict weak order: asymmetric, and "not less" is transitive. */
  ghost predicate WeakOrder<T(!new)>(less: (T, T) -> bool)
  {
    && (forall a, b :: less(a, b) ==> !less(b, a))
    && (forall a, b, c :: !less(a, b) && !less(b, c) ==> !less(a, c))
  }

  /** less breaks ties of base and never contradicts it. */
  ghost predicate Refines<T(!new)>(less: (T, T) -> bool, base: (T, T) -> bool)
  {
    && (forall a, b :: base(a, b) ==> less(a, b))
    && (forall a, b :: less(a, b) ==> !base(b, a))
  }

  function Parent(i: nat): nat
    requires i > 0
  {
    (i - 1) / 2
  }

  ghost predicate IsHeap<T>(h: seq<T>, less: (T, T) -> bool)
  {
    forall i :: 0 < i < |h| ==> !less(h[i], h[Parent(i)])
  }

  /** The root of a heap is least. */
  lemma {:induction false} RootIsLeast<T(!new)>(h: seq<T>, less: (T, T) -> bool, i: nat)
    requires WeakOrder(less) && IsHeap(h, less) && i < |h|
    ensures !less(h[i], h[0])
  {
    if i == 0 {
    } else {
      RootIsLeast(h, less, Parent(i));
    }
  }

  function Swap<T>(h: seq<T>, i: nat, j: nat): (r: seq<T>)
    requires i < |h| && j < |h|
    ensures |r| == |h|
  {
    h[i := h[j]][j := h[i]]
  }

  lemma SwapPermutes<T>(h: seq<T>, i: nat, j: nat)
    requires i < |h| && j < |h|
    ensures multiset(Swap(h, i, j)) == multiset(h)
  {
  }

  /** Heap order except that element j may be less than its parent. */
  ghost predicate UpHole<T>(h: seq<T>, less: (T, T) -> bool, j: nat)
  {
    && j < |h|
    && (forall i :: 0 < i < |h| && i != j ==> !less(h[i], h[Parent(i)]))
    && (forall i :: 0 < i < |h| && Parent(i) == j && j > 0 ==> !less(h[i], h[Parent(j)]))
  }

  lemma UpStep<T(!new)>(h: seq<T>, less: (T, T) -> bool, j: nat)
    requires WeakOrder(less) && UpHole(h, less, j) && j > 0 && !less(h[Parent(j)], h[j])
    ensures UpHole(Swap(h, Parent(j), j), less, Parent(j))
  {
    var p := Parent(j);
    var s := Swap(h, p, j);
    forall i | 0 < i < |s| && i != p
      ensures !less(s[i], s[Parent(i)])
    {
      if i == j {
      } else if Parent(i) == p {
        assert !less(h[i], h[p]);
      } else if Parent(i) == j {
        assert !less(h[i], h[p]);
      }
    }
    forall i | 0 < i < |s| && Parent(i) == p && p > 0
      ensures !less(s[i], s[Parent(p)])
    {
      assert !less(h[p], h[Parent(p)]);
      if i != j { assert !less(h[i], h[p]); }
    }
  }

  method Push<T(!new)>(h0: seq<T>, x: T, less: (T, T) -> bool) returns (h: seq<T>)
    requires WeakOrder(less) && IsHeap(h0, less)
    ensures IsHeap(h, less) && multiset(h) == multiset(h0) + multiset{x}
  {
    h := PushBy(h0, x, less, less);
  }

  /** Sifting by any refinement keeps heap order of the base. */
  method PushBy<T(!new)>(h0: seq<T>, x: T, less: (T, T) -> bool, ghost base: (T, T) -> bool) returns (h: seq<T>)
    requires WeakOrder(base) && Refines(less, base) && IsHeap(h0, base)
    ensures IsHeap(h, base) && multiset(h) == multiset(h0) + multiset{x}
  {
    h := h0 + [x];
    var j := |h| - 1;
    while true
      invariant 0 <= j < |h| && UpHole(h, base, j)
      invariant multiset(h) == multiset(h0) + multiset{x}
      decreases j
    {
      if j == 0 || !less(h[j], h[Parent(j)]) {
        break;
      }
      UpStep(h, base, j);
      SwapPermutes(h, Parent(j), j);
      h := Swap(h, Parent(j), j);
      j := Parent(j);
    }
  }

  /** Heap order among the first n elements except that element i may exceed its children. */
  ghost predicate DownHole<T>(h: seq<T>, less: (T, T) -> bool, i: nat, n: nat)
  {
    && n <= |h|
    && (forall c :: 0 < c < n && Parent(c) != i ==> !less(h[c], h[Parent(c)]))
    && (forall c :: 0 < c < n && Parent(c) == i && i > 0 ==> !less(h[c], h[Parent(i)]))
  }

  lemma DownStep<T(!new)>(h: seq<T>, less: (T, T) -> bool, i: nat, j: nat, n: nat)
    requires WeakOrder(less) && DownHole(h, less, i, n) && i < j < n && Parent(j) == i
    requires !less(h[i], h[j])
    requires forall c :: 0 < c < n && Parent(c) == i ==> !less(h[c], h[j])
    ensures DownHole(Swap(h, i, j), less, j, n)
  {
    var s := Swap(h, i, j);
    forall c | 0 < c < n && Parent(c) != j
      ensures !less(s[c], s[Parent(c)])
    {
      if c == i {
        assert !less(h[j], h[Parent(i)]);
      } else if c == j {
      } else if Parent(c) == i {
        assert !less(h[c], h[j]);
      }
    }
    forall c | 0 < c < n && Parent(c) == j
      ensures !less(s[c], s[Parent(j)])
    {
      assert !less(h[c], h[j]);
    }
  }

  /** Sifts the root of h[..n] down to its place. */
  method Down<T(!new)>(h0: seq<T>, n: nat, less: (T, T) -> bool, ghost base: (T, T) -> bool) returns (h: seq<T>)
    requires WeakOrder(base) && Refines(less, base) && n <= |h0| && DownHole(h0, base, 0, n)
    ensures |h| == |h0| && IsHeap(h[..n], base)
    ensures multiset(h) == multiset(h0) && h[n..] == h0[n..]
  {
    h := h0;
    var i := 0;
    while true
      invariant 0 <= i && (i < n || i == 0) && |h| == |h0| && DownHole(h, base, i, n)
      invariant multiset(h) == multiset(h0) && h[n..] == h0[n..]
      decreases n - i
    {
      var j1 := 2 * i + 1;
      if j1 >= n {
        break;
      }
      var j := j1;
      if j1 + 1 < n && less(h[j1 + 1], h[j1]) {
        j := j1 + 1;
      }
      if !less(h[j], h[i]) {
        SettledDown(h, less, base, i, j, n);
        break;
      }
      DownOne(h, less, base, i, j, n);
      SwapPermutes(h, i, j);
      h := Swap(h, i, j);
      i := j;
    }
  }

  /** j is the child Down picks. */
  ghost predicate Picks<T>(h: seq<T>, less: (T, T) -> bool, i: nat, j: nat, n: nat)
  {
    && 2 * i + 1 < n <= |h|
    && j == if 2 * i + 2 < n && less(h[2 * i + 2], h[2 * i + 1]) then 2 * i + 2 else 2 * i + 1
  }

  /** The child Down picks is not above its sibling. */
  lemma SmallerChild<T(!new)>(h: seq<T>, less: (T, T) -> bool, base: (T, T) -> bool, i: nat, j: nat, n: nat)
    requires WeakOrder(base) && Refines(less, base) && Picks(h, less, i, j, n)
    ensures forall c :: 0 < c < n && Parent(c) == i ==> !base(h[c], h[j])
  {
    forall c | 0 < c < n && Parent(c) == i
      ensures !base(h[c], h[j])
    {
      assert c == 2 * i + 1 || c == 2 * i + 2;
    }
  }

  lemma DownOne<T(!new)>(h: seq<T>, less: (T, T) -> bool, base: (T, T) -> bool, i: nat, j: nat, n: nat)
    requires WeakOrder(base) && Refines(less, base) && DownHole(h, base, i, n) && Picks(h, less, i, j, n) && less(h[j], h[i])
    ensures DownHole(Swap(h, i, j), base, j, n)
  {
    SmallerChild(h, less, base, i, j, n);
    DownStep(h, base, i, j, n);
  }

  lemma SettledDown<T(!new)>(h: seq<T>, less: (T, T) -> bool, base: (T, T) -> bool, i: nat, j: nat, n: nat)
    requires WeakOrder(base) && Refines(less, base) && DownHole(h, base, i, n) && Picks(h, less, i, j, n) && !less(h[j], h[i])
    ensures IsHeap(h[..n], base)
  {
    SmallerChild(h, less, base, i, j, n);
    forall c | 0 < c < n
      ensures !base(h[c], h[Parent(c)])
    {
      if Parent(c) == i { assert !base(h[c], h[j]); }
    }
  }

  /** Removes the least element. */
  method Pop<T(!new)>(h0: seq<T>, less: (T, T) -> bool) returns (x: T, h: seq<T>)
    requires WeakOrder(less) && IsHeap(h0, less) && |h0| > 0
    ensures IsHeap(h, less) && multiset(h) + multiset{x} == multiset(h0) && x == h0[0]
    ensures forall y :: y in multiset(h0) ==> !less(y, x)
  {
    x, h := PopBy(h0, less, less);
  }

  method PopBy<T(!new)>(h0: seq<T>, less: (T, T) -> bool, ghost base: (T, T) -> bool) returns (x: T, h: seq<T>)
    requires WeakOrder(base) && Refines(less, base) && IsHeap(h0, base) && |h0| > 0
    ensures IsHeap(h, base) && multiset(h) + multiset{x} == multiset(h0) && x == h0[0]
    ensures forall y :: y in multiset(h0) ==> !base(y, x)
  {
    forall y | y in multiset(h0)
      ensures !base(y, h0[0])
    {
      var i :| 0 <= i < |h0| && h0[i] == y;
      RootIsLeast(h0, base, i);
    }
    var n := |h0| - 1;
    SwapPermutes(h0, 0, n);
    var s := Swap(h0, 0, n);
    s := Down(s, n, less, base);
    assert s == s[..n] + [s[n]] && s[n..][0] == h0[0];
    x, h := s[n], s[..n];
  }
}
