/** Ranked lists of a set under a strict total order. */
module Ranking {

  ghost predicate StrictTotal<T(!new)>(better: (T, T) -> bool)
  {
    && (forall a :: !better(a, a))
    && (forall a, b, c :: better(a, b) && better(b, c) ==> better(a, c))
    && (forall a, b :: a != b ==> better(a, b) || better(b, a))
  }

  ghost predicate IsBest<T>(b: T, s: set<T>, better: (T, T) -> bool)
  {
    b in s && forall x :: x in s && x != b ==> better(b, x)
  }

  ghost predicate Sorted<T>(r: seq<T>, better: (T, T) -> bool)
  {
    forall i, j :: 0 <= i < j < |r| ==> better(r[i], r[j])
  }

  ghost function Elements<T>(r: seq<T>): set<T>
  {
    set x | x in r
  }

  lemma {:induction false} BestExists<T(!new)>(s: set<T>, better: (T, T) -> bool)
    requires StrictTotal(better) && s != {}
    ensures exists b :: IsBest(b, s, better)
    decreases |s|
  {
    var x :| x in s;
    if s == {x} {
      assert IsBest(x, s, better);
    } else {
      BestExists(s - {x}, better);
      var b :| IsBest(b, s - {x}, better);
      if better(x, b) {
        forall y | y in s && y != x ensures better(x, y) {
          if y != b { assert better(b, y); }
        }
        assert IsBest(x, s, better);
      } else {
        assert IsBest(b, s, better);
      }
    }
  }

  ghost function Best<T(!new)>(s: set<T>, better: (T, T) -> bool): (b: T)
    requires StrictTotal(better) && s != {}
    ensures IsBest(b, s, better)
  {
    BestExists(s, better);
    var b :| IsBest(b, s, better); b
  }

  /** The elements of s, best first. */
  ghost function Rank<T(!new)>(s: set<T>, better: (T, T) -> bool): (r: seq<T>)
    requires StrictTotal(better)
    ensures |r| == |s|
    decreases |s|
  {
    if s == {} then [] else
      var b := Best(s, better);
      [b] + Rank(s - {b}, better)
  }

  lemma {:induction false} RankSorts<T(!new)>(s: set<T>, better: (T, T) -> bool)
    requires StrictTotal(better)
    ensures Sorted(Rank(s, better), better) && Elements(Rank(s, better)) == s
    decreases |s|
  {
    if s != {} {
      var b := Best(s, better);
      var rest := Rank(s - {b}, better);
      RankSorts(s - {b}, better);
      BestFirst(s, b, rest, better);
    }
  }

  lemma BestFirst<T>(s: set<T>, b: T, rest: seq<T>, better: (T, T) -> bool)
    requires IsBest(b, s, better) && Sorted(rest, better) && Elements(rest) == s - {b}
    ensures Sorted([b] + rest, better) && Elements([b] + rest) == s
  {
    var r := [b] + rest;
    forall j | 0 <= j < |rest| ensures better(b, rest[j]) {
      assert rest[j] in Elements(rest);
    }
    forall x ensures x in r <==> x in s {
      assert x in rest <==> x in s - {b};
    }
  }

  /** A sorted list is the ranking of its elements. */
  lemma {:induction false} SortedIsRank<T(!new)>(r: seq<T>, better: (T, T) -> bool)
    requires StrictTotal(better) && Sorted(r, better)
    ensures r == Rank(Elements(r), better)
  {
    var s := Elements(r);
    if r == [] {
      assert s == {};
    } else {
      assert r[0] in s;
      assert IsBest(r[0], s, better);
      assert Best(s, better) == r[0];
      assert Elements(r[1..]) == s - {r[0]} by {
        assert forall x :: x in r <==> x == r[0] || x in r[1..];
      }
      SortedIsRank(r[1..], better);
    }
  }

  /** The first k of the ranking; none for k <= 0. */
  ghost function TopK<T(!new)>(s: set<T>, k: int, better: (T, T) -> bool): (r: seq<T>)
    requires StrictTotal(better)
  {
    var r := Rank(s, better);
    if k <= 0 then [] else if k < |r| then r[..k] else r
  }

  /** The first k are sorted, from the set, and better than the others. */
  lemma TopKBeats<T(!new)>(s: set<T>, k: int, better: (T, T) -> bool)
    requires StrictTotal(better)
    ensures Sorted(TopK(s, k, better), better) && forall x :: x in TopK(s, k, better) ==> x in s
    ensures |TopK(s, k, better)| == if k <= 0 then 0 else if k < |s| then k else |s|
    ensures forall i, x :: 0 <= i < |TopK(s, k, better)| && x in s && x !in TopK(s, k, better) ==> better(TopK(s, k, better)[i], x)
  {
    RankSorts(s, better);
    var full, out := Rank(s, better), TopK(s, k, better);
    assert forall x :: x in full <==> x in Elements(full);
    assert forall m :: 0 <= m < |out| ==> full[m] == out[m];
    forall i, x | 0 <= i < |out| && x in s && x !in out ensures better(out[i], x) {
      var j :| 0 <= j < |full| && full[j] == x;
      assert better(full[i], full[j]);
    }
  }

  /** h holds the best min(k, |s|) elements of s. */
  ghost predicate IsTopSet<T>(h: set<T>, s: set<T>, k: nat, better: (T, T) -> bool)
  {
    && h <= s
    && |h| == (if k < |s| then k else |s|)
    && forall x, y :: x in h && y in s && y !in h ==> better(x, y)
  }

  lemma {:induction false} TopSetIsTopK<T(!new)>(h: set<T>, s: set<T>, k: nat, better: (T, T) -> bool)
    requires StrictTotal(better) && IsTopSet(h, s, k, better)
    ensures Rank(h, better) == TopK(s, k, better)
    decreases |h|
  {
    if h == {} {
    } else {
      var b := Best(h, better);
      assert IsBest(b, s, better);
      assert Best(s, better) == b;
      TopSetIsTopK(h - {b}, s - {b}, k - 1, better);
    }
  }

  /** Adding one element to a set that is not yet full keeps everything. */
  lemma TopSetGrow<T(!new)>(h: set<T>, s: set<T>, k: nat, x: T, better: (T, T) -> bool)
    requires IsTopSet(h, s, k, better) && x !in s && |h| < k
    ensures IsTopSet(h + {x}, s + {x}, k, better)
  {
    SubsetSize(h, s);
  }

  /** Adding one element to a full set evicts the worst, or does nothing if x is worse still. */
  lemma TopSetReplace<T(!new)>(h: set<T>, s: set<T>, k: nat, x: T, worst: T, better: (T, T) -> bool)
    requires StrictTotal(better) && IsTopSet(h, s, k, better) && x !in s && |h| == k
    requires worst in h && forall y :: y in h && y != worst ==> better(y, worst)
    ensures IsTopSet(if better(x, worst) then h - {worst} + {x} else h, s + {x}, k, better)
  {
    SubsetSize(h, s);
    var h' := if better(x, worst) then h - {worst} + {x} else h;
    forall a, b | a in h' && b in s + {x} && b !in h'
      ensures better(a, b)
    {
      if b == worst {
      } else if b == x {
        assert better(worst, x);
      } else {
        assert better(worst, b);
      }
    }
  }

  /** Elements worse than everything in a full set change nothing. */
  lemma TopSetSkip<T(!new)>(h: set<T>, s: set<T>, s': set<T>, k: nat, better: (T, T) -> bool)
    requires IsTopSet(h, s, k, better) && s <= s'
    requires s != s' ==> |h| == k
    requires forall x, y :: x in h && y in s' && y !in s ==> better(x, y)
    ensures IsTopSet(h, s', k, better)
  {
    SubsetSize(h, s);
    SubsetSize(s, s');
  }

  lemma SubsetSize<T>(a: set<T>, b: set<T>)
    requires a <= b
    ensures |a| <= |b| && (|a| == |b| ==> a == b)
  {
    assert b == a + (b - a);
  }

  // ----- sequences that list a set

  lemma SameElements<T>(out: seq<T>, top: set<T>)
    requires multiset(out) == multiset(top)
    ensures Elements(out) == top
  {
    forall x ensures x in Elements(out) <==> x in top {
      assert x in multiset(out) <==> x in out;
    }
  }

  lemma NoRepeats<T>(out: seq<T>, top: set<T>, i: nat, j: nat)
    requires multiset(out) == multiset(top) && i < j < |out|
    ensures out[i] != out[j]
  {
    assert out == out[..j] + [out[j]] + out[j + 1..];
    assert out[i] in out[..j];
    assert multiset(out) == multiset(out[..j]) + multiset{out[j]} + multiset(out[j + 1..]);
    assert out[i] in multiset(out[..j]);
    assert multiset(top)[out[j]] <= 1;
  }

  function First<T>(r: seq<T>, k: nat): seq<T>
  {
    if k < |r| then r[..k] else r
  }

  ghost function Without<T>(r: seq<T>, i: nat): seq<T>
    requires i < |r|
  {
    r[..i] + r[i + 1..]
  }

  lemma WithoutElements<T>(r: seq<T>, i: nat)
    requires i < |r| && forall a, b :: 0 <= a < b < |r| ==> r[a] != r[b]
    ensures Elements(Without(r, i)) == Elements(r) - {r[i]}
  {
    forall x ensures x in Without(r, i) <==> x in r && x != r[i] {
      if x in r && x != r[i] {
        var j :| 0 <= j < |r| && r[j] == x;
        assert Without(r, i)[if j < i then j else j - 1] == x;
      }
    }
  }

  lemma WithoutSorted<T>(r: seq<T>, i: nat, better: (T, T) -> bool)
    requires i < |r| && Sorted(r, better)
    ensures Sorted(Without(r, i), better)
  {
  }

  lemma FirstWithout<T>(r: seq<T>, i: nat, k: nat)
    requires i < |r|
    ensures k <= i ==> First(Without(r, i), k) == First(r, k)
    ensures i < k ==> First(Without(r, i), k) == Without(First(r, k), i) + if k < |r| then [r[k]] else []
  {
  }

  lemma SortedDistinct<T(!new)>(r: seq<T>, better: (T, T) -> bool)
    requires StrictTotal(better) && Sorted(r, better)
    ensures forall a, b :: 0 <= a < b < |r| ==> r[a] != r[b]
  {
    forall a, b | 0 <= a < b < |r| ensures r[a] != r[b] {
      assert better(r[a], r[b]);
    }
  }

  /** Dropping one element from a set drops it from the ranking and keeps the rest in place. */
  lemma RankRemove<T(!new)>(s: set<T>, better: (T, T) -> bool, i: nat)
    requires StrictTotal(better) && i < |s|
    ensures Rank(s - {Rank(s, better)[i]}, better) == Without(Rank(s, better), i)
  {
    var r := Rank(s, better);
    RankSorts(s, better);
    SortedDistinct(r, better);
    WithoutElements(r, i);
    WithoutSorted(r, i, better);
    SortedIsRank(Without(r, i), better);
  }

  lemma RankIndex<T(!new)>(s: set<T>, better: (T, T) -> bool, x: T) returns (i: nat)
    requires StrictTotal(better) && x in s
    ensures i < |s| && Rank(s, better)[i] == x
    ensures forall a, b :: 0 <= a < b < |s| ==> Rank(s, better)[a] != Rank(s, better)[b]
  {
    RankSorts(s, better);
    SortedDistinct(Rank(s, better), better);
    assert x in Elements(Rank(s, better));
    i :| 0 <= i < |s| && Rank(s, better)[i] == x;
  }

  /** Dropping x moves nothing unless x was among the best k; then x goes and at most one element
      enters, at the end. */
  lemma TopKRemove<T(!new)>(s: set<T>, k: nat, better: (T, T) -> bool, x: T) returns (i: nat)
    requires StrictTotal(better) && x in s
    ensures k <= i ==> x !in TopK(s, k, better) && TopK(s - {x}, k, better) == TopK(s, k, better)
    ensures i < k ==> i < |TopK(s, k, better)| && TopK(s, k, better)[i] == x
    ensures i < k ==> TopK(s - {x}, k, better) == Without(TopK(s, k, better), i) + if k < |s| then [Rank(s, better)[k]] else []
    ensures forall j :: 0 <= j < |TopK(s, k, better)| && j != i ==> TopK(s, k, better)[j] != x
  {
    i := RankIndex(s, better, x);
    RankRemove(s, better, i);
    FirstWithout(Rank(s, better), i, k);
  }

  /** A sorted listing of a set is its ranking. */
  lemma SortedListingIsRank<T(!new)>(out: seq<T>, s: set<T>, better: (T, T) -> bool)
    requires StrictTotal(better) && multiset(out) == multiset(s) && forall i, j :: 0 <= i < j < |out| ==> !better(out[j], out[i])
    ensures out == Rank(s, better)
  {
    forall i, j | 0 <= i < j < |out| ensures better(out[i], out[j]) {
      NoRepeats(out, s, i, j);
    }
    SameElements(out, s);
    SortedIsRank(out, better);
  }
}
