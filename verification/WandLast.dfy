/** What WAND's loop does once it stands on the largest document id (index/search/wand.go). */
module WandLast {
  import opened Heaps
  import opened Ranking
  import opened Sorting
  import opened TopHeap

  /** What becomes of a call: most return. */
  datatype Outcome = Returned(hits: seq<Hit>) | NeverReturns

  ghost function Copies(last: Hit, c: nat): (r: seq<Hit>)
    ensures |r| == c
  {
    seq(c, i => last)
  }

  ghost function Ahead(all: set<Hit>, last: Hit): set<Hit>
  {
    set x | x in all && Better(x, last)
  }

  ghost function Behind(all: set<Hit>, last: Hit): set<Hit>
  {
    set x | x in all && Better(last, x)
  }

  /** The answer when the last hit is taken again and again: all that is better, and then copies of it. */
  ghost function Repeated(all: set<Hit>, last: Hit, k: int): seq<Hit>
  {
    BetterIsTotal();
    if k <= |Ahead(all, last)| then TopK(all, k, Better)
    else Rank(Ahead(all, last), Better) + Copies(last, k - |Ahead(all, last)|)
  }

  // ----- the heap while copies fill it

  /** The heap holds the hits b better than the last, the hits w worse than it, and c copies of it. */
  ghost predicate Filling(h: seq<Hit>, b: set<Hit>, w: set<Hit>, last: Hit, c: nat, k: nat)
  {
    && IsHeap(h, Worse) && multiset(h) == multiset(b) + multiset(w) + multiset(Copies(last, c)) && |h| <= k
    && (forall x :: x in b ==> Better(x, last)) && (forall x :: x in w ==> Better(last, x))
  }

  lemma CopiesCount(last: Hit, c: nat, x: Hit)
    ensures multiset(Copies(last, c))[x] == if x == last then c else 0
    decreases c
  {
    if c > 0 {
      CopiesCount(last, c - 1, x);
      assert Copies(last, c) == Copies(last, c - 1) + [last];
    } else {
      assert Copies(last, 0) == [];
    }
  }

  lemma FillingSize(h: seq<Hit>, b: set<Hit>, w: set<Hit>, last: Hit, c: nat, k: nat)
    requires Filling(h, b, w, last, c, k)
    ensures |h| == |b| + |w| + c
  {
    assert |multiset(h)| == |h| && |multiset(b)| == |b| && |multiset(w)| == |w| && |multiset(Copies(last, c))| == c;
  }

  /** The root of a full heap is the worst of w, or else the last hit, or else one of b. */
  lemma RootOf(h: seq<Hit>, b: set<Hit>, w: set<Hit>, last: Hit, c: nat, k: nat)
    requires Filling(h, b, w, last, c, k) && |h| > 0
    ensures if w != {} then h[0] in w else if c > 0 then h[0] == last else h[0] in b
    ensures Better(last, h[0]) <==> w != {}
  {
    RootIsLow(h);
    CopiesCount(last, c, h[0]);
    CopiesCount(last, c, last);
    assert multiset(h)[h[0]] > 0;
    if y :| y in w {
      assert y in multiset(h);
      assert !Better(h[0], y);
      BetterIsTotal();
    } else if c > 0 {
      assert last in multiset(h);
      assert !Better(h[0], last);
    }
  }

  /** One more push of the last hit adds a copy, in place of the worst hit once the heap is full. */
  lemma FillMore(h: seq<Hit>, b: set<Hit>, w: set<Hit>, last: Hit, c: nat, k: nat, h': seq<Hit>) returns (w': set<Hit>)
    requires Filling(h, b, w, last, c, k) && (|h| < k || w != {}) && k > 0
    requires IsHeap(h', Worse) && multiset(h') == (if |h| < k then multiset(h) else multiset(h) - multiset{h[0]}) + multiset{last}
    ensures Filling(h', b, w', last, c + 1, k) && w' <= w
  {
    assert |multiset(h')| == |h'| && |multiset(h)| == |h|;
    assert Copies(last, c + 1) == Copies(last, c) + [last];
    if |h| < k {
      w' := w;
    } else {
      RootOf(h, b, w, last, c, k);
      w' := w - {h[0]};
      assert multiset(w) == multiset(w') + multiset{h[0]};
      assert multiset(h) - multiset{h[0]} == multiset(b) + multiset(w') + multiset(Copies(last, c));
    }
  }

  /** Once nothing worse is left and the heap is full, it is sorted into the repeated answer. */
  lemma FilledIsRepeated(h: seq<Hit>, b: set<Hit>, last: Hit, c: nat, k: nat, all: set<Hit>, out: seq<Hit>)
    requires Filling(h, b, {}, last, c, k) && |h| == k && InOrder(out, Better) && multiset(out) == multiset(h)
    requires if c > 0 then b == Ahead(all, last) else IsTopSet(b, all, k, Better)
    ensures out == Repeated(all, last, k)
  {
    BetterIsTotal();
    FillingSize(h, b, {}, last, c, k);
    RankThenCopies(b, last, c);
    SortIsUnique(out, Rank(b, Better) + Copies(last, c), Better);
    if c == 0 { FullIsTopK(b, last, k, all); }
  }

  lemma RankThenCopies(b: set<Hit>, last: Hit, c: nat)
    requires forall x :: x in b ==> Better(x, last)
    ensures StrictTotal(Better)
    ensures var r := Rank(b, Better) + Copies(last, c);
            InOrder(r, Better) && multiset(r) == multiset(b) + multiset({}) + multiset(Copies(last, c))
  {
    BetterIsTotal();
    var r := Rank(b, Better) + Copies(last, c);
    RankSorts(b, Better);
    RankMultiset(b);
    forall i, j | 0 <= i < j < |r| ensures !Better(r[j], r[i]) {
      if i < |b| { assert Rank(b, Better)[i] in Elements(Rank(b, Better)); }
      if j < |b| { assert Better(r[i], r[j]); }
    }
  }

  lemma FullIsTopK(b: set<Hit>, last: Hit, k: nat, all: set<Hit>)
    requires IsTopSet(b, all, k, Better) && |b| == k && forall x :: x in b ==> Better(x, last)
    ensures StrictTotal(Better) && Rank(b, Better) + Copies(last, 0) == Repeated(all, last, k)
  {
    BetterIsTotal();
    TopSetIsTopK(b, all, k, Better);
    assert b <= Ahead(all, last);
    SubsetSize(b, Ahead(all, last));
    assert Rank(b, Better) + Copies(last, 0) == Rank(b, Better);
  }

  lemma {:induction false} RankMultiset(s: set<Hit>)
    ensures StrictTotal(Better) && multiset(Rank(s, Better)) == multiset(s)
    decreases |s|
  {
    BetterIsTotal();
    if s != {} {
      var x := Best(s, Better);
      RankMultiset(s - {x});
      assert multiset(s) == multiset(s - {x}) + multiset{x};
    }
  }

  /** The loop ends only when the heap is full of hits at least as good as the last. */
  lemma EndsFilled(h: seq<Hit>, b: set<Hit>, w: set<Hit>, last: Hit, c: nat, k: nat, threshold: real, bound: real)
    requires Filling(h, b, w, last, c, k) && Sets(h, threshold, k)
    requires 0.0 < bound <= threshold && last.score <= bound && forall x :: x in w ==> x.doc <= last.doc
    ensures |h| == k && w == {}
  {
    RootOf(h, b, w, last, c, k);
  }

  /** What the heap is when the last hit has been scored for the first time. */
  lemma FillingStarts(h: seq<Hit>, top: set<Hit>, all: set<Hit>, last: Hit, k: nat) returns (b: set<Hit>, w: set<Hit>, c: nat)
    requires IsHeap(h, Worse) && multiset(h) == multiset(top) && IsTopSet(top, all, k, Better) && last in all
    ensures Filling(h, b, w, last, c, k) && w <= top
    ensures if c > 0 then b == Ahead(all, last) else w == {} && |h| == k && IsTopSet(b, all, k, Better)
    ensures c > 0 <==> last in top
  {
    MultisetSize(h, top);
    SubsetSize(top, all);
    b, w, c := Ahead(top, last), Behind(top, last), if last in top then 1 else 0;
    assert top == b + w + if last in top then {last} else {};
    assert Copies(last, 1) == [last] && Copies(last, 0) == [];
    if last in top {
      assert multiset(top) == multiset(b) + multiset(w) + multiset{last};
      forall x | x in Ahead(all, last) ensures x in top {
        assert x !in top ==> Better(last, x);
      }
    } else {
      forall x | x in top ensures Better(x, last) {}
      assert w == {} && b == top;
      assert |top| == |all| ==> top == all;
    }
  }

  // ----- the phase as a whole

  /** Scores are not negative and no id is larger. */
  ghost predicate HitsOk(h: seq<Hit>, maxDoc: nat)
  {
    forall x :: x in multiset(h) ==> x.score >= 0.0 && x.doc <= maxDoc
  }

  /** One push of the last hit. */
  ghost predicate PushedLast(h: seq<Hit>, last: Hit, k: nat, h': seq<Hit>, pushed: bool)
  {
    && IsHeap(h', Worse) && (pushed <==> |h| < k || (|h| > 0 && Better(last, h[0]))) && (!pushed ==> h' == h)
    && (pushed ==> (|h| < k || |h| > 0) && multiset(h') == (if |h| < k then multiset(h) else multiset(h) - multiset{h[0]}) + multiset{last})
  }

  /** What holds from turn to turn; inTop tells whether the last hit is among the top k of all. */
  ghost predicate Phase(h: seq<Hit>, threshold: real, b: set<Hit>, w: set<Hit>, c: nat, last: Hit, k: nat, all: set<Hit>, inTop: bool)
  {
    && Filling(h, b, w, last, c, k) && c <= k && Sets(h, threshold, k) && HitsOk(h, last.doc)
    && (c > 0 <==> inTop)
    && if c > 0 then b == Ahead(all, last) else w == {} && |h| == k && IsTopSet(b, all, k, Better)
  }

  lemma PhaseStarts(h: seq<Hit>, threshold: real, top: set<Hit>, all: set<Hit>, last: Hit, k: nat) returns (b: set<Hit>, w: set<Hit>, c: nat)
    requires IsHeap(h, Worse) && multiset(h) == multiset(top) && IsTopSet(top, all, k, Better) && last in all && Sets(h, threshold, k)
    requires forall x :: x in all ==> x.score >= 0.0 && x.doc <= last.doc
    ensures Phase(h, threshold, b, w, c, last, k, all, last in top)
  {
    b, w, c := FillingStarts(h, top, all, last, k);
    FillingSize(h, b, w, last, c, k);
  }

  lemma PhaseEnds(h: seq<Hit>, threshold: real, b: set<Hit>, w: set<Hit>, c: nat, last: Hit, k: nat, all: set<Hit>, inTop: bool, bound: real)
    requires Phase(h, threshold, b, w, c, last, k, all, inTop) && 0.0 < bound <= threshold && last.score <= bound
    ensures |h| == k && w == {} && (inTop ==> bound <= last.score)
  {
    assert forall x :: x in w ==> x in multiset(h);
    EndsFilled(h, b, w, last, c, k, threshold, bound);
    RootOf(h, b, w, last, c, k);
  }

  lemma PhaseStalls(h: seq<Hit>, threshold: real, b: set<Hit>, w: set<Hit>, c: nat, last: Hit, k: nat, all: set<Hit>, inTop: bool)
    requires Phase(h, threshold, b, w, c, last, k, all, inTop) && |h| == k && !Better(last, h[0])
    ensures inTop ==> threshold == last.score
  {
    RootOf(h, b, w, last, c, k);
  }

  lemma PhaseGoesOn(h: seq<Hit>, threshold: real, b: set<Hit>, w: set<Hit>, c: nat, last: Hit, k: nat, all: set<Hit>, inTop: bool,
                    h': seq<Hit>, threshold': real) returns (w': set<Hit>)
    requires Phase(h, threshold, b, w, c, last, k, all, inTop) && PushedLast(h, last, k, h', true) && Sets(h', threshold', k)
    requires last.score >= 0.0
    ensures Phase(h', threshold', b, w', c + 1, last, k, all, inTop)
  {
    if |h| == k { RootOf(h, b, w, last, c, k); }
    w' := FillMore(h, b, w, last, c, k, h');
    FillingSize(h', b, w', last, c + 1, k);
    forall x | x in multiset(h') ensures x == last || x in multiset(h) {}
  }

  /** How the phase ends: with the repeated answer, and at all exactly if the bound allows it. */
  ghost predicate Settled(out: Outcome, all: set<Hit>, last: Hit, k: nat, inTop: bool, bound: real)
  {
    (out.Returned? ==> out.hits == Repeated(all, last, k)) && (inTop ==> (out.Returned? <==> bound <= last.score))
  }

  method Finish(h: seq<Hit>, threshold: real, k: nat, ghost b: set<Hit>, ghost w: set<Hit>, ghost c: nat, ghost last: Hit, ghost all: set<Hit>,
                ghost inTop: bool, ghost bound: real) returns (out: Outcome)
    requires Phase(h, threshold, b, w, c, last, k, all, inTop) && 0.0 < bound <= threshold && last.score <= bound
    ensures Settled(out, all, last, k, inTop, bound)
  {
    PhaseEnds(h, threshold, b, w, c, last, k, all, inTop, bound);
    var hits := DrainAll(h);
    FilledIsRepeated(h, b, last, c, k, all, hits);
    out := Returned(hits);
  }

  // ----- when the repeated answer is the right one

  lemma RankSnoc(s: set<Hit>, x: Hit)
    requires forall y :: y in s ==> Better(y, x)
    ensures StrictTotal(Better) && Rank(s + {x}, Better) == Rank(s, Better) + [x]
  {
    BetterIsTotal();
    RankSorts(s, Better);
    ElementsSnoc(Rank(s, Better), x);
    SortedSnoc(Rank(s, Better), x);
    SortedIsRank(Rank(s, Better) + [x], Better);
  }

  lemma ElementsSnoc(r: seq<Hit>, x: Hit)
    ensures Elements(r + [x]) == Elements(r) + {x}
  {
  }

  lemma SortedSnoc(r: seq<Hit>, x: Hit)
    requires Sorted(r, Better) && forall y :: y in Elements(r) ==> Better(y, x)
    ensures Sorted(r + [x], Better)
  {
    forall i | 0 <= i < |r| ensures Better(r[i], x) {
      assert r[i] in Elements(r);
    }
  }

  /** With the last hit among them, repeating it gives the top k exactly if at least k - 1 are better. */
  lemma RepeatedIsTopKIff(all: set<Hit>, last: Hit, k: nat)
    requires last in all
    ensures StrictTotal(Better)
    ensures Repeated(all, last, k) == TopK(all, k, Better) <==> k <= |Ahead(all, last)| + 1
  {
    BetterIsTotal();
    if k == |Ahead(all, last)| + 1 {
      OneCopyIsTopK(all, last);
    } else if k > |Ahead(all, last)| + 1 {
      TwoCopiesRepeat(all, last, k);
    }
  }

  lemma OneCopyIsTopK(all: set<Hit>, last: Hit)
    requires last in all
    ensures StrictTotal(Better) && Rank(Ahead(all, last), Better) + Copies(last, 1) == TopK(all, |Ahead(all, last)| + 1, Better)
  {
    BetterIsTotal();
    var b := Ahead(all, last);
    RankSnoc(b, last);
    assert Copies(last, 1) == [last];
    SubsetSize(b + {last}, all);
    assert IsTopSet(b + {last}, all, |b| + 1, Better);
    TopSetIsTopK(b + {last}, all, |b| + 1, Better);
  }

  lemma TwoCopiesRepeat(all: set<Hit>, last: Hit, k: nat)
    requires k > |Ahead(all, last)| + 1
    ensures StrictTotal(Better) && Repeated(all, last, k) != TopK(all, k, Better)
  {
    BetterIsTotal();
    var n, r, t := |Ahead(all, last)|, Repeated(all, last, k), TopK(all, k, Better);
    assert r[n] == last && r[n + 1] == last;
    RankSorts(all, Better);
    SortedDistinct(Rank(all, Better), Better);
    if |t| > n + 1 { assert t[n] != t[n + 1]; }
  }

  lemma AloneTwice(last: Hit)
    ensures StrictTotal(Better)
    ensures Repeated({last}, last, 2) == [last, last] && TopK({last}, 2, Better) == [last]
  {
    BetterIsTotal();
    assert Ahead({last}, last) == {};
    assert Copies(last, 2) == [last, last];
    RankSorts({last}, Better);
    assert Rank({last}, Better)[0] in Elements(Rank({last}, Better));
  }
}
