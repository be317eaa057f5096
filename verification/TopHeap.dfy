/** The top-k heap of scored documents, the worst kept hit at the root (index/search/wand.go). */
module TopHeap {
  import opened Heaps
  import opened Ranking
  import opened Sorting

  datatype Hit = Hit(doc: nat, score: real)

  predicate Better(a: Hit, b: Hit)
  {
    if a.score != b.score then a.score > b.score else a.doc < b.doc
  }

  lemma BetterIsTotal()
    ensures StrictTotal(Better)
  {
  }

  // ----- what the top k is, in scores and documents

  /** h comes before g: by score, and by document among equals. */
  ghost predicate Precedes(h: Hit, g: Hit)
  {
    h.score > g.score || (h.score == g.score && h.doc < g.doc)
  }

  /** hits are k of all, or all of them, in order, and no other comes before one of them. */
  ghost predicate Leads(hits: seq<Hit>, all: set<Hit>, k: int)
  {
    && (forall i, j :: 0 <= i < j < |hits| ==> Precedes(hits[i], hits[j]))
    && (forall i :: 0 <= i < |hits| ==> hits[i] in all)
    && |hits| == (if k <= 0 then 0 else if k < |all| then k else |all|)
    && (k > 0 ==> forall h :: h in all && h !in hits ==> LeadsOne(hits, h))
  }

  ghost predicate LeadsOne(hits: seq<Hit>, h: Hit)
  {
    forall i :: 0 <= i < |hits| ==> Precedes(hits[i], h)
  }

  lemma TopKLeads(all: set<Hit>, k: int)
    ensures StrictTotal(Better) && Leads(TopK(all, k, Better), all, k)
  {
    BetterIsTotal();
    var r, hits := Rank(all, Better), TopK(all, k, Better);
    RankSorts(all, Better);
    forall i, j | 0 <= i < j < |r| ensures Precedes(r[i], r[j]) {
      assert Better(r[i], r[j]);
    }
    assert forall i :: 0 <= i < |hits| ==> hits[i] == r[i];
    forall i | 0 <= i < |hits| ensures hits[i] in all {
      assert r[i] in Elements(r);
    }
    forall h | h in all && h !in hits && k > 0 ensures LeadsOne(hits, h) {
      assert h in Elements(r);
      var j :| 0 <= j < |r| && r[j] == h;
    }
  }

  /** The heap's order: the worst hit is least. */
  predicate Worse(a: Hit, b: Hit)
  {
    Better(b, a)
  }

  lemma WorseIsWeakOrder()
    ensures WeakOrder(Worse)
  {
  }

  method PushHit(h: seq<Hit>, hit: Hit) returns (h': seq<Hit>)
    requires IsHeap(h, Worse)
    ensures IsHeap(h', Worse) && multiset(h') == multiset(h) + multiset{hit}
  {
    WorseIsWeakOrder();
    h' := Push(h, hit, Worse);
  }

  method PopHit(h: seq<Hit>) returns (x: Hit, h': seq<Hit>)
    requires IsHeap(h, Worse) && |h| > 0
    ensures IsHeap(h', Worse) && x == h[0] && multiset(h') + multiset{x} == multiset(h) && |h'| + 1 == |h|
  {
    WorseIsWeakOrder();
    x, h' := Pop(h, Worse);
    assert |multiset(h')| + 1 == |multiset(h)|;
  }

  lemma ReplaceHit(top: set<Hit>, seen: set<Hit>, k: nat, hit: Hit, worst: Hit)
    requires IsTopSet(top, seen, k, Better) && hit !in seen && |top| == k
    requires worst in top && forall y :: y in top && y != worst ==> Better(y, worst)
    ensures IsTopSet(if Better(hit, worst) then top - {worst} + {hit} else top, seen + {hit}, k, Better)
  {
    BetterIsTotal();
    TopSetReplace(top, seen, k, hit, worst, Better);
  }

  /** The threshold that goes with the heap. */
  ghost predicate Sets(h: seq<Hit>, threshold: real, k: nat)
  {
    k > 0 && threshold == if |h| == k then h[0].score else 0.0
  }

  /** Inserts hit, evicting the worst kept hit when it is outranked, and returns the new threshold. */
  method PushTop(h: seq<Hit>, hit: Hit, k: nat, threshold: real, ghost top: set<Hit>, ghost seen: set<Hit>)
    returns (h': seq<Hit>, threshold': real, ghost top': set<Hit>)
    requires k > 0 && IsHeap(h, Worse) && multiset(h) == multiset(top) && IsTopSet(top, seen, k, Better)
    requires hit !in seen && (|top| < k ==> threshold == 0.0) && hit.score >= 0.0
    requires forall x :: x in top ==> x.score >= threshold
    ensures IsHeap(h', Worse) && multiset(h') == multiset(top') && IsTopSet(top', seen + {hit}, k, Better)
    ensures threshold' >= threshold && (|top'| < k ==> threshold' == 0.0)
    ensures top' <= top + {hit} && forall x :: x in top' ==> x.score >= threshold'
    ensures Sets(h', threshold', k)
  {
    h', top' := PlaceHit(h, hit, k, top, seen);
    MultisetSize(h, top);
    MultisetSize(h', top');
    threshold' := threshold;
    if |h'| == k {
      RootIsWorst(h', top');
      ThresholdRises(top, top', hit, threshold, h'[0]);
      threshold' := h'[0].score;
    }
  }

  method PlaceHit(h: seq<Hit>, hit: Hit, k: nat, ghost top: set<Hit>, ghost seen: set<Hit>)
    returns (h': seq<Hit>, ghost top': set<Hit>)
    requires k > 0 && IsHeap(h, Worse) && multiset(h) == multiset(top) && IsTopSet(top, seen, k, Better)
    requires hit !in seen
    ensures IsHeap(h', Worse) && multiset(h') == multiset(top') && IsTopSet(top', seen + {hit}, k, Better)
    ensures top' <= top + {hit} && |top'| >= |top|
    ensures |top| == k && hit in top' ==> exists w :: w in top && Better(hit, w)
  {
    MultisetSize(h, top);
    if |h| < k {
      TopSetGrow(top, seen, k, hit, Better);
      top' := top + {hit};
      h' := PushHit(h, hit);
      assert multiset(top + {hit}) == multiset(top) + multiset{hit};
    } else {
      RootIsWorst(h, top);
      ReplaceHit(top, seen, k, hit, h[0]);
      if Better(hit, h[0]) {
        var x, rest := PopHit(h);
        h' := PushHit(rest, hit);
        top' := top - {h[0]} + {hit};
        ReplaceMultiset(h, rest, top, h[0], hit);
      } else {
        h', top' := h, top;
      }
    }
  }

  lemma ReplaceMultiset(h: seq<Hit>, rest: seq<Hit>, top: set<Hit>, w: Hit, hit: Hit)
    requires multiset(h) == multiset(top) && multiset(rest) + multiset{w} == multiset(h)
    requires w in top && hit !in top
    ensures multiset(rest) + multiset{hit} == multiset(top - {w} + {hit}) && |top - {w} + {hit}| == |top|
  {
    assert multiset(rest) == multiset(h) - multiset{w};
    assert multiset(top - {w}) == multiset(top) - multiset{w};
    assert multiset(top - {w} + {hit}) == multiset(top - {w}) + multiset{hit};
  }

  /** A full heap's worst score is at least the old threshold. */
  lemma ThresholdRises(top: set<Hit>, top': set<Hit>, hit: Hit, threshold: real, worst: Hit)
    requires top' <= top + {hit} && worst in top' && forall y :: y in top' && y != worst ==> Better(y, worst)
    requires forall x :: x in top ==> x.score >= threshold
    requires hit in top' ==> hit.score >= threshold || exists w :: w in top && Better(hit, w)
    ensures worst.score >= threshold && forall x :: x in top' ==> x.score >= worst.score
  {
  }

  lemma MultisetSize(h: seq<Hit>, top: set<Hit>)
    requires multiset(h) == multiset(top)
    ensures |h| == |top|
  {
    assert |multiset(h)| == |h|;
    assert |multiset(top)| == |top|;
  }

  lemma RootIsWorst(h: seq<Hit>, top: set<Hit>)
    requires IsHeap(h, Worse) && multiset(h) == multiset(top) && |h| > 0
    ensures h[0] in top && forall y :: y in top && y != h[0] ==> Better(y, h[0])
  {
    assert h[0] in multiset(h);
    WorseIsWeakOrder();
    forall y | y in top && y != h[0] ensures Better(y, h[0]) {
      assert y in multiset(h);
      var i :| 0 <= i < |h| && h[i] == y;
      RootIsLeast(h, Worse, i);
    }
  }

  /** The same insertion of a hit that may be there already. */
  method PushAgain(h: seq<Hit>, hit: Hit, k: nat, threshold: real) returns (h': seq<Hit>, threshold': real, pushed: bool)
    requires k > 0 && IsHeap(h, Worse) && |h| <= k
    ensures IsHeap(h', Worse) && |h'| <= k && threshold' == if |h'| == k then h'[0].score else threshold
    ensures pushed <==> |h| < k || Better(hit, h[0])
    ensures !pushed ==> h' == h
    ensures pushed ==> multiset(h') == (if |h| < k then multiset(h) else multiset(h) - multiset{h[0]}) + multiset{hit}
  {
    h', pushed := h, |h| < k || Better(hit, h[0]);
    if |h| < k {
      h' := PushHit(h, hit);
    } else if Better(hit, h[0]) {
      var x, rest := PopHit(h);
      h' := PushHit(rest, hit);
      assert multiset(rest) == multiset(h) - multiset{h[0]};
    }
    assert |multiset(h')| == |h'| && |multiset(h)| == |h|;
    threshold' := if |h'| == k then h'[0].score else threshold;
  }

  lemma RootIsLow(h: seq<Hit>)
    requires IsHeap(h, Worse) && |h| > 0
    ensures h[0] in multiset(h) && forall y :: y in multiset(h) ==> !Better(h[0], y)
  {
    WorseIsWeakOrder();
    forall y | y in multiset(h) ensures !Better(h[0], y) {
      var i :| 0 <= i < |h| && h[i] == y;
      RootIsLeast(h, Worse, i);
    }
  }

  /** Empties the heap and sorts what it held. */
  method Drain(h0: seq<Hit>, ghost top: set<Hit>) returns (out: seq<Hit>)
    requires IsHeap(h0, Worse) && multiset(h0) == multiset(top)
    ensures StrictTotal(Better) && out == Rank(top, Better)
  {
    out := DrainAll(h0);
    DistinctSorted(out, top);
  }

  method DrainAll(h0: seq<Hit>) returns (out: seq<Hit>)
    requires IsHeap(h0, Worse)
    ensures InOrder(out, Better) && multiset(out) == multiset(h0)
  {
    var h, popped := h0, [];
    while |h| > 0
      invariant IsHeap(h, Worse) && multiset(h) + multiset(popped) == multiset(h0)
      decreases |h|
    {
      var x, rest := PopHit(h);
      h, popped := rest, popped + [x];
    }
    out := SortHits(popped);
  }

  method SortHits(s: seq<Hit>) returns (out: seq<Hit>)
    ensures InOrder(out, Better) && multiset(out) == multiset(s)
  {
    assert WeakOrder(Better);
    out := SortBy(s, Better);
  }

  lemma DistinctSorted(out: seq<Hit>, top: set<Hit>)
    requires InOrder(out, Better) && multiset(out) == multiset(top)
    ensures StrictTotal(Better) && out == Rank(top, Better)
  {
    BetterIsTotal();
    SortedListingIsRank(out, top, Better);
  }
}
