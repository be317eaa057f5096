/** What Block-Max WAND must return and why skipping is safe, on values (index/search/wand.go). */
module WandSpec {
  import opened Bits
  import opened Heaps
  import opened Postings
  import opened Ranking
  import opened Sums
  import opened TopHeap

  const MAX_DOC: nat := 0xFFFF_FFFF

  /** `d + 1` on a uint32. */
  function Inc32(d: uint32): uint32
  {
    if d < MAX_DOC then d + 1 else 0
  }

  /** A term frequency's contribution, and a bound on it from a block's or list's largest one. */
  datatype Scorer = Scorer(score: nat -> real, maxScore: nat -> real)

  /** The seam's contract: scores are not negative and the bound covers every smaller frequency. */
  ghost predicate Sound(s: Scorer)
  {
    forall f: nat, m: nat :: f <= m ==> 0.0 <= s.score(f) <= s.maxScore(m)
  }

  datatype Term = Term(ps: seq<Posting>, scorer: Scorer, bound: real)

  ghost predicate TermOk(t: Term)
  {
    && Ascending(t.ps)
    && Sound(t.scorer)
    && t.bound >= 0.0
    && forall k :: 0 <= k < |t.ps| ==> t.scorer.score(t.ps[k].freq) <= t.bound
  }

  ghost predicate TermsOk(terms: seq<Term>)
  {
    forall i {:trigger TermOk(terms[i])} :: 0 <= i < |terms| ==> TermOk(terms[i])
  }

  // ----- exhaustive scoring

  ghost function IndexOf(t: Term, d: nat): nat
  {
    FirstGEQ(t.ps, 0, d)
  }

  ghost predicate Has(t: Term, d: nat)
  {
    IndexOf(t, d) < |t.ps| && t.ps[IndexOf(t, d)].doc == d
  }

  ghost function Contribution(t: Term, d: nat): real
  {
    if Has(t, d) then t.scorer.score(t.ps[IndexOf(t, d)].freq) else 0.0
  }

  ghost function Contributions(terms: seq<Term>, d: nat): (xs: seq<real>)
    ensures |xs| == |terms|
  {
    seq(|terms|, i requires 0 <= i < |terms| => Contribution(terms[i], d))
  }

  ghost function Bounds(terms: seq<Term>): (xs: seq<real>)
    ensures |xs| == |terms|
  {
    seq(|terms|, i requires 0 <= i < |terms| => terms[i].bound)
  }

  ghost function DocScore(terms: seq<Term>, d: nat): real
  {
    Sum(Contributions(terms, d))
  }

  /** Every document of the disjunction. */
  ghost function AllDocs(terms: seq<Term>): set<nat>
  {
    set i, j | 0 <= i < |terms| && 0 <= j < |terms[i].ps| :: terms[i].ps[j].doc
  }

  /** The documents of the terms whose bound is positive. */
  ghost function PositiveDocs(terms: seq<Term>): set<nat>
  {
    set i, j | 0 <= i < |terms| && terms[i].bound > 0.0 && 0 <= j < |terms[i].ps| :: terms[i].ps[j].doc
  }

  ghost function Hits(terms: seq<Term>, docs: set<nat>): set<Hit>
  {
    set d | d in docs :: Hit(d, DocScore(terms, d))
  }

  ghost function HitsBelow(terms: seq<Term>, f: nat): set<Hit>
  {
    set d | d in PositiveDocs(terms) && d < f :: Hit(d, DocScore(terms, d))
  }

  lemma {:induction false} HitsSize(terms: seq<Term>, docs: set<nat>)
    ensures |Hits(terms, docs)| == |docs|
    decreases |docs|
  {
    if docs == {} {
      assert Hits(terms, docs) == {};
    } else {
      var d :| d in docs;
      HitsSize(terms, docs - {d});
      assert Hits(terms, docs) == Hits(terms, docs - {d}) + {Hit(d, DocScore(terms, d))};
    }
  }

  // ----- sums

  ghost function Masked(xs: seq<real>, s: set<nat>): (ys: seq<real>)
    ensures |ys| == |xs|
  {
    seq(|xs|, i requires 0 <= i < |xs| => if i in s then xs[i] else 0.0)
  }

  /** The sum a loop over `order` computes. */
  ghost function SumOver(xs: seq<real>, order: seq<nat>): real
    requires forall j :: 0 <= j < |order| ==> order[j] < |xs|
  {
    if order == [] then 0.0 else SumOver(xs, order[..|order| - 1]) + xs[order[|order| - 1]]
  }

  ghost predicate Distinct(order: seq<nat>)
  {
    forall i, j :: 0 <= i < j < |order| ==> order[i] != order[j]
  }

  lemma {:induction false} SumOverIsMasked(xs: seq<real>, order: seq<nat>)
    requires Distinct(order) && forall j :: 0 <= j < |order| ==> order[j] < |xs|
    ensures SumOver(xs, order) == Sum(Masked(xs, Elements(order)))
  {
    if order == [] {
      SumZero(Masked(xs, Elements(order)));
    } else {
      var n := |order| - 1;
      var before, x := order[..n], order[n];
      SumOverIsMasked(xs, before);
      assert x !in Elements(before);
      assert forall y :: y in Elements(order) <==> y == x || y in Elements(before);
      SumBump(Masked(xs, Elements(before)), Masked(xs, Elements(order)), x);
    }
  }

  // ----- documents and positions

  lemma HasAt(t: Term, k: nat)
    requires TermOk(t) && k < |t.ps|
    ensures IndexOf(t, t.ps[k].doc) == k && Has(t, t.ps[k].doc)
  {
    FirstGEQIs(t.ps, 0, t.ps[k].doc, k);
  }

  /** The cursor at p has gone past document d. */
  ghost predicate Passed(t: Term, p: nat, d: nat)
  {
    Has(t, d) && IndexOf(t, d) < p
  }

  /** A document not passed is at or after the current one. */
  lemma NotPassed(t: Term, p: nat, d: nat)
    requires TermOk(t) && Has(t, d) && !Passed(t, p, d) && p <= |t.ps|
    ensures p < |t.ps| && t.ps[p].doc <= d
  {
    var k := IndexOf(t, d);
    if p < k { assert t.ps[p].doc < t.ps[k].doc; }
  }

  ghost function WithDoc(terms: seq<Term>, d: nat): set<nat>
  {
    set i | 0 <= i < |terms| && Has(terms[i], d)
  }

  /** No document scores above the bounds of the terms that hold it. */
  ghost function UpperBound(terms: seq<Term>, d: nat): real
  {
    Sum(Masked(Bounds(terms), WithDoc(terms, d)))
  }

  lemma ScoreAtMostBound(terms: seq<Term>, d: nat)
    requires TermsOk(terms)
    ensures DocScore(terms, d) <= UpperBound(terms, d)
  {
    var xs, ys := Contributions(terms, d), Masked(Bounds(terms), WithDoc(terms, d));
    forall i | 0 <= i < |xs| ensures xs[i] <= ys[i] {
      assert TermOk(terms[i]);
    }
    SumMono(xs, ys);
  }

  lemma BoundWithin(terms: seq<Term>, d: nat, s: set<nat>)
    requires TermsOk(terms) && WithDoc(terms, d) <= s
    ensures UpperBound(terms, d) <= Sum(Masked(Bounds(terms), s))
  {
    var xs, ys := Masked(Bounds(terms), WithDoc(terms, d)), Masked(Bounds(terms), s);
    forall i | 0 <= i < |xs| ensures xs[i] <= ys[i] {
      assert TermOk(terms[i]);
    }
    SumMono(xs, ys);
  }

  /** A document whose bound is zero is in no term with a positive bound. */
  lemma PositiveBound(terms: seq<Term>, d: nat)
    requires TermsOk(terms) && d in PositiveDocs(terms)
    ensures UpperBound(terms, d) > 0.0
  {
    var i, j :| 0 <= i < |terms| && terms[i].bound > 0.0 && 0 <= j < |terms[i].ps| && terms[i].ps[j].doc == d;
    assert TermOk(terms[i]);
    HasAt(terms[i], j);
    var ys := Masked(Bounds(terms), WithDoc(terms, d));
    var xs := ys[i := 0.0];
    SumBump(xs, ys, i);
    forall m | 0 <= m < |xs| ensures xs[m] >= 0.0 {
      assert TermOk(terms[m]);
    }
    SumNonNegative(xs);
  }

  // ----- the invariant of the scan

  /** Where the scan stands: a position in each list, the documents below `frontier` decided, the
      current threshold and the hits kept. */
  datatype Scan = Scan(pos: seq<nat>, frontier: nat, threshold: real, top: set<Hit>)

  ghost predicate Positions(terms: seq<Term>, st: Scan)
  {
    && |st.pos| == |terms|
    && forall i :: 0 <= i < |terms| ==>
         && st.pos[i] <= |terms[i].ps|
         && (st.pos[i] < |terms[i].ps| ==> terms[i].ps[st.pos[i]].doc >= st.frontier)
  }

  /** A document passed in some list but not yet decided can no longer beat the threshold. */
  ghost predicate PassedAreDead(terms: seq<Term>, st: Scan)
    requires |st.pos| == |terms|
  {
    forall i, d: nat :: 0 <= i < |terms| && Passed(terms[i], st.pos[i], d) && d >= st.frontier ==>
      UpperBound(terms, d) <= st.threshold
  }

  /** The hits kept are the best k below the frontier; the threshold is 0 until there are k. */
  ghost predicate TopOk(terms: seq<Term>, k: nat, st: Scan)
  {
    && IsTopSet(st.top, HitsBelow(terms, st.frontier), k, Better)
    && st.threshold >= 0.0
    && (|st.top| < k ==> st.threshold == 0.0)
    && forall h :: h in st.top ==> h.score >= st.threshold && h.doc < st.frontier
  }

  ghost predicate Inv(terms: seq<Term>, k: nat, st: Scan)
  {
    TermsOk(terms) && Positions(terms, st) && PassedAreDead(terms, st) && TopOk(terms, k, st)
  }

  lemma InvInit(terms: seq<Term>, k: nat)
    requires TermsOk(terms)
    ensures Inv(terms, k, Scan(seq(|terms|, i => 0), 0, 0.0, {}))
  {
    assert HitsBelow(terms, 0) == {};
  }

  /** A document whose upper bound is at most the threshold cannot enter the top k. */
  lemma DeadDoc(terms: seq<Term>, k: nat, st: Scan, d: nat)
    requires TermsOk(terms) && TopOk(terms, k, st) && d in PositiveDocs(terms)
    requires UpperBound(terms, d) <= st.threshold
    ensures |st.top| == k && DocScore(terms, d) <= st.threshold
  {
    PositiveBound(terms, d);
    ScoreAtMostBound(terms, d);
    HitsBelowSize(terms, k, st);
  }

  lemma HitsBelowSize(terms: seq<Term>, k: nat, st: Scan)
    requires TopOk(terms, k, st)
    ensures |st.top| <= k
  {
  }

  /** Skipping documents that cannot beat the threshold leaves the top k right. */
  lemma SkipTo(terms: seq<Term>, k: nat, st: Scan, f: nat)
    requires TopOk(terms, k, st) && st.frontier <= f
    requires forall d :: d in PositiveDocs(terms) && st.frontier <= d < f ==>
               |st.top| == k && DocScore(terms, d) <= st.threshold
    ensures TopOk(terms, k, st.(frontier := f))
  {
    var s, s' := HitsBelow(terms, st.frontier), HitsBelow(terms, f);
    forall x, y | x in st.top && y in s' && y !in s
      ensures Better(x, y)
    {
      assert y.doc >= st.frontier;
    }
    if s != s' {
      assert s <= s';
      var y :| y in s' && y !in s;
      assert st.frontier <= y.doc < f;
    }
    TopSetSkip(st.top, s, s', k, Better);
  }

  /** Documents below every current document are decided. */
  lemma SkipBelow(terms: seq<Term>, k: nat, st: Scan, f: nat)
    requires Inv(terms, k, st) && st.frontier <= f
    requires forall i :: 0 <= i < |terms| && st.pos[i] < |terms[i].ps| ==> terms[i].ps[st.pos[i]].doc >= f
    ensures TopOk(terms, k, st.(frontier := f))
  {
    forall d | d in PositiveDocs(terms) && st.frontier <= d < f
      ensures |st.top| == k && DocScore(terms, d) <= st.threshold
    {
      var i, j :| 0 <= i < |terms| && terms[i].bound > 0.0 && 0 <= j < |terms[i].ps| && terms[i].ps[j].doc == d;
      assert TermOk(terms[i]);
      HasAt(terms[i], j);
      if !Passed(terms[i], st.pos[i], d) { NotPassed(terms[i], st.pos[i], d); }
      DeadDoc(terms, k, st, d);
    }
    SkipTo(terms, k, st, f);
  }

  /** Every term holding d that has not passed it is in s. */
  ghost predicate Covers(terms: seq<Term>, st: Scan, d: nat, s: set<nat>)
    requires |st.pos| == |terms|
  {
    forall i :: 0 <= i < |terms| && st.pos[i] < |terms[i].ps| && terms[i].ps[st.pos[i]].doc <= d ==> i in s
  }

  /** A document reachable only through terms whose bounds sum to at most the threshold is dead. */
  lemma CoveredIsDead(terms: seq<Term>, k: nat, st: Scan, d: nat, s: set<nat>)
    requires Inv(terms, k, st) && d >= st.frontier && Covers(terms, st, d, s)
    requires Sum(Masked(Bounds(terms), s)) <= st.threshold
    ensures UpperBound(terms, d) <= st.threshold
  {
    if i :| 0 <= i < |terms| && Passed(terms[i], st.pos[i], d) {
      assert UpperBound(terms, d) <= st.threshold;
    } else {
      forall i | i in WithDoc(terms, d) ensures i in s {
        assert TermOk(terms[i]);
        NotPassed(terms[i], st.pos[i], d);
      }
      BoundWithin(terms, d, s);
    }
  }

  ghost predicate InRange(terms: seq<Term>, pos: seq<nat>)
  {
    |pos| == |terms| && forall i :: 0 <= i < |terms| ==> pos[i] <= |terms[i].ps|
  }

  /** order lists the terms with postings left, by ascending current document. */
  ghost predicate Ordered(terms: seq<Term>, pos: seq<nat>, order: seq<nat>)
  {
    && Live(terms, pos, order)
    && (forall i :: 0 <= i < |terms| && pos[i] < |terms[i].ps| ==> i in order)
    && (forall a, b :: 0 <= a < b < |order| ==> CurDoc(terms, pos, order, a) <= CurDoc(terms, pos, order, b))
  }

  ghost predicate Live(terms: seq<Term>, pos: seq<nat>, order: seq<nat>)
  {
    && |pos| == |terms|
    && forall j :: 0 <= j < |order| ==> order[j] < |terms| && pos[order[j]] < |terms[order[j]].ps|
  }

  /** The current document of the j-th term of order. */
  ghost function CurDoc(terms: seq<Term>, pos: seq<nat>, order: seq<nat>, j: nat): nat
    requires Live(terms, pos, order) && j < |order|
  {
    terms[order[j]].ps[pos[order[j]]].doc
  }

  /** The first n terms of order are at or below d, the others past it. */
  ghost predicate SplitsAt(terms: seq<Term>, pos: seq<nat>, order: seq<nat>, d: nat, n: nat)
    requires Live(terms, pos, order)
  {
    && n <= |order|
    && (forall j :: 0 <= j < n ==> CurDoc(terms, pos, order, j) <= d)
    && (forall j :: n <= j < |order| ==> CurDoc(terms, pos, order, j) > d)
  }

  lemma PrefixCovers(terms: seq<Term>, st: Scan, order: seq<nat>, d: nat, n: nat)
    requires Ordered(terms, st.pos, order) && n <= |order|
    requires forall j :: n <= j < |order| ==> CurDoc(terms, st.pos, order, j) > d
    ensures Covers(terms, st, d, Elements(order[..n]))
  {
    forall i | 0 <= i < |terms| && st.pos[i] < |terms[i].ps| && terms[i].ps[st.pos[i]].doc <= d
      ensures i in order[..n]
    {
      var j :| 0 <= j < |order| && order[j] == i;
      assert CurDoc(terms, st.pos, order, j) <= d;
      assert order[..n][j] == i;
    }
  }

  lemma CoversBelow(terms: seq<Term>, st: Scan, order: seq<nat>, target: nat, n: nat)
    requires Ordered(terms, st.pos, order) && n <= |order|
    requires n < |order| ==> target <= CurDoc(terms, st.pos, order, n)
    ensures forall e: nat :: e < target ==> Covers(terms, st, e, Elements(order[..n]))
  {
    forall e: nat | e < target ensures Covers(terms, st, e, Elements(order[..n])) {
      forall j | n <= j < |order| ensures CurDoc(terms, st.pos, order, j) > e {
        assert CurDoc(terms, st.pos, order, n) <= CurDoc(terms, st.pos, order, j);
      }
      PrefixCovers(terms, st, order, e, n);
    }
  }

  lemma PrefixIsSitting(terms: seq<Term>, pos: seq<nat>, order: seq<nat>, d: nat, n: nat)
    requires Ordered(terms, pos, order) && SplitsAt(terms, pos, order, d, n)
    requires |order| > 0 && CurDoc(terms, pos, order, 0) >= d
    ensures Elements(order[..n]) == Sitting(terms, pos, d)
    ensures forall i :: 0 <= i < |terms| && pos[i] < |terms[i].ps| ==> terms[i].ps[pos[i]].doc >= d
  {
    forall i | 0 <= i < |terms|
      ensures i in order[..n] <==> i in Sitting(terms, pos, d)
      ensures pos[i] < |terms[i].ps| ==> terms[i].ps[pos[i]].doc >= d
    {
      if i in order {
        var j :| 0 <= j < |order| && order[j] == i;
        assert CurDoc(terms, pos, order, 0) <= CurDoc(terms, pos, order, j);
        if j < n {
          assert order[..n][j] == i;
        }
        assert forall m :: 0 <= m < n && order[m] == i ==> CurDoc(terms, pos, order, m) == CurDoc(terms, pos, order, j);
      }
    }
  }

  /** Summing over the live terms misses no term that sits on d. */
  lemma LiveSum(terms: seq<Term>, pos: seq<nat>, order: seq<nat>, d: nat, ys: seq<real>)
    requires Ordered(terms, pos, order) && Distinct(order)
    requires ys == Masked(Contributions(terms, d), Sitting(terms, pos, d))
    ensures SumOver(ys, order) == Sum(ys)
  {
    SumOverIsMasked(ys, order);
    assert Masked(ys, Elements(order)) == ys;
  }

  // ----- the steps

  /** No pivot: when the live bounds sum to at most the threshold the scan is over. */
  lemma StopIsExact(terms: seq<Term>, k: nat, st: Scan, live: set<nat>)
    requires Inv(terms, k, st)
    requires forall i :: 0 <= i < |terms| && st.pos[i] < |terms[i].ps| ==> i in live
    requires Sum(Masked(Bounds(terms), live)) <= st.threshold
    ensures IsTopSet(st.top, Hits(terms, PositiveDocs(terms)), k, Better)
  {
    var f := if st.frontier <= MAX_DOC then MAX_DOC + 1 else st.frontier;
    forall d | d in PositiveDocs(terms) && st.frontier <= d < f
      ensures |st.top| == k && DocScore(terms, d) <= st.threshold
    {
      CoveredIsDead(terms, k, st, d, live);
      DeadDoc(terms, k, st, d);
    }
    SkipTo(terms, k, st, f);
    forall d | d in PositiveDocs(terms) ensures d < f {
      var i, j :| 0 <= i < |terms| && 0 <= j < |terms[i].ps| && terms[i].ps[j].doc == d;
      assert TermOk(terms[i]);
    }
    assert Hits(terms, PositiveDocs(terms)) == HitsBelow(terms, f);
  }

  ghost function Sitting(terms: seq<Term>, pos: seq<nat>, d: nat): set<nat>
    requires |pos| == |terms|
  {
    set i | 0 <= i < |terms| && pos[i] < |terms[i].ps| && terms[i].ps[pos[i]].doc == d
  }

  /** The pivot at the front: its score is read off the terms sitting on it, and nothing below it
      matters any more. */
  lemma PivotIsExact(terms: seq<Term>, k: nat, st: Scan, d: nat, s: set<nat>)
    requires Inv(terms, k, st)
    requires forall i :: 0 <= i < |terms| && st.pos[i] < |terms[i].ps| ==> terms[i].ps[st.pos[i]].doc >= d
    requires s <= Sitting(terms, st.pos, d) && s != {} && Sum(Masked(Bounds(terms), s)) > st.threshold
    ensures d in PositiveDocs(terms) && st.frontier <= d
    ensures DocScore(terms, d) == Sum(Masked(Contributions(terms, d), Sitting(terms, st.pos, d)))
    ensures TopOk(terms, k, st.(frontier := d))
    ensures HitsBelow(terms, d + 1) == HitsBelow(terms, d) + {Hit(d, DocScore(terms, d))}
    ensures Hit(d, DocScore(terms, d)) !in HitsBelow(terms, d)
  {
    PivotUnpassed(terms, k, st, d, s);
    SkipBelow(terms, k, st, d);
    SittingScores(terms, st.pos, d);
    NextHit(terms, d);
  }

  /** A document whose sitting terms alone beat the threshold has been passed by no list. */
  lemma PivotUnpassed(terms: seq<Term>, k: nat, st: Scan, d: nat, s: set<nat>)
    requires Inv(terms, k, st) && s <= Sitting(terms, st.pos, d) && s != {}
    requires Sum(Masked(Bounds(terms), s)) > st.threshold
    ensures st.frontier <= d && d in PositiveDocs(terms)
    ensures forall i :: 0 <= i < |terms| ==> !Passed(terms[i], st.pos[i], d)
  {
    var i0 :| i0 in s;
    assert st.frontier <= d;
    SittingHas(terms, st.pos, d);
    assert UpperBound(terms, d) > st.threshold by {
      assert s <= WithDoc(terms, d);
      SubsetSum(terms, s, WithDoc(terms, d));
    }
    PositiveMember(terms, s, d);
  }

  lemma SittingHas(terms: seq<Term>, pos: seq<nat>, d: nat)
    requires TermsOk(terms) && |pos| == |terms|
    ensures forall i :: i in Sitting(terms, pos, d) ==> Has(terms[i], d) && IndexOf(terms[i], d) == pos[i]
  {
    forall i | i in Sitting(terms, pos, d) ensures Has(terms[i], d) && IndexOf(terms[i], d) == pos[i] {
      assert TermOk(terms[i]);
      HasAt(terms[i], pos[i]);
    }
  }

  /** When no list has passed d and none is behind it, the terms sitting on d are all its terms. */
  lemma SittingScores(terms: seq<Term>, pos: seq<nat>, d: nat)
    requires TermsOk(terms) && |pos| == |terms|
    requires forall i :: 0 <= i < |terms| ==> pos[i] <= |terms[i].ps| && !Passed(terms[i], pos[i], d)
    requires forall i :: 0 <= i < |terms| && pos[i] < |terms[i].ps| ==> terms[i].ps[pos[i]].doc >= d
    ensures DocScore(terms, d) == Sum(Masked(Contributions(terms, d), Sitting(terms, pos, d)))
  {
    var sit, xs := Sitting(terms, pos, d), Contributions(terms, d);
    forall i | 0 <= i < |terms| ensures xs[i] == Masked(xs, sit)[i] {
      assert TermOk(terms[i]);
      if Has(terms[i], d) { NotPassed(terms[i], pos[i], d); }
    }
    assert xs == Masked(xs, sit);
  }

  lemma SittingIsWithDoc(terms: seq<Term>, pos: seq<nat>, d: nat)
    requires TermsOk(terms) && |pos| == |terms|
    requires forall i :: 0 <= i < |terms| ==> pos[i] <= |terms[i].ps| && !Passed(terms[i], pos[i], d)
    requires forall i :: 0 <= i < |terms| && pos[i] < |terms[i].ps| ==> terms[i].ps[pos[i]].doc >= d
    ensures Sitting(terms, pos, d) == WithDoc(terms, d)
  {
    SittingHas(terms, pos, d);
    forall i | i in WithDoc(terms, d) ensures i in Sitting(terms, pos, d) {
      assert TermOk(terms[i]);
      NotPassed(terms[i], pos[i], d);
    }
  }

  lemma NextHit(terms: seq<Term>, d: nat)
    requires d in PositiveDocs(terms)
    ensures HitsBelow(terms, d + 1) == HitsBelow(terms, d) + {Hit(d, DocScore(terms, d))}
    ensures Hit(d, DocScore(terms, d)) !in HitsBelow(terms, d)
  {
    var h := Hit(d, DocScore(terms, d));
    forall x | x in HitsBelow(terms, d + 1) ensures x in HitsBelow(terms, d) || x == h {
      var e :| e in PositiveDocs(terms) && e < d + 1 && x == Hit(e, DocScore(terms, e));
    }
  }

  lemma SubsetSum(terms: seq<Term>, s: set<nat>, s': set<nat>)
    requires TermsOk(terms) && s <= s'
    ensures Sum(Masked(Bounds(terms), s)) <= Sum(Masked(Bounds(terms), s'))
  {
    var xs, ys := Masked(Bounds(terms), s), Masked(Bounds(terms), s');
    forall i | 0 <= i < |xs| ensures xs[i] <= ys[i] {
      assert TermOk(terms[i]);
    }
    SumMono(xs, ys);
  }

  lemma PositiveMember(terms: seq<Term>, s: set<nat>, d: nat)
    requires TermsOk(terms) && Sum(Masked(Bounds(terms), s)) > 0.0
    requires forall i :: i in s ==> i < |terms| && Has(terms[i], d)
    ensures d in PositiveDocs(terms)
  {
    if i :| i in s && terms[i].bound > 0.0 {
      assert terms[i].ps[IndexOf(terms[i], d)].doc == d;
    } else {
      forall i | 0 <= i < |terms| ensures Masked(Bounds(terms), s)[i] == 0.0 {
        assert TermOk(terms[i]);
      }
      SumZero(Masked(Bounds(terms), s));
    }
  }

  /** The positions after every term below `target` in s advances to it. */
  ghost function Advanced(terms: seq<Term>, pos: seq<nat>, s: set<nat>, target: nat): (r: seq<nat>)
    requires |pos| == |terms| && forall i :: 0 <= i < |terms| ==> pos[i] <= |terms[i].ps|
    ensures |r| == |pos|
  {
    seq(|pos|, i requires 0 <= i < |pos| => if i in s then FirstGEQ(terms[i].ps, pos[i], target) else pos[i])
  }

  /** Advancing to target passes only documents before target. */
  lemma AdvancePasses(t: Term, p: nat, target: nat, d: nat)
    requires TermOk(t) && p <= |t.ps| && Passed(t, FirstGEQ(t.ps, p, target), d)
    ensures Passed(t, p, d) || d < target
  {
  }

  /** Moving every list that is below target up to it decides nothing at or past target. */
  lemma AdvanceKeeps(terms: seq<Term>, st: Scan, s: set<nat>, target: nat, st': Scan)
    requires TermsOk(terms) && Positions(terms, st) && PassedAreDead(terms, st)
    requires forall i :: 0 <= i < |terms| && st.pos[i] < |terms[i].ps| && terms[i].ps[st.pos[i]].doc < target ==> i in s
    requires st'.pos == Advanced(terms, st.pos, s, target) && st'.frontier == target >= st.frontier
    requires st'.threshold >= st.threshold
    ensures Positions(terms, st') && PassedAreDead(terms, st')
  {
    forall i, e: nat | 0 <= i < |terms| && Passed(terms[i], st'.pos[i], e) && e >= target
      ensures UpperBound(terms, e) <= st'.threshold
    {
      assert TermOk(terms[i]);
      assert Passed(terms[i], st.pos[i], e) by {
        if i in s { AdvancePasses(terms[i], st.pos[i], target, e); }
      }
    }
  }

  /** After a hit is pushed and its terms move past it. */
  lemma PushKeepsInv(terms: seq<Term>, k: nat, st: Scan, d: nat, threshold: real, top: set<Hit>)
    requires Inv(terms, k, st)
    requires forall i :: 0 <= i < |terms| && st.pos[i] < |terms[i].ps| ==> terms[i].ps[st.pos[i]].doc >= d
    requires st.frontier <= d && threshold >= st.threshold
    requires TopOk(terms, k, Scan(st.pos, d + 1, threshold, top))
    ensures Inv(terms, k, Scan(Advanced(terms, st.pos, Sitting(terms, st.pos, d), d + 1), d + 1, threshold, top))
  {
    var s := Sitting(terms, st.pos, d);
    AdvanceKeeps(terms, st, s, d + 1, Scan(Advanced(terms, st.pos, s, d + 1), d + 1, threshold, top));
  }

  /** A term below the pivot moves up to it. */
  lemma RealignKeepsInv(terms: seq<Term>, k: nat, st: Scan, m: nat, target: nat, s: set<nat>)
    requires Inv(terms, k, st) && m < |terms|
    requires Sum(Masked(Bounds(terms), s)) <= st.threshold
    requires forall d: nat :: d < target ==> Covers(terms, st, d, s)
    ensures Inv(terms, k, st.(pos := Advanced(terms, st.pos, {m}, target)))
  {
    var pos' := Advanced(terms, st.pos, {m}, target);
    forall i, d: nat | 0 <= i < |terms| && Passed(terms[i], pos'[i], d) && d >= st.frontier
      ensures UpperBound(terms, d) <= st.threshold
    {
      assert TermOk(terms[i]);
      if !Passed(terms[i], st.pos[i], d) {
        AdvancePasses(terms[i], st.pos[i], target, d);
        CoveredIsDead(terms, k, st, d, s);
      }
    }
  }

  /** The block-max skip: every document in [d, target) is at most the block bounds. */
  lemma BlockSkipKeepsInv(terms: seq<Term>, k: nat, st: Scan, d: nat, target: nat, s: set<nat>, bs: seq<real>)
    requires Inv(terms, k, st) && st.frontier <= d < target && |bs| == |terms|
    requires forall i :: 0 <= i < |terms| && st.pos[i] < |terms[i].ps| ==> terms[i].ps[st.pos[i]].doc >= d
    requires forall e: nat :: e < target ==> Covers(terms, st, e, s)
    requires s == Sitting(terms, st.pos, d)
    requires forall i :: i in s ==> BoundsRange(terms[i], bs[i], d, target)
    requires Sum(Masked(bs, s)) <= st.threshold && st.threshold > 0.0
    ensures Inv(terms, k, st.(pos := Advanced(terms, st.pos, s, target), frontier := target))
  {
    SkipBelow(terms, k, st, d);
    forall e | e in PositiveDocs(terms) && d <= e < target
      ensures DocScore(terms, e) <= st.threshold
    {
      BlockBoundsDoc(terms, k, st, d, target, s, bs, e);
    }
    SkipTo(terms, k, st.(frontier := d), target);
    forall i | 0 <= i < |terms| && st.pos[i] < |terms[i].ps| && terms[i].ps[st.pos[i]].doc < target
      ensures i in s
    {
      assert Covers(terms, st, terms[i].ps[st.pos[i]].doc, s);
    }
    AdvanceKeeps(terms, st, s, target, st.(pos := Advanced(terms, st.pos, s, target), frontier := target));
  }

  lemma BlockBoundsDoc(terms: seq<Term>, k: nat, st: Scan, d: nat, target: nat, s: set<nat>, bs: seq<real>, e: nat)
    requires Inv(terms, k, st) && st.frontier <= d <= e < target && |bs| == |terms|
    requires Covers(terms, st, e, s)
    requires forall i :: i in s ==> i < |terms| && BoundsRange(terms[i], bs[i], d, target)
    requires Sum(Masked(bs, s)) <= st.threshold
    ensures DocScore(terms, e) <= st.threshold
  {
    if i :| 0 <= i < |terms| && Passed(terms[i], st.pos[i], e) {
      ScoreAtMostBound(terms, e);
    } else {
      var xs, ys := Contributions(terms, e), Masked(bs, s);
      forall i | 0 <= i < |terms| ensures xs[i] <= ys[i] {
        assert TermOk(terms[i]);
        if Has(terms[i], e) { NotPassed(terms[i], st.pos[i], e); }
        assert i in s ==> BoundsRange(terms[i], bs[i], d, target);
      }
      SumMono(xs, ys);
    }
  }

  /** b bounds what t contributes to every document in [d, target). */
  ghost predicate BoundsRange(t: Term, b: real, d: nat, target: nat)
  {
    b >= 0.0 && forall e :: d <= e < target ==> Contribution(t, e) <= b
  }

  // ----- the branches of the loop, in terms of the ordered live terms

  /** The pivot document is at the front of the order. */
  lemma FrontPivot(terms: seq<Term>, k: nat, st: Scan, d: nat, order: seq<nat>, n: nat, p: nat)
    requires Inv(terms, k, st) && Ordered(terms, st.pos, order) && Distinct(order)
    requires p < n && SplitsAt(terms, st.pos, order, d, n) && CurDoc(terms, st.pos, order, 0) == d
    requires SumOver(Bounds(terms), order[..p + 1]) > st.threshold
    ensures d in PositiveDocs(terms) && st.frontier <= d
    ensures DocScore(terms, d) == Sum(Masked(Contributions(terms, d), Sitting(terms, st.pos, d))) >= 0.0
    ensures TopOk(terms, k, st.(frontier := d))
    ensures HitsBelow(terms, d + 1) == HitsBelow(terms, d) + {Hit(d, DocScore(terms, d))}
    ensures Hit(d, DocScore(terms, d)) !in HitsBelow(terms, d)
    ensures forall i :: 0 <= i < |terms| && st.pos[i] < |terms[i].ps| ==> terms[i].ps[st.pos[i]].doc >= d
  {
    PrefixIsSitting(terms, st.pos, order, d, n);
    PrefixElements(order, p + 1, n);
    SumOverIsMasked(Bounds(terms), order[..p + 1]);
    PivotIsExact(terms, k, st, d, Elements(order[..p + 1]));
    ScoreNonNegative(terms, d);
  }

  // ----- the largest document id

  /** Every list that is not done stands on the largest id, and so does every list that holds it. */
  ghost predicate AllOnLast(terms: seq<Term>, pos: seq<nat>)
  {
    && InRange(terms, pos)
    && (forall i :: 0 <= i < |terms| && pos[i] < |terms[i].ps| ==> terms[i].ps[pos[i]].doc == MAX_DOC)
    && Sitting(terms, pos, MAX_DOC) == WithDoc(terms, MAX_DOC)
  }

  /** When the largest id is the front document and a pivot, the scan has come to its end. */
  lemma FrontIsLast(terms: seq<Term>, k: nat, st: Scan, order: seq<nat>, n: nat, p: nat)
    requires Inv(terms, k, st) && InRange(terms, st.pos) && Ordered(terms, st.pos, order) && Distinct(order)
    requires p < n && SplitsAt(terms, st.pos, order, MAX_DOC, n) && CurDoc(terms, st.pos, order, 0) == MAX_DOC
    requires SumOver(Bounds(terms), order[..p + 1]) > st.threshold
    ensures AllOnLast(terms, st.pos) && MAX_DOC in PositiveDocs(terms)
  {
    PrefixIsSitting(terms, st.pos, order, MAX_DOC, n);
    PrefixElements(order, p + 1, n);
    SumOverIsMasked(Bounds(terms), order[..p + 1]);
    PivotUnpassed(terms, k, st, MAX_DOC, Elements(order[..p + 1]));
    SittingIsWithDoc(terms, st.pos, MAX_DOC);
  }

  lemma AllBelowEnd(terms: seq<Term>)
    ensures HitsBelow(terms, MAX_DOC + 1) == Hits(terms, PositiveDocs(terms))
  {
    forall d | d in PositiveDocs(terms) ensures d < MAX_DOC + 1 {
      var i, j :| 0 <= i < |terms| && terms[i].bound > 0.0 && 0 <= j < |terms[i].ps| && terms[i].ps[j].doc == d;
    }
  }

  lemma PrefixElements(order: seq<nat>, a: nat, b: nat)
    requires 0 < a <= b <= |order|
    ensures Elements(order[..a]) <= Elements(order[..b]) && Elements(order[..a]) != {}
    ensures Distinct(order) ==> Distinct(order[..a])
  {
    assert order[..a][0] in Elements(order[..a]);
    assert order[..a] == order[..b][..a];
  }

  lemma SoundAt(s: Scorer, f: nat, m: nat)
    requires Sound(s) && f <= m
    ensures 0.0 <= s.score(f) <= s.maxScore(m)
  {
  }

  lemma ScoreNonNegative(terms: seq<Term>, d: nat)
    requires TermsOk(terms)
    ensures DocScore(terms, d) >= 0.0
  {
    var xs := Contributions(terms, d);
    forall i | 0 <= i < |xs| ensures xs[i] >= 0.0 {
      assert TermOk(terms[i]);
      if Has(terms[i], d) {
        var f: nat := terms[i].ps[IndexOf(terms[i], d)].freq;
        SoundAt(terms[i].scorer, f, f);
      }
    }
    SumNonNegative(xs);
  }

  /** The hits after the pivot is pushed are the best below its successor. */
  lemma PushedTopOk(terms: seq<Term>, k: nat, st: Scan, d: nat, threshold: real, top: set<Hit>)
    requires TopOk(terms, k, st) && st.frontier <= d && threshold >= st.threshold
    requires IsTopSet(top, HitsBelow(terms, d + 1), k, Better) && (|top| < k ==> threshold == 0.0)
    requires top <= st.top + {Hit(d, DocScore(terms, d))} && forall x :: x in top ==> x.score >= threshold
    ensures TopOk(terms, k, Scan(st.pos, d + 1, threshold, top))
  {
  }

  /** The block bounds of the first n terms as a list over all terms. */
  ghost function Spread(order: seq<nat>, bs: seq<real>, count: nat): (r: seq<real>)
    requires |bs| <= |order|
    ensures |r| == count
  {
    if bs == [] then seq(count, i => 0.0)
    else
      var m := |bs| - 1;
      var r := Spread(order, bs[..m], count);
      if order[m] < count then r[order[m] := bs[m]] else r
  }

  lemma {:induction false} SpreadAt(order: seq<nat>, bs: seq<real>, count: nat)
    requires |bs| <= |order| && Distinct(order) && forall j :: 0 <= j < |order| ==> order[j] < count
    ensures forall j :: 0 <= j < |bs| ==> Spread(order, bs, count)[order[j]] == bs[j]
    ensures SumOver(Spread(order, bs, count), order[..|bs|]) == Sum(bs)
    decreases |bs|
  {
    if bs != [] {
      var m := |bs| - 1;
      SpreadAt(order, bs[..m], count);
      assert order[..|bs|][..m] == order[..m];
      SumOverSame(Spread(order, bs[..m], count), Spread(order, bs, count), order[..m]);
    }
  }

  lemma {:induction false} SumOverSame(xs: seq<real>, ys: seq<real>, order: seq<nat>)
    requires |xs| == |ys| && forall j :: 0 <= j < |order| ==> order[j] < |xs| && xs[order[j]] == ys[order[j]]
    ensures SumOver(xs, order) == SumOver(ys, order)
  {
    if order != [] {
      SumOverSame(xs, ys, order[..|order| - 1]);
    }
  }

  /** The block-max bound at the front fails: everything up to target can be skipped. */
  lemma FrontSkip(terms: seq<Term>, k: nat, st: Scan, d: nat, target: nat, order: seq<nat>, n: nat, bs: seq<real>)
    requires Inv(terms, k, st) && Ordered(terms, st.pos, order) && Distinct(order)
    requires SplitsAt(terms, st.pos, order, d, n) && |bs| == n && |order| > 0
    requires CurDoc(terms, st.pos, order, 0) == d && d < target
    requires n < |order| ==> target <= CurDoc(terms, st.pos, order, n)
    requires forall j :: 0 <= j < n ==> BoundsRange(terms[order[j]], bs[j], d, target)
    requires Sum(bs) <= st.threshold && st.threshold > 0.0
    ensures var s := Sitting(terms, st.pos, d);
            Inv(terms, k, st.(pos := Advanced(terms, st.pos, s, target), frontier := target))
  {
    PrefixIsSitting(terms, st.pos, order, d, n);
    var s := Sitting(terms, st.pos, d);
    var all := Spread(order, bs, |terms|);
    SpreadBounds(terms, order, n, bs, d, target);
    CoversBelow(terms, st, order, target, n);
    assert st.frontier <= d;
    BlockSkipKeepsInv(terms, k, st, d, target, s, all);
  }

  lemma SpreadSum(order: seq<nat>, bs: seq<real>, count: nat)
    requires |bs| <= |order| && Distinct(order) && forall j :: 0 <= j < |order| ==> order[j] < count
    ensures Sum(Masked(Spread(order, bs, count), Elements(order[..|bs|]))) == Sum(bs)
  {
    SpreadAt(order, bs, count);
    SumOverIsMasked(Spread(order, bs, count), order[..|bs|]);
  }

  lemma SpreadBounds(terms: seq<Term>, order: seq<nat>, n: nat, bs: seq<real>, d: nat, target: nat)
    requires Distinct(order) && n == |bs| <= |order|
    requires forall j :: 0 <= j < |order| ==> order[j] < |terms|
    requires forall j :: 0 <= j < n ==> BoundsRange(terms[order[j]], bs[j], d, target)
    ensures Sum(Masked(Spread(order, bs, |terms|), Elements(order[..n]))) == Sum(bs)
    ensures forall i :: i in Elements(order[..n]) ==>
              i < |terms| && BoundsRange(terms[i], Spread(order, bs, |terms|)[i], d, target)
  {
    SpreadSum(order, bs, |terms|);
    forall i | i in Elements(order[..n])
      ensures i < |terms| && BoundsRange(terms[i], Spread(order, bs, |terms|)[i], d, target)
    {
      SpreadBound(terms, order, n, bs, d, target, i);
    }
  }

  lemma SpreadBound(terms: seq<Term>, order: seq<nat>, n: nat, bs: seq<real>, d: nat, target: nat, i: nat)
    requires Distinct(order) && n == |bs| <= |order| && i in order[..n]
    requires forall j :: 0 <= j < |order| ==> order[j] < |terms|
    requires forall j :: 0 <= j < n ==> BoundsRange(terms[order[j]], bs[j], d, target)
    ensures i < |terms| && BoundsRange(terms[i], Spread(order, bs, |terms|)[i], d, target)
  {
    var j :| 0 <= j < n && order[j] == i;
    SpreadAt(order, bs, |terms|);
    assert BoundsRange(terms[order[j]], bs[j], d, target);
  }

  /** The pivot is further on: a term before it may move up to it. */
  lemma Realign(terms: seq<Term>, k: nat, st: Scan, order: seq<nat>, p: nat, m: nat)
    requires Inv(terms, k, st) && Ordered(terms, st.pos, order) && Distinct(order)
    requires p < |order| && SumOver(Bounds(terms), order[..p]) <= st.threshold && m < |terms|
    ensures Inv(terms, k, st.(pos := Advanced(terms, st.pos, {m}, CurDoc(terms, st.pos, order, p))))
  {
    var target := CurDoc(terms, st.pos, order, p);
    SumOverIsMasked(Bounds(terms), order[..p]);
    CoversBelow(terms, st, order, target, p);
    RealignKeepsInv(terms, k, st, m, target, Elements(order[..p]));
  }

  /** No pivot. */
  lemma Stop(terms: seq<Term>, k: nat, st: Scan, order: seq<nat>)
    requires Inv(terms, k, st) && Ordered(terms, st.pos, order) && Distinct(order)
    requires SumOver(Bounds(terms), order) <= st.threshold
    ensures IsTopSet(st.top, Hits(terms, PositiveDocs(terms)), k, Better)
  {
    SumOverIsMasked(Bounds(terms), order);
    StopIsExact(terms, k, st, Elements(order));
  }

  /** The number of terms in order at or below d. */
  ghost function SplitPoint(terms: seq<Term>, pos: seq<nat>, order: seq<nat>, d: nat, n: nat): (r: nat)
    requires Live(terms, pos, order) && n <= |order|
    ensures r <= n
  {
    if n == 0 || CurDoc(terms, pos, order, n - 1) <= d then n else SplitPoint(terms, pos, order, d, n - 1)
  }

  lemma {:induction false} SplitPointSplits(terms: seq<Term>, pos: seq<nat>, order: seq<nat>, d: nat, n: nat)
    requires Ordered(terms, pos, order) && n <= |order|
    requires forall j :: n <= j < |order| ==> CurDoc(terms, pos, order, j) > d
    ensures SplitsAt(terms, pos, order, d, SplitPoint(terms, pos, order, d, n))
    decreases n
  {
    if n == 0 || CurDoc(terms, pos, order, n - 1) <= d {
      forall j | 0 <= j < n ensures CurDoc(terms, pos, order, j) <= d {
        assert CurDoc(terms, pos, order, j) <= CurDoc(terms, pos, order, n - 1);
      }
    } else {
      SplitPointSplits(terms, pos, order, d, n - 1);
    }
  }

  // ----- what the loop maintains, and its measure

  ghost predicate ScanInv(terms: seq<Term>, k: nat, st: Scan, h: seq<Hit>, threshold: real)
  {
    && k > 0 && Inv(terms, k, st) && InRange(terms, st.pos)
    && IsHeap(h, Worse) && multiset(h) == multiset(st.top) && threshold == st.threshold
  }

  /** The front document of the order is d, on which the first n terms sit. */
  ghost predicate Front(terms: seq<Term>, pos: seq<nat>, order: seq<nat>, d: nat, n: nat)
  {
    && Ordered(terms, pos, order) && Distinct(order) && InRange(terms, pos)
    && 0 < n && SplitsAt(terms, pos, order, d, n) && CurDoc(terms, pos, order, 0) == d
  }

  lemma FrontDocs(terms: seq<Term>, pos: seq<nat>, order: seq<nat>, d: nat)
    requires Ordered(terms, pos, order) && |order| > 0 && CurDoc(terms, pos, order, 0) == d
    ensures forall j :: 0 <= j < |order| ==> CurDoc(terms, pos, order, j) >= d
  {
    forall j | 0 <= j < |order| ensures CurDoc(terms, pos, order, j) >= d {
      assert j > 0 ==> CurDoc(terms, pos, order, 0) <= CurDoc(terms, pos, order, j);
    }
  }

  /** Advancing to document 0, where the successor of the largest id wraps to, moves nothing. */
  lemma AdvancedToZero(terms: seq<Term>, pos: seq<nat>, s: set<nat>)
    requires InRange(terms, pos)
    ensures Advanced(terms, pos, s, 0) == pos
  {
  }

  lemma SittingScore(terms: seq<Term>, pos: seq<nat>, i: nat, d: nat)
    requires TermsOk(terms) && |pos| == |terms| && i < |terms| && pos[i] < |terms[i].ps|
    ensures Masked(Contributions(terms, d), Sitting(terms, pos, d))[i] ==
            if terms[i].ps[pos[i]].doc == d then terms[i].scorer.score(terms[i].ps[pos[i]].freq) else 0.0
  {
    if terms[i].ps[pos[i]].doc == d {
      assert TermOk(terms[i]);
      HasAt(terms[i], pos[i]);
    }
  }

  /** The terms among the first n of order whose current document is picked. */
  ghost function Picked(terms: seq<Term>, pos: seq<nat>, order: seq<nat>, n: nat, pick: uint32 -> bool): set<nat>
    requires Live(terms, pos, order) && n <= |order|
  {
    set j | 0 <= j < n && pick(CurDoc(terms, pos, order, j)) :: order[j]
  }

  lemma PickedStep(terms: seq<Term>, pos: seq<nat>, order: seq<nat>, j: nat, pick: uint32 -> bool, target: nat)
    requires InRange(terms, pos) && Live(terms, pos, order) && Distinct(order) && j < |order|
    ensures var i := order[j];
            var now := Advanced(terms, pos, Picked(terms, pos, order, j, pick), target);
            var next := Advanced(terms, pos, Picked(terms, pos, order, j + 1, pick), target);
            && now[i] == pos[i]
            && next == if pick(CurDoc(terms, pos, order, j)) then now[i := FirstGEQ(terms[i].ps, pos[i], target)] else now
  {
    var s, s' := Picked(terms, pos, order, j, pick), Picked(terms, pos, order, j + 1, pick);
    assert order[j] !in s;
    assert s' == if pick(CurDoc(terms, pos, order, j)) then s + {order[j]} else s;
  }

  /** A test that separates d from the documents past it picks the terms sitting on d. */
  lemma PickedAre(terms: seq<Term>, pos: seq<nat>, order: seq<nat>, n: nat, d: nat, pick: uint32 -> bool)
    requires Ordered(terms, pos, order) && SplitsAt(terms, pos, order, d, n) && |order| > 0 && CurDoc(terms, pos, order, 0) == d
    requires forall j :: 0 <= j < |order| ==> (pick(CurDoc(terms, pos, order, j)) <==> j < n)
    ensures Picked(terms, pos, order, |order|, pick) == Sitting(terms, pos, d)
  {
    PrefixIsSitting(terms, pos, order, d, n);
    var s := Picked(terms, pos, order, |order|, pick);
    forall i ensures i in s <==> i in order[..n] {
      if i in order[..n] {
        var j :| 0 <= j < n && order[j] == i;
        assert pick(CurDoc(terms, pos, order, j));
      }
    }
  }

  /** Postings not yet consumed. */
  ghost function Remaining(terms: seq<Term>, pos: seq<nat>): nat
    requires InRange(terms, pos)
  {
    if terms == [] then 0
    else
      var n := |terms| - 1;
      Remaining(terms[..n], pos[..n]) + |terms[n].ps| - pos[n]
  }

  /** No list moved back and some list moved on. */
  ghost predicate Progress(pos: seq<nat>, pos': seq<nat>)
  {
    && |pos| == |pos'|
    && (forall m :: 0 <= m < |pos| ==> pos[m] <= pos'[m])
    && exists i :: 0 <= i < |pos| && pos[i] < pos'[i]
  }

  lemma ProgressShrinks(terms: seq<Term>, pos: seq<nat>, pos': seq<nat>)
    requires InRange(terms, pos) && InRange(terms, pos')
    ensures Progress(pos, pos') ==> Remaining(terms, pos') < Remaining(terms, pos)
  {
    if Progress(pos, pos') {
      var i :| 0 <= i < |pos| && pos[i] < pos'[i];
      RemainingShrinks(terms, pos, pos', i);
    }
  }

  lemma {:induction false} RemainingShrinks(terms: seq<Term>, pos: seq<nat>, pos': seq<nat>, i: nat)
    requires InRange(terms, pos) && InRange(terms, pos') && i < |terms| && pos[i] < pos'[i]
    requires forall m :: 0 <= m < |terms| ==> pos[m] <= pos'[m]
    ensures Remaining(terms, pos') < Remaining(terms, pos)
    decreases |terms|
  {
    var n := |terms| - 1;
    if i < n {
      RemainingShrinks(terms[..n], pos[..n], pos'[..n], i);
    } else {
      RemainingMonotone(terms[..n], pos[..n], pos'[..n]);
    }
  }

  lemma {:induction false} RemainingMonotone(terms: seq<Term>, pos: seq<nat>, pos': seq<nat>)
    requires InRange(terms, pos) && InRange(terms, pos')
    requires forall m :: 0 <= m < |terms| ==> pos[m] <= pos'[m]
    ensures Remaining(terms, pos') <= Remaining(terms, pos)
    decreases |terms|
  {
    if terms != [] {
      var n := |terms| - 1;
      RemainingMonotone(terms[..n], pos[..n], pos'[..n]);
    }
  }

  /** Advancing a live term whose document is below target consumes a posting. */
  lemma AdvancedShrinks(terms: seq<Term>, pos: seq<nat>, s: set<nat>, target: nat, i: nat)
    requires InRange(terms, pos) && i < |terms| && i in s
    requires pos[i] < |terms[i].ps| && terms[i].ps[pos[i]].doc < target
    ensures InRange(terms, Advanced(terms, pos, s, target))
    ensures Progress(pos, Advanced(terms, pos, s, target))
  {
    assert pos[i] < Advanced(terms, pos, s, target)[i];
  }

  lemma FrontShrinks(terms: seq<Term>, pos: seq<nat>, order: seq<nat>, d: nat, n: nat, target: nat)
    requires Front(terms, pos, order, d, n) && d < target
    ensures InRange(terms, Advanced(terms, pos, Sitting(terms, pos, d), target))
    ensures Progress(pos, Advanced(terms, pos, Sitting(terms, pos, d), target))
  {
    AdvancedShrinks(terms, pos, Sitting(terms, pos, d), target, order[0]);
  }

  /** Moving the terms on the front document past it takes exactly those and consumes a posting. */
  lemma FrontAdvance(terms: seq<Term>, pos: seq<nat>, order: seq<nat>, d: uint32, n: nat, pick: uint32 -> bool)
    requires TermsOk(terms) && Front(terms, pos, order, d, n) && forall x :: pick(x) <==> x == d
    ensures Picked(terms, pos, order, |order|, pick) == Sitting(terms, pos, d)
    ensures InRange(terms, Advanced(terms, pos, Sitting(terms, pos, d), d + 1))
    ensures Progress(pos, Advanced(terms, pos, Sitting(terms, pos, d), d + 1))
  {
    FrontPicked(terms, pos, order, d, n, pick);
    FrontShrinks(terms, pos, order, d, n, d + 1);
  }

  lemma FrontPicked(terms: seq<Term>, pos: seq<nat>, order: seq<nat>, d: uint32, n: nat, pick: uint32 -> bool)
    requires Front(terms, pos, order, d, n) && forall x :: pick(x) <==> x == d
    ensures Picked(terms, pos, order, |order|, pick) == Sitting(terms, pos, d)
  {
    FrontDocs(terms, pos, order, d);
    PickedAre(terms, pos, order, n, d, pick);
  }

  /** The terms on the front document, when the pivot is one of them. */
  ghost function FrontOf(terms: seq<Term>, st: Scan, order: seq<nat>, p: nat): (n: nat)
    requires Positions(terms, st) && Ordered(terms, st.pos, order) && Distinct(order)
    requires p < |order| && CurDoc(terms, st.pos, order, 0) == CurDoc(terms, st.pos, order, p)
    ensures p < n && Front(terms, st.pos, order, CurDoc(terms, st.pos, order, p), n)
    ensures st.frontier <= CurDoc(terms, st.pos, order, p)
  {
    var d := CurDoc(terms, st.pos, order, p);
    SplitPointSplits(terms, st.pos, order, d, |order|);
    SplitPoint(terms, st.pos, order, d, |order|)
  }

  /** The state after the term at `best` moved up to the pivot at p. */
  lemma Realigned(terms: seq<Term>, k: nat, st: Scan, order: seq<nat>, p: nat, best: nat) returns (st': Scan)
    requires Inv(terms, k, st) && InRange(terms, st.pos) && Ordered(terms, st.pos, order) && Distinct(order)
    requires p < |order| && best < |order| && SumOver(Bounds(terms), order[..p]) <= st.threshold
    requires CurDoc(terms, st.pos, order, best) < CurDoc(terms, st.pos, order, p)
    ensures Inv(terms, k, st') && InRange(terms, st'.pos) && Progress(st.pos, st'.pos)
    ensures var i := order[best];
            st' == st.(pos := st.pos[i := FirstGEQ(terms[i].ps, st.pos[i], CurDoc(terms, st.pos, order, p))])
  {
    var i, target := order[best], CurDoc(terms, st.pos, order, p);
    Realign(terms, k, st, order, p, i);
    AdvancedShrinks(terms, st.pos, {i}, target, i);
    st' := st.(pos := Advanced(terms, st.pos, {i}, target));
    assert st'.pos == st.pos[i := FirstGEQ(terms[i].ps, st.pos[i], target)];
  }
}
