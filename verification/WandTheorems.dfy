/** When the result of WAND is the exhaustive ranking of the whole disjunction. */
module WandTheorems {
  import opened Postings
  import opened Ranking
  import opened Sums
  import opened TopHeap
  import opened Wand
  import opened WandLast
  import opened WandSpec

  /** WAND agrees with exhaustive scoring for every k exactly when every document of the disjunction
      is in some term whose bound is positive. */
  lemma ExactForEveryK(terms: seq<Term>)
    ensures StrictTotal(Better)
    ensures (forall k: nat :: TopK(Hits(terms, PositiveDocs(terms)), k, Better) == TopK(Hits(terms, AllDocs(terms)), k, Better))
       <==> PositiveDocs(terms) == AllDocs(terms)
  {
    BetterIsTotal();
    var some, all := Hits(terms, PositiveDocs(terms)), Hits(terms, AllDocs(terms));
    if forall k: nat :: TopK(some, k, Better) == TopK(all, k, Better) {
      var k := |some| + |all| + 1;
      assert TopK(some, k, Better) == TopK(all, k, Better);
      RankSorts(some, Better);
      RankSorts(all, Better);
      SameHitsSameDocs(terms, PositiveDocs(terms), AllDocs(terms));
    }
  }

  lemma SameHitsSameDocs(terms: seq<Term>, a: set<nat>, b: set<nat>)
    requires Hits(terms, a) == Hits(terms, b)
    ensures a == b
  {
    forall d ensures d in a <==> d in b {
      var h := Hit(d, DocScore(terms, d));
      assert d in a <==> h in Hits(terms, a);
      assert d in b <==> h in Hits(terms, b);
    }
  }

  /** With positive scores for one k: WAND is exact unless it runs out of documents in terms with a
      positive bound, of which it then returns all. */
  lemma ExactForOneK(terms: seq<Term>, k: nat)
    requires TermsOk(terms)
    requires forall d :: d in PositiveDocs(terms) ==> DocScore(terms, d) > 0.0
    ensures StrictTotal(Better)
    ensures TopK(Hits(terms, PositiveDocs(terms)), k, Better) == TopK(Hits(terms, AllDocs(terms)), k, Better)
       <==> k <= |PositiveDocs(terms)| || PositiveDocs(terms) == AllDocs(terms)
  {
    BetterIsTotal();
    var some, all := Hits(terms, PositiveDocs(terms)), Hits(terms, AllDocs(terms));
    PositiveDocsWithin(terms);
    HitsSize(terms, PositiveDocs(terms));
    HitsSize(terms, AllDocs(terms));
    forall x, y | x in some && y in all && y !in some ensures Better(x, y) {
      UnboundedScoresZero(terms, y.doc);
    }
    SubsetSize(PositiveDocs(terms), AllDocs(terms));
    TopOfBetter(some, all, k, Better);
  }

  /** The top k of a set whose part `some` beats the rest is the top k of `some` while that lasts. */
  lemma TopOfBetter<T(!new)>(some: set<T>, all: set<T>, k: nat, better: (T, T) -> bool)
    requires StrictTotal(better) && some <= all
    requires forall x, y :: x in some && y in all && y !in some ==> better(x, y)
    ensures TopK(some, k, better) == TopK(all, k, better) <==> k <= |some| || |some| == |all|
  {
    SubsetSize(some, all);
    RankPrefix(some, all, better);
  }

  lemma {:induction false} RankPrefix<T(!new)>(some: set<T>, all: set<T>, better: (T, T) -> bool)
    requires StrictTotal(better) && some <= all
    requires forall x, y :: x in some && y in all && y !in some ==> better(x, y)
    ensures |some| <= |all| && Rank(some, better) == Rank(all, better)[..|some|]
    decreases |some|
  {
    SubsetSize(some, all);
    if some != {} {
      var b := Best(some, better);
      forall x | x in all && x != b ensures better(b, x) {}
      var c := Best(all, better);
      assert c != b ==> better(b, c) && better(c, b);
      RankPrefix(some - {b}, all - {b}, better);
    }
  }

  lemma PositiveDocsWithin(terms: seq<Term>)
    ensures PositiveDocs(terms) <= AllDocs(terms)
    ensures Hits(terms, PositiveDocs(terms)) <= Hits(terms, AllDocs(terms))
  {
  }

  /** A document outside every term with a positive bound scores nothing. */
  lemma UnboundedScoresZero(terms: seq<Term>, d: nat)
    requires TermsOk(terms) && d !in PositiveDocs(terms)
    ensures DocScore(terms, d) == 0.0
  {
    var xs := Contributions(terms, d);
    forall i | 0 <= i < |xs| ensures xs[i] == 0.0 {
      var t := terms[i];
      assert TermOk(t);
      if Has(t, d) {
        var j := IndexOf(t, d);
        SoundAt(t.scorer, t.ps[j].freq, t.ps[j].freq);
        assert t.bound == 0.0;
      }
    }
    SumZero(xs);
  }

  /** If every posting scores above zero, every document is in a term with a positive bound. */
  lemma PositiveScoresSuffice(terms: seq<Term>)
    requires TermsOk(terms)
    requires forall i, j :: 0 <= i < |terms| && 0 <= j < |terms[i].ps| ==> terms[i].scorer.score(terms[i].ps[j].freq) > 0.0
    ensures PositiveDocs(terms) == AllDocs(terms)
    ensures forall d :: d in PositiveDocs(terms) ==> DocScore(terms, d) > 0.0
  {
    forall d | d in AllDocs(terms) ensures d in PositiveDocs(terms) && DocScore(terms, d) > 0.0 {
      var i, j :| 0 <= i < |terms| && 0 <= j < |terms[i].ps| && terms[i].ps[j].doc == d;
      assert TermOk(terms[i]);
      assert terms[i].scorer.score(terms[i].ps[j].freq) > 0.0;
      HasAt(terms[i], j);
      var ys := Contributions(terms, d);
      var xs := ys[i := 0.0];
      SumBump(xs, ys, i);
      forall m | 0 <= m < |xs| ensures xs[m] >= 0.0 {
        assert TermOk(terms[m]);
        if Has(terms[m], d) {
          var f: nat := terms[m].ps[IndexOf(terms[m], d)].freq;
          SoundAt(terms[m].scorer, f, f);
        }
      }
      SumNonNegative(xs);
    }
  }

  /** Non-negative scores alone do not suffice: a term that scores zero is dropped. */
  lemma ZeroScoreIsDropped()
    ensures exists terms: seq<Term> :: TermsOk(terms) && AllDocs(terms) == {7} && PositiveDocs(terms) == {}
  {
    var zero := Scorer((f: nat) => 0.0, (m: nat) => 0.0);
    var terms := [Term([Posting(7, 1)], zero, 0.0)];
    assert TermOk(terms[0]);
    assert terms[0].ps[0].doc in AllDocs(terms);
  }

  /** One document, on the largest id, and room for two: a call that returns gives it twice. */
  lemma LastIdTwice(terms: seq<Term>)
    requires AllDocs(terms) == {MAX_DOC} == PositiveDocs(terms)
    ensures StrictTotal(Better)
    ensures Answer(terms, 2) == [LastHit(terms), LastHit(terms)]
    ensures TopK(Hits(terms, AllDocs(terms)), 2, Better) == [LastHit(terms)]
  {
    BetterIsTotal();
    HitsOfOne(terms, MAX_DOC);
    AloneTwice(LastHit(terms));
  }

  lemma HitsOfOne(terms: seq<Term>, d: nat)
    ensures Hits(terms, {d}) == {Hit(d, DocScore(terms, d))}
  {
  }

  /** There is such a query: one posting, which scores one. */
  lemma LastIdQuery() returns (terms: seq<Term>)
    ensures TermsOk(terms) && AllDocs(terms) == {MAX_DOC} == PositiveDocs(terms)
  {
    var one := Scorer((f: nat) => 1.0, (m: nat) => 1.0);
    terms := [Term([Posting(MAX_DOC, 1)], one, 1.0)];
    assert TermOk(terms[0]);
    assert terms[0].ps[0].doc in AllDocs(terms) && terms[0].ps[0].doc in PositiveDocs(terms);
  }

  /** With the largest id in a term of positive bound, what a call returns is the exhaustive top k of the
      documents in such terms exactly if k - 1 of them are better than it. */
  lemma LastIdExactIff(terms: seq<Term>, k: nat)
    requires TermsOk(terms) && MAX_DOC in PositiveDocs(terms)
    ensures StrictTotal(Better)
    ensures Answer(terms, k) == TopK(Hits(terms, PositiveDocs(terms)), k, Better) <==>
              k <= |Ahead(Hits(terms, PositiveDocs(terms)), LastHit(terms))| + 1
  {
    LastHitIn(terms);
    RepeatedIsTopKIff(Hits(terms, PositiveDocs(terms)), LastHit(terms), k);
  }
}
