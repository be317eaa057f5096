/** First-stage retrieval over a segment: its postings, BM25F and WAND together (index/search, rank/bm25f). */
module Retrieval {
  import opened Bits
  import opened Bm25f
  import opened Options
  import opened Postings
  import opened Ranking
  import Segment
  import opened SegmentSpec
  import opened TopHeap
  import opened Wand
  import opened WandSpec
  import opened WandState

  datatype Clause = Clause(term: string, scorer: WandScorer)

  ghost predicate AllPositive(query: seq<Clause>)
  {
    forall i :: 0 <= i < |query| ==> Positive(query[i].scorer)
  }

  // ----- scoring by frequencies alone

  /** What a clause gives a document with these term frequencies. */
  ghost function Gives(c: Clause, f: Freqs): real
    requires Positive(c.scorer)
  {
    if c.term in f then c.scorer.Score(f[c.term]) else 0.0
  }

  ghost function Scored(query: seq<Clause>, f: Freqs): real
    requires AllPositive(query)
  {
    if query == [] then 0.0 else Scored(query[..|query| - 1], f) + Gives(query[|query| - 1], f)
  }

  ghost predicate Matches(query: seq<Clause>, f: Freqs)
  {
    exists i :: 0 <= i < |query| && query[i].term in f
  }

  /** The documents with a query term, each with the sum of what its frequencies earn. */
  ghost function Answers(query: seq<Clause>, freqs: seq<Freqs>): set<Hit>
    requires AllPositive(query)
  {
    set d: nat | d < |freqs| && Matches(query, freqs[d]) :: Hit(d, Scored(query, freqs[d]))
  }

  lemma {:induction false} ScoredConcat(a: seq<Clause>, b: seq<Clause>, f: Freqs)
    requires AllPositive(a) && AllPositive(b) && AllPositive(a + b)
    ensures Scored(a + b, f) == Scored(a, f) + Scored(b, f)
    decreases |b|
  {
    if b == [] {
      assert a + b == a;
    } else {
      var n := |b| - 1;
      assert (a + b)[..|a + b| - 1] == a + b[..n];
      ScoredConcat(a, b[..n], f);
    }
  }

  lemma ScoredOne(c: Clause, f: Freqs)
    requires Positive(c.scorer)
    ensures Scored([c], f) == if c.term in f then c.scorer.Score(f[c.term]) else 0.0
  {
    assert [c][..0] == [];
  }

  /** On a query of one clause the document with the larger frequency comes first. */
  lemma LargerFrequencyFirst(c: Clause, freqs: seq<Freqs>, k: int, hits: seq<Hit>, d: nat, e: nat, j: nat)
    requires Positive(c.scorer) && c.scorer.k1 > 0.0 && Leads(hits, Answers([c], freqs), k)
    requires d < |freqs| && e < |freqs| && c.term in freqs[d] && c.term in freqs[e] && freqs[d][c.term] > freqs[e][c.term]
    requires j < |hits| && hits[j].doc == e
    ensures exists i :: 0 <= i < j && hits[i].doc == d
  {
    ScoredOne(c, freqs[d]);
    ScoredOne(c, freqs[e]);
    GrowsInFrequency(c.scorer, freqs[e][c.term], freqs[d][c.term]);
    assert [c][0].term in freqs[d];
    assert Matches([c], freqs[d]);
    var h := Hit(d, Scored([c], freqs[d]));
    assert h in Answers([c], freqs) && hits[j] in Answers([c], freqs);
    assert Precedes(h, hits[j]) && !Precedes(hits[j], h);
    var i :| 0 <= i < |hits| && hits[i] == h;
  }

  // ----- a clause as a term

  ghost predicate IsTerm(t: Term, c: Clause, freqs: seq<Freqs>)
    requires |freqs| <= MAX_DOCS && Positive(c.scorer)
  {
    t.ps == PostingsOf(freqs, c.term) && exists m: nat :: ScoredBy(t, c.scorer, m)
  }

  /** A term contributes to a document what the document's own frequency earns. */
  lemma ContributionIs(t: Term, c: Clause, freqs: seq<Freqs>, d: nat)
    requires |freqs| <= MAX_DOCS && Positive(c.scorer) && IsTerm(t, c, freqs) && d < |freqs|
    ensures Contribution(t, d) == Gives(c, freqs[d])
  {
    var m: nat :| ScoredBy(t, c.scorer, m);
    ScoredIsOk(t, c.scorer, m);
    if c.term in freqs[d] {
      PostingsMembers(freqs, c.term, d, freqs[d][c.term]);
      var k :| 0 <= k < |t.ps| && t.ps[k] == Posting(d, freqs[d][c.term]);
      HasAt(t, k);
    } else if Has(t, d) {
      assert t.ps[IndexOf(t, d)] in t.ps;
      PostingsMembers(freqs, c.term, d, t.ps[IndexOf(t, d)].freq);
    }
  }

  /** The terms realise the clauses; a clause without postings needs none. */
  ghost predicate Realises(terms: seq<Term>, query: seq<Clause>, freqs: seq<Freqs>)
    requires |freqs| <= MAX_DOCS && AllPositive(query)
    decreases |query|
  {
    if query == [] then terms == []
    else
      var n := |query| - 1;
      if PostingsOf(freqs, query[n].term) == [] then Realises(terms, query[..n], freqs)
      else
        && terms != [] && IsTerm(terms[|terms| - 1], query[n], freqs)
        && Realises(terms[..|terms| - 1], query[..n], freqs)
  }

  lemma NoPostings(freqs: seq<Freqs>, t: string, d: nat)
    requires |freqs| <= MAX_DOCS && PostingsOf(freqs, t) == [] && d < |freqs|
    ensures t !in freqs[d]
  {
    if t in freqs[d] { PostingsMembers(freqs, t, d, freqs[d][t]); }
  }

  lemma {:induction false} ScoresAgree(terms: seq<Term>, query: seq<Clause>, freqs: seq<Freqs>, d: nat)
    requires |freqs| <= MAX_DOCS && AllPositive(query) && Realises(terms, query, freqs) && d < |freqs|
    ensures DocScore(terms, d) == Scored(query, freqs[d])
    decreases |query|
  {
    if query != [] {
      var n := |query| - 1;
      if PostingsOf(freqs, query[n].term) == [] {
        NoPostings(freqs, query[n].term, d);
        ScoresAgree(terms, query[..n], freqs, d);
      } else {
        var m := |terms| - 1;
        ScoresAgree(terms[..m], query[..n], freqs, d);
        assert Contributions(terms, d)[..m] == Contributions(terms[..m], d);
        ContributionIs(terms[m], query[n], freqs, d);
      }
    }
  }

  lemma {:induction false} DocsAgree(terms: seq<Term>, query: seq<Clause>, freqs: seq<Freqs>, d: nat)
    requires |freqs| <= MAX_DOCS && AllPositive(query) && Realises(terms, query, freqs)
    ensures d in AllDocs(terms) <==> d < |freqs| && Matches(query, freqs[d])
    decreases |query|
  {
    if query != [] {
      var n := |query| - 1;
      var c := query[n];
      var rest := if PostingsOf(freqs, c.term) == [] then terms else terms[..|terms| - 1];
      DocsAgree(rest, query[..n], freqs, d);
      TermDocs(freqs, c.term, d);
      assert d < |freqs| ==> (Matches(query, freqs[d]) <==> Matches(query[..n], freqs[d]) || c.term in freqs[d]) by {
        assert forall i :: 0 <= i < n ==> query[..n][i] == query[i];
      }
      if PostingsOf(freqs, c.term) != [] {
        LastTermDocs(terms, d);
      }
    }
  }

  ghost predicate Occurs(ps: seq<Posting>, d: nat)
  {
    exists j :: 0 <= j < |ps| && ps[j].doc == d
  }

  lemma TermDocs(freqs: seq<Freqs>, t: string, d: nat)
    requires |freqs| <= MAX_DOCS
    ensures Occurs(PostingsOf(freqs, t), d) <==> d < |freqs| && t in freqs[d]
  {
    var ps := PostingsOf(freqs, t);
    if j :| 0 <= j < |ps| && ps[j].doc == d {
      PostingsMembers(freqs, t, d, ps[j].freq);
      assert ps[j] in ps;
    }
    if d < |freqs| && t in freqs[d] {
      PostingsMembers(freqs, t, d, freqs[d][t]);
      assert Occurs(ps, d);
    }
  }

  lemma LastTermDocs(terms: seq<Term>, d: nat)
    requires terms != []
    ensures d in AllDocs(terms) <==> d in AllDocs(terms[..|terms| - 1]) || Occurs(terms[|terms| - 1].ps, d)
  {
    var n := |terms| - 1;
    if i, j :| 0 <= i < |terms| && 0 <= j < |terms[i].ps| && terms[i].ps[j].doc == d {
      if i < n { assert terms[..n][i].ps[j].doc == d; }
    }
    if d in AllDocs(terms[..n]) {
      var i, j :| 0 <= i < n && 0 <= j < |terms[..n][i].ps| && terms[..n][i].ps[j].doc == d;
      assert terms[i].ps[j].doc == d;
    }
    if j :| 0 <= j < |terms[n].ps| && terms[n].ps[j].doc == d {
      assert terms[n].ps[j].doc in AllDocs(terms);
    }
  }

  /** WAND's own terms mean the query: nothing is missed and every score is the frequencies' own. */
  lemma HitsAreAnswers(terms: seq<Term>, query: seq<Clause>, freqs: seq<Freqs>)
    requires |freqs| <= MAX_DOCS && AllPositive(query) && Realises(terms, query, freqs)
    ensures TermsOk(terms) && Hits(terms, PositiveDocs(terms)) == Answers(query, freqs) && MAX_DOC !in AllDocs(terms)
  {
    var ws, ms := Scorers(terms, query, freqs);
    Bm25fIsExact(terms, ws, ms);
    DocsAgree(terms, query, freqs, MAX_DOC);
    forall d: nat
      ensures d in AllDocs(terms) <==> d < |freqs| && Matches(query, freqs[d])
      ensures d < |freqs| ==> DocScore(terms, d) == Scored(query, freqs[d])
    {
      DocsAgree(terms, query, freqs, d);
      if d < |freqs| { ScoresAgree(terms, query, freqs, d); }
    }
    forall h ensures h in Hits(terms, AllDocs(terms)) <==> h in Answers(query, freqs) {
      assert h in Hits(terms, AllDocs(terms)) <==> h.doc in AllDocs(terms) && h.score == DocScore(terms, h.doc);
    }
  }

  lemma {:induction false} Scorers(terms: seq<Term>, query: seq<Clause>, freqs: seq<Freqs>) returns (ws: seq<WandScorer>, ms: seq<nat>)
    requires |freqs| <= MAX_DOCS && AllPositive(query) && Realises(terms, query, freqs)
    ensures |ws| == |ms| == |terms| && forall i :: 0 <= i < |terms| ==> Positive(ws[i]) && ScoredBy(terms[i], ws[i], ms[i])
    decreases |query|
  {
    if query == [] {
      ws, ms := [], [];
    } else {
      var n := |query| - 1;
      if PostingsOf(freqs, query[n].term) == [] {
        ws, ms := Scorers(terms, query[..n], freqs);
      } else {
        ws, ms := Scorers(terms[..|terms| - 1], query[..n], freqs);
        var m: nat :| ScoredBy(terms[|terms| - 1], query[n].scorer, m);
        ws, ms := ws + [query[n].scorer], ms + [m];
      }
    }
  }

  // ----- retrieval

  lemma RealisesMore(terms: seq<Term>, t: Term, query: seq<Clause>, freqs: seq<Freqs>, n: nat)
    requires |freqs| <= MAX_DOCS && AllPositive(query) && n < |query| && Realises(terms, query[..n], freqs)
    requires PostingsOf(freqs, query[n].term) != [] && IsTerm(t, query[n], freqs)
    ensures Realises(terms + [t], query[..n + 1], freqs)
  {
    assert query[..n + 1][..n] == query[..n];
    assert (terms + [t])[..|terms|] == terms;
  }

  lemma RealisesSame(terms: seq<Term>, query: seq<Clause>, freqs: seq<Freqs>, n: nat)
    requires |freqs| <= MAX_DOCS && AllPositive(query) && n < |query| && Realises(terms, query[..n], freqs)
    requires PostingsOf(freqs, query[n].term) == []
    ensures Realises(terms, query[..n + 1], freqs)
  {
    assert query[..n + 1][..n] == query[..n];
  }

  lemma ObjectsMore(inputs: seq<TermInput>, t: TermInput)
    ensures InputObjects(inputs + [t]) == InputObjects(inputs) + CursorObjects(t.cursor)
  {
    var all := inputs + [t];
    forall o | o in InputObjects(inputs) + CursorObjects(t.cursor) ensures o in InputObjects(all) {
      if i :| 0 <= i < |inputs| && o in CursorObjects(inputs[i].cursor) {
        assert o in CursorObjects(all[i].cursor);
      } else {
        assert o in CursorObjects(all[|inputs|].cursor);
      }
    }
  }

  lemma ApartMore(inputs: seq<TermInput>, t: TermInput)
    requires InputsApart(inputs) && CursorObjects(t.cursor) !! InputObjects(inputs)
    ensures InputsApart(inputs + [t])
  {
    var all := inputs + [t];
    forall i, j | 0 <= i < j < |all| ensures CursorObjects(all[i].cursor) !! CursorObjects(all[j].cursor) {
      assert all[i] == inputs[i] && all[j] == if j < |inputs| then inputs[j] else t;
      OwnObjects(inputs, i);
    }
  }

  lemma OwnObjects(inputs: seq<TermInput>, i: nat)
    requires i < |inputs|
    ensures CursorObjects(inputs[i].cursor) <= InputObjects(inputs)
  {
  }

  lemma TermsMore(inputs: seq<TermInput>, t: TermInput)
    ensures InputTerms(inputs + [t]) == InputTerms(inputs) + [InputTerm(t)]
  {
  }

  lemma InputsMore(inputs: seq<TermInput>, t: TermInput)
    requires InputsOk(inputs) && InputOk(t) && CursorObjects(t.cursor) !! InputObjects(inputs)
    ensures InputsOk(inputs + [t])
  {
    var all := inputs + [t];
    ApartMore(inputs, t);
    forall i | 0 <= i < |all| ensures InputOk(all[i]) {
      assert i < |inputs| ==> InputOk(inputs[i]);
    }
  }

  lemma ClauseIsTerm(c: Clause, freqs: seq<Freqs>, t: Term, m: uint32)
    requires |freqs| <= MAX_DOCS && Segment.AllNonZero(freqs) && Positive(c.scorer)
    requires t == Term(PostingsOf(freqs, c.term), Seam(c.scorer), c.scorer.Score(m)) && IsMaxFreq(m, t.ps, 0, |t.ps|)
    ensures IsTerm(t, c, freqs) && Sound(t.scorer)
  {
    PostingsAscend(freqs, c.term);
    SoundIff(c.scorer);
    forall k | 0 <= k < |t.ps| ensures t.ps[k].freq > 0 {
      assert t.ps[k] in t.ps;
      PostingsMembers(freqs, c.term, t.ps[k].doc, t.ps[k].freq);
    }
    assert ScoredBy(t, c.scorer, m);
  }

  /** A clause's cursor with its scorer and its largest frequency, if the term occurs. */
  method ClauseInput(seg: Segment.Segment, c: Clause) returns (t: Option<TermInput>)
    requires seg.Valid() && Positive(c.scorer)
    ensures t.Some? <==> PostingsOf(seg.freqs, c.term) != []
    ensures t.Some? ==> InputOk(t.value) && IsTerm(InputTerm(t.value), c, seg.freqs) && fresh(CursorObjects(t.value.cursor))
  {
    var cur, df := seg.TermPostings(c.term);
    if cur == null {
      return None;
    }
    var m := MaxFreq(cur.l, cur.ps);
    t := Some(TermInput(cur, Seam(c.scorer), m));
    ClauseIsTerm(c, seg.freqs, InputTerm(t.value), m);
  }

  /** The inputs realise the first n clauses. */
  ghost predicate Gathered(inputs: seq<TermInput>, query: seq<Clause>, n: nat, freqs: seq<Freqs>)
    requires |freqs| <= MAX_DOCS && AllPositive(query) && n <= |query|
    reads InputObjects(inputs)
  {
    InputsOk(inputs) && Realises(InputTerms(inputs), query[..n], freqs)
  }

  lemma GatheredMore(inputs: seq<TermInput>, t: TermInput, query: seq<Clause>, n: nat, freqs: seq<Freqs>)
    requires |freqs| <= MAX_DOCS && AllPositive(query) && n < |query| && Gathered(inputs, query, n, freqs)
    requires InputOk(t) && IsTerm(InputTerm(t), query[n], freqs) && PostingsOf(freqs, query[n].term) != []
    requires CursorObjects(t.cursor) !! InputObjects(inputs)
    ensures Gathered(inputs + [t], query, n + 1, freqs)
    ensures InputObjects(inputs + [t]) == InputObjects(inputs) + CursorObjects(t.cursor)
  {
    RealisesMore(InputTerms(inputs), InputTerm(t), query, freqs, n);
    InputsMore(inputs, t);
    TermsMore(inputs, t);
    ObjectsMore(inputs, t);
  }

  lemma GatheredSame(inputs: seq<TermInput>, query: seq<Clause>, n: nat, freqs: seq<Freqs>)
    requires |freqs| <= MAX_DOCS && AllPositive(query) && n < |query| && Gathered(inputs, query, n, freqs)
    requires PostingsOf(freqs, query[n].term) == []
    ensures Gathered(inputs, query, n + 1, freqs)
  {
    RealisesSame(InputTerms(inputs), query, freqs, n);
  }

  method GatherOne(seg: Segment.Segment, query: seq<Clause>, n: nat, inputs: seq<TermInput>) returns (more: seq<TermInput>)
    requires seg.Valid() && AllPositive(query) && n < |query| && Gathered(inputs, query, n, seg.freqs)
    ensures Gathered(more, query, n + 1, seg.freqs) && fresh(InputObjects(more) - InputObjects(inputs))
  {
    var t := ClauseInput(seg, query[n]);
    assert old(Gathered(inputs, query, n, seg.freqs));
    assert Gathered(inputs, query, n, seg.freqs) by {
      forall i | 0 <= i < |inputs| ensures InputOk(inputs[i]) { assert old(InputOk(inputs[i])); }
    }
    if t.None? {
      GatheredSame(inputs, query, n, seg.freqs);
      return inputs;
    }
    GatheredMore(inputs, t.value, query, n, seg.freqs);
    more := inputs + [t.value];
  }

  /** The inputs of a query. */
  method Gather(seg: Segment.Segment, query: seq<Clause>) returns (inputs: seq<TermInput>)
    requires seg.Valid() && AllPositive(query)
    ensures Gathered(inputs, query, |query|, seg.freqs) && fresh(InputObjects(inputs))
  {
    inputs := [];
    for n := 0 to |query|
      invariant Gathered(inputs, query, n, seg.freqs) && fresh(InputObjects(inputs))
    {
      inputs := GatherOne(seg, query, n, inputs);
    }
  }

  /** The k best documents of a segment for a query, ranked by BM25F over their term frequencies. */
  method Retrieve(seg: Segment.Segment, query: seq<Clause>, k: int) returns (hits: seq<Hit>)
    requires seg.Valid() && AllPositive(query)
    ensures StrictTotal(Better) && hits == TopK(Answers(query, seg.freqs), k, Better)
    ensures Leads(hits, Answers(query, seg.freqs), k)
  {
    BetterIsTotal();
    TopKLeads(Answers(query, seg.freqs), k);
    var inputs := Gather(seg, query);
    assert query[..|query|] == query;
    HitsAreAnswers(InputTerms(inputs), query, seg.freqs);
    var out := WAND(inputs, k);
    hits := out.hits;
  }
}
