/** Building and merging segments (index/segment/segment.go). */
module Segment {
  import opened Bits
  import opened Bitset
  import Forward
  import opened Options
  import opened Postings
  import opened SegmentSpec
  import opened Terms

  type Document = Forward.Document

  // ----- building

  class Builder {
    const id: nat
    var docs: seq<Document>
    var terms: map<string, seq<Posting>>
    var next: uint32
    ghost var freqs: seq<Freqs>

    constructor (id: nat)
      ensures Valid() && docs == [] && freqs == [] && this.id == id
    {
      this.id := id;
      docs, terms, next, freqs := [], map[], 0, [];
    }

    /** Each term's postings are those of the documents added so far. */
    ghost predicate Valid()
      reads this
    {
      && |docs| == |freqs| == next <= MAX_DOCS
      && (forall i :: 0 <= i < |docs| ==> Forward.DocOk(docs[i]))
      && Inverts(terms, freqs) && AllNonZero(freqs)
    }

    /** Documents get dense ids in the order added; zero frequencies are ignored. */
    method AddDocument(doc: Document, termFreqs: Freqs) returns (docId: uint32)
      requires Valid() && Forward.DocOk(doc) && next < MAX_DOCS
      modifies this
      ensures Valid() && docId == |old(docs)|
      ensures docs == old(docs) + [doc] && freqs == old(freqs) + [NonZero(termFreqs)]
      ensures forall t :: t in freqs[docId] <==> t in termFreqs && termFreqs[t] > 0
      ensures forall t :: t in freqs[docId] ==> freqs[docId][t] == termFreqs[t]
    {
      docId := next;
      var rest := termFreqs.Keys;
      ghost var before := terms;
      AddingStarts(terms, docId, termFreqs);
      while rest != {}
        invariant rest <= termFreqs.Keys && docs == old(docs) && freqs == old(freqs) && next == old(next)
        invariant Adding(before, terms, docId, termFreqs, rest)
      {
        var t :| t in rest;
        AddingMore(before, terms, docId, termFreqs, rest, t);
        if termFreqs[t] != 0 {
          var ps := if t in terms then terms[t] else [];
          terms := terms[t := ps + [Posting(docId, termFreqs[t])]];
        }
        rest := rest - {t};
      }
      AddedInverts(before, terms, freqs, termFreqs);
      docs, next, freqs := docs + [doc], Forward.DocID(next + 1), freqs + [NonZero(termFreqs)];
    }

    /** Seals the documents into a segment, in whatever order the term map yields its terms. */
    method Build() returns (s: Segment)
      requires Valid()
      modifies {}
      ensures fresh(s) && fresh(s.live) && fresh(s.live.words) && s.Valid() && s.id == id
      ensures s.docs == docs && s.freqs == freqs && forall i :: 0 <= i < |docs| ==> s.live.Get(i)
    {
      var termList, lists := BuildTerms(terms, freqs);
      var dict := NewSortedDict(termList);
      DictBuilt(dict, termList, lists, freqs);
      var fwd := BuildForward(docs);
      var live := new LiveDocs(|docs|);
      live.SetAll();
      s := new Segment(id, dict, lists, fwd, live, |docs|, docs, freqs);
    }
  }

  ghost predicate AllNonZero(freqs: seq<Freqs>)
  {
    forall i, t :: 0 <= i < |freqs| && t in freqs[i] ==> freqs[i][t] != 0
  }

  ghost predicate Inverts(terms: map<string, seq<Posting>>, freqs: seq<Freqs>)
    requires |freqs| <= MAX_DOCS
  {
    forall t {:trigger PostingsOf(freqs, t)} :: (t in terms <==> PostingsOf(freqs, t) != []) && (t in terms ==> terms[t] == PostingsOf(freqs, t))
  }

  /** The terms already visited have the new posting appended. */
  ghost predicate Adding(before: map<string, seq<Posting>>, terms: map<string, seq<Posting>>, docId: nat, m: Freqs, rest: set<string>)
  {
    docId < MAX_DOCS && forall t :: TermAdded(before, terms, docId, m, rest, t)
  }

  ghost predicate TermAdded(before: map<string, seq<Posting>>, terms: map<string, seq<Posting>>, docId: nat, m: Freqs, rest: set<string>, t: string)
    requires docId < MAX_DOCS
  {
    var ps := if t in before then before[t] else [];
    if t in m && m[t] != 0 && t !in rest then t in terms && terms[t] == ps + [Posting(docId, m[t])]
    else (t in terms <==> t in before) && (t in terms ==> terms[t] == before[t])
  }

  lemma AddingStarts(terms: map<string, seq<Posting>>, docId: nat, m: Freqs)
    requires docId < MAX_DOCS
    ensures Adding(terms, terms, docId, m, m.Keys)
  {
    forall t ensures TermAdded(terms, terms, docId, m, m.Keys, t) {}
  }

  lemma AddingMore(before: map<string, seq<Posting>>, terms: map<string, seq<Posting>>, docId: nat, m: Freqs, rest: set<string>, t: string)
    requires Adding(before, terms, docId, m, rest) && t in rest && t in m
    ensures var ps := if t in terms then terms[t] else [];
            Adding(before, if m[t] != 0 then terms[t := ps + [Posting(docId, m[t])]] else terms, docId, m, rest - {t})
  {
    var ps := if t in terms then terms[t] else [];
    var terms' := if m[t] != 0 then terms[t := ps + [Posting(docId, m[t])]] else terms;
    forall s ensures TermAdded(before, terms', docId, m, rest - {t}, s) {
      assert TermAdded(before, terms, docId, m, rest, s);
    }
  }

  lemma AddedInverts(before: map<string, seq<Posting>>, terms: map<string, seq<Posting>>, freqs: seq<Freqs>, m: Freqs)
    requires |freqs| < MAX_DOCS && Inverts(before, freqs) && Adding(before, terms, |freqs|, m, {})
    ensures Inverts(terms, freqs + [NonZero(m)])
  {
    forall t ensures (t in terms <==> PostingsOf(freqs + [NonZero(m)], t) != [])
                  && (t in terms ==> terms[t] == PostingsOf(freqs + [NonZero(m)], t)) {
      PostingsMore(freqs, NonZero(m), t);
      assert TermAdded(before, terms, |freqs|, m, {}, t);
      assert t in before <==> PostingsOf(freqs, t) != [];
    }
  }

  /** Entries and lists for the terms already visited. */
  ghost predicate Built(ts: seq<Term>, lists: seq<List>, terms: map<string, seq<Posting>>, rest: set<string>)
  {
    && DistinctTerms(ts)
    && (forall i {:trigger ts[i].entry} :: 0 <= i < |ts| ==>
          ts[i].term in terms && ts[i].term !in rest && EntryOk(ts[i].entry, lists, terms[ts[i].term]))
    && (forall t :: t in terms && t !in rest ==> Mentions(ts, t))
  }

  method BuildTerms(terms: map<string, seq<Posting>>, ghost freqs: seq<Freqs>) returns (ts: seq<Term>, lists: seq<List>)
    requires |freqs| <= MAX_DOCS && Inverts(terms, freqs)
    ensures SegmentBuilt(ts, lists, terms)
  {
    ts, lists := [], [];
    var rest := terms.Keys;
    while rest != {}
      invariant rest <= terms.Keys && Built(ts, lists, terms, rest)
    {
      var t :| t in rest;
      var e, l := BuildEntry(terms[t], lists, freqs, t);
      BuiltMore(ts, lists, l, terms, rest, t, e);
      ts, lists := ts + [Term(t, e)], l;
      rest := rest - {t};
    }
  }

  ghost predicate SegmentBuilt(ts: seq<Term>, lists: seq<List>, terms: map<string, seq<Posting>>)
  {
    Built(ts, lists, terms, {})
  }

  /** A term of one document is kept inline, any other gets an encoded list. */
  method BuildEntry(ps: seq<Posting>, lists: seq<List>, ghost freqs: seq<Freqs>, ghost t: string) returns (e: Entry, lists': seq<List>)
    requires |freqs| <= MAX_DOCS && ps == PostingsOf(freqs, t) && ps != []
    ensures lists <= lists' && EntryOk(e, lists', ps)
  {
    PostingsAscend(freqs, t);
    if |ps| == 1 {
      return Entry(1, true, ps[0].doc, ps[0].freq, 0), lists;
    }
    var r := Encode(ps);
    e := Entry(|ps|, false, 0, 0, |lists|);
    lists' := lists + [r.value];
  }

  lemma BuiltMore(ts: seq<Term>, lists: seq<List>, lists': seq<List>, terms: map<string, seq<Posting>>, rest: set<string>, t: string, e: Entry)
    requires Built(ts, lists, terms, rest) && lists <= lists' && t in rest && t in terms && EntryOk(e, lists', terms[t])
    ensures Built(ts + [Term(t, e)], lists', terms, rest - {t})
  {
    var ts' := ts + [Term(t, e)];
    forall i | 0 <= i < |ts'|
      ensures ts'[i].term in terms && ts'[i].term !in rest - {t} && EntryOk(ts'[i].entry, lists', terms[ts'[i].term])
    {
      if i < |ts| { EntryKept(ts[i].entry, lists, lists', terms[ts[i].term]); }
    }
    forall s | s in terms && s !in rest - {t} ensures Mentions(ts', s) {
      if s == t {
        assert ts'[|ts|].term == t;
      } else {
        var i :| 0 <= i < |ts| && ts[i].term == s;
        assert ts'[i].term == s;
      }
    }
  }

  lemma EntryKept(e: Entry, lists: seq<List>, lists': seq<List>, ps: seq<Posting>)
    requires EntryOk(e, lists, ps) && lists <= lists'
    ensures EntryOk(e, lists', ps)
  {
  }

  lemma DictBuilt(d: Dict, ts: seq<Term>, lists: seq<List>, freqs: seq<Freqs>)
    requires |freqs| <= MAX_DOCS && Ascends(d) && forall t :: t in d <==> t in ts
    requires exists terms :: Inverts(terms, freqs) && SegmentBuilt(ts, lists, terms)
    ensures DictOk(d, lists, freqs)
  {
    var terms :| Inverts(terms, freqs) && SegmentBuilt(ts, lists, terms);
    forall t | t in d ensures EntryOk(t.entry, lists, PostingsOf(freqs, t.term)) {
      var i :| 0 <= i < |ts| && ts[i] == t;
      assert ts[i].entry == t.entry;
      assert PostingsOf(freqs, t.term) == terms[t.term];
    }
    forall s | PostingsOf(freqs, s) != [] ensures Mentions(d, s) {
      var i :| 0 <= i < |ts| && ts[i].term == s;
      assert ts[i] in d;
      var j :| 0 <= j < |d| && d[j] == ts[i];
    }
  }

  method BuildForward(docs: seq<Document>) returns (s: Forward.Store)
    requires |docs| <= MAX_DOCS && forall i :: 0 <= i < |docs| ==> Forward.DocOk(docs[i])
    ensures Forward.Holds(s, docs, 0)
  {
    var w := new Forward.Writer();
    for i := 0 to |docs|
      invariant fresh(w) && Filled(w, docs, i)
    {
      AddNext(w, docs, i);
    }
    assert docs[..|docs|] == docs;
    s := w.Seal();
    if |docs| == 0 { EmptyHolds(s, w.base); }
  }

  /** The writer holds the first i documents, numbered from 0. */
  ghost predicate Filled(w: Forward.Writer, docs: seq<Document>, i: nat)
    reads w
  {
    i <= |docs| && w.Valid() && w.docs == docs[..i] && (w.started <==> i > 0) && (w.started ==> w.base == 0 && w.nextDoc == i)
  }

  method AddNext(w: Forward.Writer, docs: seq<Document>, i: nat)
    requires |docs| <= MAX_DOCS && i < |docs| && Forward.DocOk(docs[i]) && Filled(w, docs, i)
    modifies w
    ensures Filled(w, docs, i + 1)
  {
    assert docs[..i + 1] == docs[..i] + [docs[i]];
    var ok := w.Add(Forward.DocID(i), docs[i]);
  }

  lemma EmptyHolds(s: Forward.Store, base: uint32)
    requires Forward.Holds(s, [], base)
    ensures Forward.Holds(s, [], 0)
  {
  }

  // ----- a sealed segment

  class Segment {
    const id: nat
    const dict: Dict
    const lists: seq<List>
    const fwd: Forward.Store
    const live: LiveDocs
    const numDocs: nat
    ghost const docs: seq<Document>
    ghost const freqs: seq<Freqs>

    constructor (id: nat, dict: Dict, lists: seq<List>, fwd: Forward.Store, live: LiveDocs, numDocs: nat,
                 ghost docs: seq<Document>, ghost freqs: seq<Freqs>)
      ensures this.id == id && this.dict == dict && this.lists == lists && this.fwd == fwd && this.live == live
      ensures this.numDocs == numDocs && this.docs == docs && this.freqs == freqs
    {
      this.id, this.dict, this.lists, this.fwd, this.live, this.numDocs := id, dict, lists, fwd, live, numDocs;
      this.docs, this.freqs := docs, freqs;
    }

    /** The segment stores docs and inverts freqs. */
    ghost predicate Valid()
      reads live, live.words
    {
      && |docs| == |freqs| == numDocs <= MAX_DOCS
      && live.Valid() && live.n == numDocs
      && Forward.Holds(fwd, docs, 0) && DictOk(dict, lists, freqs)
      && AllNonZero(freqs)
    }

    ghost function Live(): (r: seq<bool>)
      requires live.Valid()
      reads live, live.words
      ensures |r| == live.n && forall i :: 0 <= i < live.n ==> (r[i] <==> live.Get(i))
    {
      BitSeq(live.words[..], live.n)
    }

    /** The stored fields of a live document. */
    method GetDocument(d: uint32) returns (r: Option<Document>)
      requires Valid()
      ensures r == if d < numDocs && live.Get(d) then Some(docs[d]) else None
    {
      var isLive := live.IsSet(d);
      if !isLive {
        return None;
      }
      r := Forward.Get(fwd, d, docs, 0);
    }

    /** A fresh cursor over a term's postings, whichever way they are stored. */
    method TermPostings(term: string) returns (c: Cursor?, df: nat)
      requires Valid()
      ensures c == null <==> PostingsOf(freqs, term) == []
      ensures c != null ==> fresh(c) && fresh(c.docs) && fresh(c.freqs) && c.Valid() && c.Position() == -1 && c.shallowIdx == 0
      ensures c != null ==> c.ps == PostingsOf(freqs, term) && df == |c.ps|
    {
      var e := Lookup(dict, term);
      if e.None? {
        return null, 0;
      }
      ghost var ps := PostingsOf(freqs, term);
      assert EntryOk(Term(term, e.value).entry, lists, PostingsOf(freqs, Term(term, e.value).term));
      PostingsAscend(freqs, term);
      if e.value.singleton {
        var one := [Posting(e.value.singletonDoc, e.value.singletonFreq)];
        assert one == ps;
        var l := Encode(one);
        var cursor := new Cursor(l.value, ps);
        return cursor, 1;
      }
      var cursor := new Cursor(lists[e.value.postingOffset], ps);
      return cursor, e.value.docFreq;
    }

    /** Clears the live bit; the space is reclaimed by a merge. */
    method Delete(d: uint32) returns (was: bool)
      requires Valid()
      modifies live.words
      ensures Valid() && (was <==> old(d < numDocs && live.Get(d)))
      ensures forall i :: live.Get(i) <==> old(live.Get(i)) && i != d
    {
      was := live.IsSet(d);
      if was {
        live.Clear(d);
      }
    }
  }

  // ----- merging

  ghost predicate Shows(docs: LiveDocs, live: seq<bool>)
    reads docs, docs.words
  {
    docs.Valid() && |live| == docs.n && forall i :: 0 <= i < docs.n ==> (live[i] <==> docs.Get(i))
  }

  /** Adds one term's frequencies to the maps of the live documents its cursor visits. */
  method Visit(docs: LiveDocs, c: Cursor, m0: map<nat, Freqs>, t: string, ghost live: seq<bool>) returns (m: map<nat, Freqs>)
    requires Shows(docs, live) && c.Valid() && c.Position() == -1
    requires {c, c.docs, c.freqs} !! {docs, docs.words}
    modifies c, c.docs, c.freqs
    ensures m == Visited(m0, c.ps, |c.ps|, t, live)
  {
    m := m0;
    ghost var p := 0;
    while true
      invariant Shows(docs, live) && c.Valid() && c.Position() == p - 1 && 0 <= p <= |c.ps|
      invariant m == Visited(m0, c.ps, p, t, live)
      decreases |c.ps| - p
    {
      var ok;
      ok, m := VisitNext(docs, c, m, t, live, m0, p);
      if !ok {
        break;
      }
      p := p + 1;
    }
  }

  method VisitNext(docs: LiveDocs, c: Cursor, m: map<nat, Freqs>, t: string, ghost live: seq<bool>, ghost m0: map<nat, Freqs>, ghost p: nat)
    returns (ok: bool, m': map<nat, Freqs>)
    requires Shows(docs, live) && c.Valid() && c.Position() == p - 1 && p <= |c.ps| && m == Visited(m0, c.ps, p, t, live)
    requires {c, c.docs, c.freqs} !! {docs, docs.words}
    modifies c, c.docs, c.freqs
    ensures Shows(docs, live) && c.Valid() && c.Position() == p && (ok <==> p < |c.ps|)
    ensures m' == Visited(m0, c.ps, if ok then p + 1 else p, t, live)
  {
    m' := m;
    ok := c.Next();
    if ok {
      m' := Note(docs, m, c.Doc(), c.Freq(), t, live);
    }
  }

  method Note(docs: LiveDocs, m: map<nat, Freqs>, d: uint32, f: uint32, t: string, ghost live: seq<bool>) returns (m': map<nat, Freqs>)
    requires Shows(docs, live)
    ensures m' == if d < |live| && live[d] then m[d := PerDoc(m, d)[t := f]] else m
  {
    var isLive := docs.IsSet(d);
    m' := if isLive then m[d := PerDoc(m, d)[t := f]] else m;
  }

  /** The frequency map of every live document, read back from the postings. */
  method CollectTerms(s: Segment) returns (m: map<nat, Freqs>)
    requires s.Valid()
    ensures forall d {:trigger PerDoc(m, d)} :: 0 <= d < s.numDocs && s.live.Get(d) ==> PerDoc(m, d) == s.freqs[d]
  {
    var all := PrefixScan(s.dict, "");
    m := map[];
    ghost var live, done := s.Live(), {};
    for i := 0 to |all|
      invariant Has(s, live) && Collects(m, s.freqs, live, done)
      invariant forall j :: 0 <= j < i ==> all[j].term in done
    {
      m := CollectTerm(s, m, all[i].term, live, done);
      done := done + {all[i].term};
    }
    forall t | PostingsOf(s.freqs, t) != [] ensures t in done {
      var j :| 0 <= j < |s.dict| && s.dict[j].term == t;
      assert s.dict[j] in all;
    }
    CollectsAll(m, s.freqs, live, done);
  }

  /** Adds one term's frequencies. */
  method CollectTerm(s: Segment, m: map<nat, Freqs>, t: string, ghost live: seq<bool>, ghost done: set<string>) returns (m': map<nat, Freqs>)
    requires Has(s, live) && Collects(m, s.freqs, live, done)
    ensures Has(s, live) && Collects(m', s.freqs, live, done + {t})
  {
    CollectsMore(m, s.freqs, live, done, t);
    m' := m;
    var c, _ := s.TermPostings(t);
    if c != null {
      m' := Visit(s.live, c, m, t, live);
    }
  }

  /** The segment is well formed with these documents live. */
  ghost predicate Has(s: Segment, live: seq<bool>)
    reads s.live, s.live.words
  {
    s.Valid() && s.Live() == live
  }

  /** Re-adds one document if it is live. */
  method MergeDoc(b: Builder, s: Segment, d: uint32, perDoc: map<nat, Freqs>, ghost live: seq<bool>)
    requires b.Valid() && Has(s, live) && d < s.numDocs && (live[d] ==> PerDoc(perDoc, d) == s.freqs[d] && |b.docs| < MAX_DOCS)
    modifies b
    ensures b.Valid() && b.docs == old(b.docs) + (if live[d] then [s.docs[d]] else [])
    ensures b.freqs == old(b.freqs) + if live[d] then [s.freqs[d]] else []
  {
    var isLive := s.live.IsSet(d);
    if !isLive {
      return;
    }
    var doc := Forward.Get(s.fwd, d, s.docs, 0);
    if doc.None? {
      return;
    }
    AlreadyNonZero(s.freqs, d);
    var _ := b.AddDocument(doc.value, PerDoc(perDoc, d));
  }

  /** Re-adds the live documents of one segment, in order. */
  method MergeOne(b: Builder, s: Segment, ghost live: seq<bool>)
    requires b.Valid() && Has(s, live) && |b.docs| + |Kept(s.docs, live)| <= MAX_DOCS
    modifies b
    ensures b.Valid() && b.docs == old(b.docs) + Kept(s.docs, live) && b.freqs == old(b.freqs) + Kept(s.freqs, live)
  {
    var perDoc := CollectTerms(s);
    for d := 0 to Forward.DocID(s.numDocs)
      invariant b.Valid() && Has(s, live)
      invariant b.docs == old(b.docs) + Kept(s.docs[..d], live[..d]) && b.freqs == old(b.freqs) + Kept(s.freqs[..d], live[..d])
    {
      KeptStep(old(b.docs), s.docs, live, d);
      KeptStep(old(b.freqs), s.freqs, live, d);
      KeptRoom(s.docs, live, d);
      MergeDoc(b, s, d, perDoc, live);
    }
    assert s.docs[..s.numDocs] == s.docs && s.freqs[..s.numDocs] == s.freqs && live[..s.numDocs] == live;
  }

  lemma AlreadyNonZero(freqs: seq<Freqs>, d: nat)
    requires AllNonZero(freqs) && d < |freqs|
    ensures NonZero(freqs[d]) == freqs[d]
  {
  }

  lemma KeptStep<T>(before: seq<T>, xs: seq<T>, live: seq<bool>, d: nat)
    requires d < |xs| == |live|
    ensures before + Kept(xs[..d + 1], live[..d + 1]) == before + Kept(xs[..d], live[..d]) + if live[d] then [xs[d]] else []
  {
    assert xs[..d + 1][..d] == xs[..d] && live[..d + 1][..d] == live[..d];
  }

  lemma {:induction false} KeptRoom<T>(xs: seq<T>, live: seq<bool>, d: nat)
    requires d < |xs| == |live|
    ensures |Kept(xs[..d], live[..d])| + (if live[d] then 1 else 0) <= |Kept(xs, live)|
    decreases |xs|
  {
    var n := |xs| - 1;
    if d < n {
      KeptRoom(xs[..n], live[..n], d);
      assert xs[..n][..d] == xs[..d] && live[..n][..d] == live[..d];
    }
  }

  ghost function DocsOf(segs: seq<Segment>): (r: seq<seq<Document>>)
    ensures |r| == |segs|
  {
    seq(|segs|, i requires 0 <= i < |segs| => segs[i].docs)
  }

  ghost function FreqsOf(segs: seq<Segment>): (r: seq<seq<Freqs>>)
    ensures |r| == |segs|
  {
    seq(|segs|, i requires 0 <= i < |segs| => segs[i].freqs)
  }

  /** The live documents of the segments, in input order. */
  ghost function MergedDocs(segs: seq<Segment>, lives: seq<seq<bool>>): seq<Document>
    requires Sized(segs, lives)
  {
    KeptAll(DocsOf(segs), lives)
  }

  ghost function MergedFreqs(segs: seq<Segment>, lives: seq<seq<bool>>): seq<Freqs>
    requires Sized(segs, lives)
  {
    KeptAll(FreqsOf(segs), lives)
  }

  ghost predicate Sized(segs: seq<Segment>, lives: seq<seq<bool>>)
  {
    |segs| == |lives| && forall i :: 0 <= i < |segs| ==> |segs[i].docs| == |segs[i].freqs| == |lives[i]|
  }

  lemma MergedStep(segs: seq<Segment>, lives: seq<seq<bool>>, n: nat)
    requires Sized(segs, lives) && n < |segs|
    ensures Sized(segs[..n], lives[..n]) && Sized(segs[..n + 1], lives[..n + 1])
    ensures MergedDocs(segs[..n + 1], lives[..n + 1]) == MergedDocs(segs[..n], lives[..n]) + Kept(segs[n].docs, lives[n])
    ensures MergedFreqs(segs[..n + 1], lives[..n + 1]) == MergedFreqs(segs[..n], lives[..n]) + Kept(segs[n].freqs, lives[n])
  {
    assert lives[..n + 1][..n] == lives[..n];
    assert DocsOf(segs[..n + 1])[..n] == DocsOf(segs[..n]) && FreqsOf(segs[..n + 1])[..n] == FreqsOf(segs[..n]);
  }

  lemma {:induction false} MergedRoom(segs: seq<Segment>, lives: seq<seq<bool>>, n: nat)
    requires Sized(segs, lives) && n <= |segs|
    ensures Sized(segs[..n], lives[..n]) && |MergedDocs(segs[..n], lives[..n])| <= |MergedDocs(segs, lives)|
    decreases |segs| - n
  {
    if n == |segs| {
      assert segs[..n] == segs && lives[..n] == lives;
    } else {
      MergedRoom(segs, lives, n + 1);
      MergedStep(segs, lives, n);
    }
  }

  /** Every live document of the segments is in docs under its new id, and its frequencies in freqs. */
  ghost predicate Gathers(segs: seq<Segment>, lives: seq<seq<bool>>, docs: seq<Document>, freqs: seq<Freqs>)
    requires Sized(segs, lives)
  {
    |docs| == |freqs| && forall i: nat, d: nat :: i < |segs| && d < |lives[i]| && lives[i][d] ==>
      NewId(lives, i, d) < |docs| && docs[NewId(lives, i, d)] == segs[i].docs[d] && freqs[NewId(lives, i, d)] == segs[i].freqs[d]
  }

  lemma MergedGathers(segs: seq<Segment>, lives: seq<seq<bool>>)
    requires Sized(segs, lives)
    ensures |MergedDocs(segs, lives)| == TotalLive(lives) && Gathers(segs, lives, MergedDocs(segs, lives), MergedFreqs(segs, lives))
  {
    KeptAllSize(DocsOf(segs), lives);
    KeptAllSize(FreqsOf(segs), lives);
    forall i: nat, d: nat | i < |segs| && d < |lives[i]| && lives[i][d]
      ensures NewId(lives, i, d) < |MergedDocs(segs, lives)|
      ensures MergedDocs(segs, lives)[NewId(lives, i, d)] == segs[i].docs[d] && MergedFreqs(segs, lives)[NewId(lives, i, d)] == segs[i].freqs[d]
    {
      KeptAllAt(DocsOf(segs), lives, i, d);
      KeptAllAt(FreqsOf(segs), lives, i, d);
    }
  }

  /** The merged segment means the concatenation of its inputs' live documents, with fresh dense ids
      and everything live. */
  method Merge(newId: nat, segs: seq<Segment>, ghost lives: seq<seq<bool>>) returns (r: Segment)
    requires |segs| == |lives| && forall i {:trigger Has(segs[i], lives[i])} :: 0 <= i < |segs| ==> Has(segs[i], lives[i])
    requires Sized(segs, lives) && |MergedDocs(segs, lives)| <= MAX_DOCS
    ensures fresh(r) && r.Valid() && r.id == newId
    ensures r.docs == MergedDocs(segs, lives) && r.freqs == MergedFreqs(segs, lives)
    ensures forall i :: 0 <= i < |r.docs| ==> r.live.Get(i)
    ensures |r.docs| == TotalLive(lives)
    ensures Gathers(segs, lives, r.docs, r.freqs)
  {
    var b := new Builder(newId);
    assert segs[..0] == [] && lives[..0] == [];
    for n := 0 to |segs|
      invariant fresh(b) && b.Valid() && b.id == newId
      invariant forall i {:trigger Has(segs[i], lives[i])} :: 0 <= i < |segs| ==> Has(segs[i], lives[i])
      invariant Sized(segs[..n], lives[..n])
      invariant b.docs == MergedDocs(segs[..n], lives[..n]) && b.freqs == MergedFreqs(segs[..n], lives[..n])
    {
      MergedStep(segs, lives, n);
      MergedRoom(segs, lives, n + 1);
      assert Has(segs[n], lives[n]);
      MergeOne(b, segs[n], lives[n]);
    }
    assert segs[..|segs|] == segs && lives[..|segs|] == lives;
    r := b.Build();
    MergedGathers(segs, lives);
  }
}
