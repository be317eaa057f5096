/** What a segment means, and the postings that invert it (index/segment/segment.go). */
module SegmentSpec {
  import opened Bits
  import opened Postings
  import opened Terms

  type Freqs = map<string, uint32>

  /** A segment's document count is itself a document id. */
  const MAX_DOCS: nat := 0xFFFF_FFFF

  /** Terms with zero frequency are ignored. */
  function NonZero(m: Freqs): Freqs
  {
    map t | t in m && m[t] != 0 :: m[t]
  }

  /** The postings of a term over documents numbered in order. */
  ghost function PostingsOf(fs: seq<Freqs>, t: string): (ps: seq<Posting>)
    requires |fs| <= MAX_DOCS
    ensures forall i :: 0 <= i < |ps| ==> ps[i].doc < |fs|
  {
    if fs == [] then []
    else
      var n := |fs| - 1;
      PostingsOf(fs[..n], t) + if t in fs[n] then [Posting(n, fs[n][t])] else []
  }

  lemma {:induction false} PostingsAscend(fs: seq<Freqs>, t: string)
    requires |fs| <= MAX_DOCS
    ensures Ascending(PostingsOf(fs, t))
  {
    if fs != [] {
      PostingsAscend(fs[..|fs| - 1], t);
    }
  }

  lemma {:induction false} PostingsMembers(fs: seq<Freqs>, t: string, d: nat, f: uint32)
    requires |fs| <= MAX_DOCS && d < MAX_DOCS
    ensures Posting(d, f) in PostingsOf(fs, t) <==> d < |fs| && t in fs[d] && fs[d][t] == f
  {
    if fs != [] {
      var n := |fs| - 1;
      PostingsMembers(fs[..n], t, d, f);
      var tail := if t in fs[n] then [Posting(n, fs[n][t])] else [];
      assert Posting(d, f) in PostingsOf(fs, t) <==> Posting(d, f) in PostingsOf(fs[..n], t) || Posting(d, f) in tail;
    }
  }

  lemma PostingsMore(fs: seq<Freqs>, m: Freqs, t: string)
    requires |fs| < MAX_DOCS
    ensures PostingsOf(fs + [m], t) == PostingsOf(fs, t) + if t in m then [Posting(|fs|, m[t])] else []
  {
    assert (fs + [m])[..|fs|] == fs;
  }

  // ----- the dictionary

  /** An entry leads to the postings: inline for one document, else through an encoded list. */
  ghost predicate EntryOk(e: Entry, lists: seq<List>, ps: seq<Posting>)
  {
    && |ps| > 0 && e.docFreq == |ps|
    && if |ps| == 1 then e.singleton && Posting(e.singletonDoc, e.singletonFreq) == ps[0]
       else !e.singleton && e.postingOffset < |lists| && Encodes(lists[e.postingOffset], ps)
  }

  ghost predicate DictOk(d: Dict, lists: seq<List>, fs: seq<Freqs>)
    requires |fs| <= MAX_DOCS
  {
    && Ascends(d)
    && (forall t {:trigger EntryOk(t.entry, lists, PostingsOf(fs, t.term))} :: t in d ==> EntryOk(t.entry, lists, PostingsOf(fs, t.term)))
    && (forall s :: PostingsOf(fs, s) != [] ==> Mentions(d, s))
  }

  // ----- inverting the postings

  function PerDoc(m: map<nat, Freqs>, d: nat): Freqs
  {
    if d in m then m[d] else map[]
  }

  /** The per-document maps after the first p postings of a term, live documents only. */
  ghost function Visited(m: map<nat, Freqs>, ps: seq<Posting>, p: nat, t: string, live: seq<bool>): map<nat, Freqs>
    requires p <= |ps|
  {
    if p == 0 then m
    else
      var before := Visited(m, ps, p - 1, t, live);
      var d := ps[p - 1].doc;
      if d < |live| && live[d] then before[d := PerDoc(before, d)[t := ps[p - 1].freq]] else before
  }

  lemma {:induction false} VisitedSkips(m: map<nat, Freqs>, ps: seq<Posting>, p: nat, t: string, live: seq<bool>, d: nat)
    requires p <= |ps| && forall i :: 0 <= i < p ==> ps[i].doc != d
    ensures PerDoc(Visited(m, ps, p, t, live), d) == PerDoc(m, d)
  {
    if p > 0 { VisitedSkips(m, ps, p - 1, t, live, d); }
  }

  lemma {:induction false} VisitedSets(m: map<nat, Freqs>, ps: seq<Posting>, p: nat, t: string, live: seq<bool>, i: nat)
    requires Ascending(ps) && i < p <= |ps| && ps[i].doc < |live| && live[ps[i].doc]
    ensures PerDoc(Visited(m, ps, p, t, live), ps[i].doc) == PerDoc(m, ps[i].doc)[t := ps[i].freq]
    decreases p
  {
    if p == i + 1 {
      VisitedSkips(m, ps, i, t, live, ps[i].doc);
    } else {
      VisitedSets(m, ps, p - 1, t, live, i);
    }
  }

  /** Visiting a term's postings adds its frequency to every live document that has it. */
  lemma VisitedAdds(m: map<nat, Freqs>, fs: seq<Freqs>, t: string, live: seq<bool>, d: nat)
    requires |fs| == |live| <= MAX_DOCS && d < |fs| && live[d]
    ensures var ps := PostingsOf(fs, t);
            PerDoc(Visited(m, ps, |ps|, t, live), d) == if t in fs[d] then PerDoc(m, d)[t := fs[d][t]] else PerDoc(m, d)
  {
    var ps := PostingsOf(fs, t);
    PostingsAscend(fs, t);
    if t in fs[d] {
      PostingsMembers(fs, t, d, fs[d][t]);
      var i :| 0 <= i < |ps| && ps[i] == Posting(d, fs[d][t]);
      VisitedSets(m, ps, |ps|, t, live, i);
    } else {
      forall i | 0 <= i < |ps| ensures ps[i].doc != d {
        PostingsMembers(fs, t, ps[i].doc, ps[i].freq);
        assert ps[i] in ps;
      }
      VisitedSkips(m, ps, |ps|, t, live, d);
    }
  }

  function Restrict(f: Freqs, ts: set<string>): Freqs
  {
    map t | t in f && t in ts :: f[t]
  }

  /** Every live document has its frequencies for the terms seen so far. */
  ghost predicate Collects(m: map<nat, Freqs>, fs: seq<Freqs>, live: seq<bool>, ts: set<string>)
    requires |fs| == |live|
  {
    forall d {:trigger PerDoc(m, d)} :: 0 <= d < |fs| && live[d] ==> PerDoc(m, d) == Restrict(fs[d], ts)
  }

  lemma CollectsMore(m: map<nat, Freqs>, fs: seq<Freqs>, live: seq<bool>, ts: set<string>, t: string)
    requires |fs| == |live| <= MAX_DOCS && Collects(m, fs, live, ts)
    ensures var ps := PostingsOf(fs, t); Collects(Visited(m, ps, |ps|, t, live), fs, live, ts + {t})
  {
    var ps := PostingsOf(fs, t);
    var m' := Visited(m, ps, |ps|, t, live);
    forall d | 0 <= d < |fs| && live[d] ensures PerDoc(m', d) == Restrict(fs[d], ts + {t}) {
      VisitedAdds(m, fs, t, live, d);
      assert PerDoc(m, d) == Restrict(fs[d], ts);
    }
  }

  lemma CollectsAll(m: map<nat, Freqs>, fs: seq<Freqs>, live: seq<bool>, ts: set<string>)
    requires |fs| == |live| <= MAX_DOCS && Collects(m, fs, live, ts)
    requires forall t :: PostingsOf(fs, t) != [] ==> t in ts
    ensures forall d {:trigger PerDoc(m, d)} :: 0 <= d < |fs| && live[d] ==> PerDoc(m, d) == fs[d]
  {
    forall d | 0 <= d < |fs| && live[d] ensures PerDoc(m, d) == fs[d] {
      forall t | t in fs[d] ensures t in ts {
        PostingsMembers(fs, t, d, fs[d][t]);
      }
      assert PerDoc(m, d) == Restrict(fs[d], ts);
    }
  }

  // ----- what a merge keeps

  /** The elements whose document is live. */
  ghost function Kept<T>(xs: seq<T>, live: seq<bool>): seq<T>
    requires |xs| == |live|
  {
    if xs == [] then []
    else
      var n := |xs| - 1;
      Kept(xs[..n], live[..n]) + if live[n] then [xs[n]] else []
  }

  /** The live documents below d. */
  ghost function LiveBelow(live: seq<bool>, d: nat): set<nat>
    requires d <= |live|
  {
    set i: nat | i < d && live[i]
  }

  lemma LiveMore(live: seq<bool>, d: nat)
    requires d < |live|
    ensures |LiveBelow(live, d + 1)| == |LiveBelow(live, d)| + if live[d] then 1 else 0
    ensures LiveBelow(live[..d], d) == LiveBelow(live, d)
  {
    assert LiveBelow(live, d + 1) == LiveBelow(live, d) + if live[d] then {d} else {};
  }

  /** As many are kept as are live, and each at the place given by the live ones before it. */
  lemma {:induction false} KeptAt<T>(xs: seq<T>, live: seq<bool>)
    requires |xs| == |live|
    ensures |Kept(xs, live)| == |LiveBelow(live, |live|)|
    ensures forall d: nat :: d < |live| && live[d] ==> |LiveBelow(live, d)| < |Kept(xs, live)| && Kept(xs, live)[|LiveBelow(live, d)|] == xs[d]
  {
    if xs != [] {
      var n := |xs| - 1;
      KeptAt(xs[..n], live[..n]);
      LiveMore(live, n);
      forall d: nat | d < n && live[d]
        ensures |LiveBelow(live, d)| < |Kept(xs, live)| && Kept(xs, live)[|LiveBelow(live, d)|] == xs[d]
      {
        assert LiveBelow(live[..n], d) == LiveBelow(live, d);
        assert live[..n][d];
      }
    }
  }

  ghost predicate SameSizes<T>(xss: seq<seq<T>>, lives: seq<seq<bool>>)
  {
    |xss| == |lives| && forall i :: 0 <= i < |xss| ==> |xss[i]| == |lives[i]|
  }

  /** The live elements of each list in turn. */
  ghost function KeptAll<T>(xss: seq<seq<T>>, lives: seq<seq<bool>>): seq<T>
    requires SameSizes(xss, lives)
  {
    if xss == [] then [] else var n := |xss| - 1; KeptAll(xss[..n], lives[..n]) + Kept(xss[n], lives[n])
  }

  /** How many documents are live. */
  ghost function TotalLive(lives: seq<seq<bool>>): nat
  {
    if lives == [] then 0 else var n := |lives| - 1; TotalLive(lives[..n]) + |LiveBelow(lives[n], |lives[n]|)|
  }

  /** The new id of document d of segment i: the number of live documents before it. */
  ghost function NewId(lives: seq<seq<bool>>, i: nat, d: nat): nat
    requires i < |lives| && d < |lives[i]|
  {
    TotalLive(lives[..i]) + |LiveBelow(lives[i], d)|
  }

  lemma {:induction false} KeptAllSize<T>(xss: seq<seq<T>>, lives: seq<seq<bool>>)
    requires SameSizes(xss, lives)
    ensures |KeptAll(xss, lives)| == TotalLive(lives)
  {
    if xss != [] {
      var n := |xss| - 1;
      KeptAllSize(xss[..n], lives[..n]);
      KeptAt(xss[n], lives[n]);
    }
  }

  /** Every live element is found under its new id. */
  lemma {:induction false} KeptAllAt<T>(xss: seq<seq<T>>, lives: seq<seq<bool>>, i: nat, d: nat)
    requires SameSizes(xss, lives) && i < |xss| && d < |lives[i]| && lives[i][d]
    ensures NewId(lives, i, d) < |KeptAll(xss, lives)| && KeptAll(xss, lives)[NewId(lives, i, d)] == xss[i][d]
    decreases |xss|
  {
    var n := |xss| - 1;
    if i < n {
      KeptAllAt(xss[..n], lives[..n], i, d);
      assert lives[..n][..i] == lives[..i];
    } else {
      KeptAllSize(xss[..n], lives[..n]);
      KeptAt(xss[n], lives[n]);
    }
  }
}
