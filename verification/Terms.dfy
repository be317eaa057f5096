/** The term dictionary: a sorted slice with binary search (index/terms/terms.go). */
module Terms {
  import opened Bits
  import opened Heaps
  import opened Lexical
  import opened Options
  import opened Sorting

  /** How to reach a term's postings: inline when it occurs in one document. */
  datatype Entry = Entry(docFreq: nat, singleton: bool, singletonDoc: uint32, singletonFreq: uint32, postingOffset: nat)

  datatype Term = Term(term: string, entry: Entry)

  type Dict = seq<Term>

  ghost predicate Ascends(d: Dict)
  {
    forall i, j :: 0 <= i < j < |d| ==> LexLess(d[i].term, d[j].term)
  }

  predicate TermLess(a: Term, b: Term)
  {
    LexLess(a.term, b.term)
  }

  lemma TermLessIsWeak()
    ensures WeakOrder(TermLess)
  {
    forall a: Term, b: Term | TermLess(a, b) ensures !TermLess(b, a) {
      LessLaws(a.term, b.term, a.term);
    }
    forall a: Term, b: Term, c: Term | !TermLess(a, b) && !TermLess(b, c) ensures !TermLess(a, c) {
      NotLessTransitive(a.term, b.term, c.term);
    }
  }

  lemma NotLessTransitive(a: string, b: string, c: string)
    requires !LexLess(a, b) && !LexLess(b, c)
    ensures !LexLess(a, c)
  {
    LessLaws(a, b, c);
    LessLaws(b, c, a);
    LessLaws(c, b, a);
    LessLaws(a, c, a);
  }

  ghost predicate DistinctTerms(ts: seq<Term>)
  {
    forall i, j :: 0 <= i < j < |ts| ==> ts[i].term != ts[j].term
  }

  ghost predicate Mentions(d: Dict, term: string)
  {
    exists i :: 0 <= i < |d| && d[i].term == term
  }

  /** Sorts a copy and keeps one entry of each term; terms without repeats are all kept. */
  method NewSortedDict(ts: seq<Term>) returns (d: Dict)
    ensures Ascends(d) && (forall t :: t in d ==> t in ts) && (forall t :: t in ts ==> Mentions(d, t.term))
    ensures DistinctTerms(ts) ==> forall t :: t in d <==> t in ts
  {
    TermLessIsWeak();
    var cp := SortBy(ts, TermLess);
    d := Collapse(cp);
    forall t ensures t in cp <==> t in ts {
      assert t in multiset(cp) <==> t in multiset(ts);
    }
    if DistinctTerms(ts) { AllKept(d, ts); }
  }

  lemma AllKept(d: Dict, ts: seq<Term>)
    requires DistinctTerms(ts) && (forall t :: t in d ==> t in ts) && (forall t :: t in ts ==> Mentions(d, t.term))
    ensures forall t :: t in d <==> t in ts
  {
    forall t | t in ts ensures t in d {
      var i :| 0 <= i < |d| && d[i].term == t.term;
      assert d[i] in ts;
      var a :| 0 <= a < |ts| && ts[a] == t;
      var b :| 0 <= b < |ts| && ts[b] == d[i];
    }
  }

  /** What the collapsed output holds after i sorted terms. */
  ghost predicate Collapsed(cp: seq<Term>, i: nat, out: Dict)
    requires i <= |cp|
  {
    && Ascends(out) && (forall k :: 0 <= k < |out| ==> out[k] in cp[..i])
    && (forall j {:trigger Mentions(out, cp[j].term)} :: 0 <= j < i ==> Mentions(out, cp[j].term))
    && (i > 0 ==> |out| > 0 && out[|out| - 1].term == cp[i - 1].term)
  }

  method Collapse(cp: seq<Term>) returns (out: Dict)
    requires InOrder(cp, TermLess)
    ensures Ascends(out) && (forall t :: t in out ==> t in cp) && (forall t :: t in cp ==> Mentions(out, t.term))
  {
    out := [];
    for i := 0 to |cp|
      invariant Collapsed(cp, i, out)
    {
      if i > 0 && cp[i].term == out[|out| - 1].term {
        CollapseSame(cp, i, out);
        out := out[|out| - 1 := cp[i]];
      } else {
        CollapseNew(cp, i, out);
        out := out + [cp[i]];
      }
    }
    assert cp[..|cp|] == cp;
    forall t | t in cp ensures Mentions(out, t.term) {
      var j :| 0 <= j < |cp| && cp[j] == t;
      assert Mentions(out, cp[j].term);
    }
  }

  lemma CollapseSame(cp: seq<Term>, i: nat, out: Dict)
    requires i < |cp| && Collapsed(cp, i, out) && |out| > 0 && cp[i].term == out[|out| - 1].term
    ensures Collapsed(cp, i + 1, out[|out| - 1 := cp[i]])
  {
    var n := |out| - 1;
    var out' := out[n := cp[i]];
    assert cp[..i + 1] == cp[..i] + [cp[i]];
    assert out'[n].term == cp[i].term;
    forall j | 0 <= j < i + 1 ensures Mentions(out', cp[j].term) {
      if j < i {
        assert Mentions(out, cp[j].term);
        var k :| 0 <= k < |out| && out[k].term == cp[j].term;
        assert out'[k].term == cp[j].term;
      }
    }
  }

  lemma CollapseNew(cp: seq<Term>, i: nat, out: Dict)
    requires i < |cp| && InOrder(cp, TermLess) && Collapsed(cp, i, out) && (i > 0 ==> cp[i].term != out[|out| - 1].term)
    ensures Collapsed(cp, i + 1, out + [cp[i]])
  {
    var out' := out + [cp[i]];
    assert cp[..i + 1] == cp[..i] + [cp[i]];
    forall k | 0 <= k < |out| ensures LexLess(out[k].term, cp[i].term) {
      NewIsLast(cp, i, out, k);
    }
    forall j | 0 <= j < i + 1 ensures Mentions(out', cp[j].term) {
      if j < i {
        assert Mentions(out, cp[j].term);
        var k :| 0 <= k < |out| && out[k].term == cp[j].term;
        assert out'[k].term == cp[j].term;
      } else {
        assert out'[|out|].term == cp[i].term;
      }
    }
  }

  lemma NewIsLast(cp: seq<Term>, i: nat, out: Dict, k: nat)
    requires i < |cp| && InOrder(cp, TermLess) && Collapsed(cp, i, out) && (i > 0 ==> cp[i].term != out[|out| - 1].term)
    requires k < |out|
    ensures LexLess(out[k].term, cp[i].term)
  {
    assert out[k] in cp[..i];
    var last := out[|out| - 1].term;
    assert !TermLess(cp[i], cp[i - 1]);
    LessLaws(last, cp[i].term, last);
    if k < |out| - 1 { LessLaws(out[k].term, last, cp[i].term); }
  }

  /** Where the term is or belongs. */
  method Search(d: Dict, term: string) returns (i: nat)
    requires Ascends(d)
    ensures i <= |d| && (forall j :: 0 <= j < i ==> LexLess(d[j].term, term)) && (forall j :: i <= j < |d| ==> !LexLess(d[j].term, term))
  {
    i := 0;
    var hi := |d|;
    while i < hi
      invariant 0 <= i <= hi <= |d|
      invariant forall j :: 0 <= j < i ==> LexLess(d[j].term, term)
      invariant forall j :: hi <= j < |d| ==> !LexLess(d[j].term, term)
    {
      var m := (i + hi) / 2;
      Monotone(d, term, m);
      if !LexLess(d[m].term, term) {
        hi := m;
      } else {
        i := m + 1;
      }
    }
  }

  lemma Monotone(d: Dict, term: string, m: nat)
    requires Ascends(d) && m < |d|
    ensures LexLess(d[m].term, term) ==> forall j :: 0 <= j <= m ==> LexLess(d[j].term, term)
    ensures !LexLess(d[m].term, term) ==> forall j :: m <= j < |d| ==> !LexLess(d[j].term, term)
  {
    forall j | 0 <= j < m && LexLess(d[m].term, term) ensures LexLess(d[j].term, term) {
      LessLaws(d[j].term, d[m].term, term);
    }
    forall j | m < j < |d| && !LexLess(d[m].term, term) ensures !LexLess(d[j].term, term) {
      if LexLess(d[j].term, term) { LessLaws(d[m].term, d[j].term, term); }
    }
  }

  method Lookup(d: Dict, term: string) returns (e: Option<Entry>)
    requires Ascends(d)
    ensures e.Some? <==> Mentions(d, term)
    ensures e.Some? ==> Term(term, e.value) in d
  {
    var i := Search(d, term);
    PlaceOf(d, term, i);
    if i < |d| && d[i].term == term {
      assert d[i] == Term(term, d[i].entry);
      return Some(d[i].entry);
    }
    return None;
  }

  lemma PlaceOf(d: Dict, term: string, i: nat)
    requires Ascends(d) && i <= |d|
    requires (forall j :: 0 <= j < i ==> LexLess(d[j].term, term)) && (forall j :: i <= j < |d| ==> !LexLess(d[j].term, term))
    ensures Mentions(d, term) <==> i < |d| && d[i].term == term
  {
    LessLaws(term, term, term);
    assert forall k :: i < k < |d| ==> LexLess(d[i].term, d[k].term);
    if Mentions(d, term) {
      var k :| 0 <= k < |d| && d[k].term == term;
    }
  }

  /** The terms with the prefix, in order: one contiguous run. */
  method PrefixScan(d: Dict, prefix: string) returns (out: seq<Term>)
    requires Ascends(d)
    ensures Ascends(out) && forall t :: t in out <==> t in d && prefix <= t.term
  {
    var i := Search(d, prefix);
    var lo := i;
    while i < |d| && prefix <= d[i].term
      invariant lo <= i <= |d|
      invariant forall j :: lo <= j < i ==> prefix <= d[j].term
    {
      i := i + 1;
    }
    out := d[lo..i];
    forall j | 0 <= j < |d| && prefix <= d[j].term ensures lo <= j < i {
      InRun(d, prefix, lo, i, j);
    }
    RunHolds(d, prefix, lo, i);
  }

  lemma InRun(d: Dict, prefix: string, lo: nat, hi: nat, j: nat)
    requires Ascends(d) && lo <= hi <= |d| && j < |d| && prefix <= d[j].term
    requires (forall k :: 0 <= k < lo ==> LexLess(d[k].term, prefix)) && (forall k :: lo <= k < |d| ==> !LexLess(d[k].term, prefix))
    requires hi < |d| ==> !(prefix <= d[hi].term)
    ensures lo <= j < hi
  {
    NotBelowPrefix(prefix, d[j].term);
    if hi < j {
      CodesTell(prefix, d[hi].term);
      CodesTell(prefix, d[j].term);
      PrefixRunEnds(Codes(prefix), Codes(d[hi].term), Codes(d[j].term));
    }
  }

  lemma RunHolds(d: Dict, prefix: string, lo: nat, hi: nat)
    requires Ascends(d) && lo <= hi <= |d| && forall j :: 0 <= j < |d| ==> (prefix <= d[j].term <==> lo <= j < hi)
    ensures Ascends(d[lo..hi]) && forall t :: t in d[lo..hi] <==> t in d && prefix <= t.term
  {
    forall t | t in d && prefix <= t.term ensures t in d[lo..hi] {
      var j :| 0 <= j < |d| && d[j] == t;
      assert d[lo..hi][j - lo] == t;
    }
  }

  /** A string with a prefix is not below it. */
  lemma NotBelowPrefix(p: string, t: string)
    requires p <= t
    ensures !LexLess(t, p)
  {
    CodesTell(p, t);
    PrefixNotAfter(Codes(p), Codes(t));
  }
}
