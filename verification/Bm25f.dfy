/** The BM25F first-stage scorer behind the WAND seam (rank/bm25f/wand.go). */
module Bm25f {
  import opened Postings
  import opened WandSpec
  import opened WandTheorems

  datatype WandScorer = WandScorer(idf: real, weight: real, k1: real)
  {
    /** Saturation at the average document length. */
    function Score(freq: nat): real
      requires weight >= 0.0 && k1 >= 0.0
    {
      if freq == 0 || weight == 0.0 then 0.0
      else
        var eff := Effective(weight, freq);
        Grows(weight, freq);
        idf * eff * (k1 + 1.0) / (k1 + eff)
    }
  }

  function Effective(weight: real, freq: nat): real
  {
    weight * freq as real
  }

  lemma Grows(weight: real, freq: nat)
    requires weight > 0.0 && freq > 0
    ensures Effective(weight, freq) > 0.0
  {
  }

  lemma ProductGrows(a: real, b: real, c: real)
    requires c >= 0.0 && a <= b
    ensures a * c <= b * c && c * a <= c * b
  {
  }

  lemma ProductNonNegative(a: real, b: real)
    requires a >= 0.0 && b >= 0.0
    ensures a * b >= 0.0
  {
  }

  /** x / (k + x) does not fall as x grows. */
  lemma Saturates(k: real, x: real, y: real)
    requires k >= 0.0 && 0.0 < x <= y
    ensures 0.0 < x / (k + x) <= y / (k + y)
  {
    var p, q := k + x, k + y;
    assert x * q <= y * p by {
      ProductGrows(x, y, k);
      assert x * q == x * k + x * y;
      assert y * p == y * k + x * y;
    }
    Quotients(x, p, y, q);
  }

  lemma ScaledSaturates(c: real, k: real, x: real, y: real)
    requires c >= 0.0 && k >= 0.0 && 0.0 < x <= y
    ensures 0.0 <= c * (x / (k + x)) <= c * (y / (k + y))
  {
    Saturates(k, x, y);
    ProductGrows(0.0, x / (k + x), c);
    ProductGrows(x / (k + x), y / (k + y), c);
  }

  ghost function Saturated(idf: real, k1: real, x: real): real
    requires k1 >= 0.0 && x > 0.0
  {
    idf * (k1 + 1.0) * (x / (k1 + x))
  }

  lemma EffectiveOrder(idf: real, k1: real, weight: real, n: nat, m: nat)
    requires idf >= 0.0 && k1 >= 0.0 && weight > 0.0 && 0 < n <= m
    ensures var x, y := Effective(weight, n), Effective(weight, m);
            x > 0.0 && y > 0.0 && 0.0 <= Saturated(idf, k1, x) <= Saturated(idf, k1, y)
  {
    var x, y, c := Effective(weight, n), Effective(weight, m), idf * (k1 + 1.0);
    assert x > 0.0 by { Grows(weight, n); }
    assert x <= y by { ProductGrows(n as real, m as real, weight); }
    assert c >= 0.0 by { ProductNonNegative(idf, k1 + 1.0); }
    ScaledSaturates(c, k1, x, y);
  }

  lemma Quotients(x: real, p: real, y: real, q: real)
    requires x > 0.0 && p > 0.0 && q > 0.0 && x * q <= y * p
    ensures 0.0 < x / p <= y / q
  {
    var a, b := x / p, y / q;
    assert a * p == x && b * q == y;
    assert x * q == a * (p * q) && y * p == b * (p * q);
    if a > b { ProductLess(b, a, p * q); }
    if a <= 0.0 { ProductGrows(a, 0.0, p); }
  }

  lemma ProductLess(a: real, b: real, c: real)
    requires a < b && c > 0.0
    ensures a * c < b * c
  {
  }

  function Seam(w: WandScorer): Scorer
    requires w.weight >= 0.0 && w.k1 >= 0.0
  {
    Scorer((f: nat) => w.Score(f), (m: nat) => w.Score(m))
  }

  lemma ScoreForm(w: WandScorer, f: nat)
    requires w.weight > 0.0 && w.k1 >= 0.0 && f > 0
    ensures var eff := Effective(w.weight, f);
            eff > 0.0 && w.Score(f) == Saturated(w.idf, w.k1, eff)
  {
    Grows(w.weight, f);
    var eff := Effective(w.weight, f);
    var d := w.k1 + eff;
    Regroup(w.idf, eff, w.k1 + 1.0, d);
  }

  lemma Regroup(a: real, e: real, c: real, d: real)
    requires d > 0.0
    ensures a * e * c / d == a * c * (e / d)
  {
    var q := e / d;
    assert e == q * d;
    assert a * e * c == (a * c * q) * d;
  }

  // ----- what the score is, in the parameters alone

  lemma QuotientTimes(n: real, d: real)
    requires d > 0.0
    ensures n / d * d == n
  {
  }

  lemma Reassociate(a: real, b: real, c: real, d: real)
    ensures a * (b * c) * d == a * b * c * d
  {
  }

  /** A posting scores idf * weight * f * (k1 + 1) / (k1 + weight * f). */
  lemma ScoreLaw(w: WandScorer, f: nat)
    requires w.weight > 0.0 && w.k1 >= 0.0 && f > 0
    ensures w.k1 + w.weight * f as real > 0.0
    ensures w.Score(f) * (w.k1 + w.weight * f as real) == w.idf * w.weight * f as real * (w.k1 + 1.0)
  {
    Grows(w.weight, f);
    var x := w.weight * f as real;
    assert x == Effective(w.weight, f);
    QuotientTimes(w.idf * x * (w.k1 + 1.0), w.k1 + x);
    Reassociate(w.idf, w.weight, f as real, w.k1 + 1.0);
  }

  /** Nothing is scored without a frequency or a weight. */
  lemma ScoreOfNothing(w: WandScorer, f: nat)
    requires w.weight >= 0.0 && w.k1 >= 0.0 && (f == 0 || w.weight == 0.0)
    ensures w.Score(f) == 0.0
  {
  }

  lemma CrossLess(k: real, x: real, y: real)
    requires k > 0.0 && x < y
    ensures x * (k + y) < y * (k + x)
  {
    ProductLess(x, y, k);
    assert x * (k + y) == x * k + x * y && y * (k + x) == y * k + x * y;
  }

  lemma QuotientsStrictly(x: real, p: real, y: real, q: real)
    requires p > 0.0 && q > 0.0 && x * q < y * p
    ensures x / p < y / q
  {
    var a, b := x / p, y / q;
    assert a * p == x && b * q == y;
    assert x * q == a * (p * q) && y * p == b * (p * q);
    ProductNonNegative(p, q);
    if b <= a { ProductGrows(b, a, p * q); }
  }

  /** x / (k + x) grows strictly for a positive k. */
  lemma SaturatesStrictly(k: real, x: real, y: real)
    requires k > 0.0 && 0.0 < x < y
    ensures x / (k + x) < y / (k + y)
  {
    CrossLess(k, x, y);
    QuotientsStrictly(x, k + x, y, k + y);
  }

  lemma ScaledStrictly(c: real, k: real, x: real, y: real)
    requires c > 0.0 && k > 0.0 && 0.0 < x < y
    ensures c * (x / (k + x)) < c * (y / (k + y))
  {
    SaturatesStrictly(k, x, y);
    ProductLess(x / (k + x), y / (k + y), c);
  }

  lemma GrowsWithEffective(v: WandScorer, f: nat, w: WandScorer, g: nat)
    requires v.weight > 0.0 && w.weight > 0.0 && v.idf == w.idf > 0.0 && v.k1 == w.k1 > 0.0 && f > 0 && g > 0
    requires v.weight * f as real < w.weight * g as real
    ensures v.Score(f) < w.Score(g)
  {
    ScoreForm(v, f);
    ScoreForm(w, g);
    assert v.idf * (v.k1 + 1.0) > 0.0 by { ProductSign(v.idf, v.k1 + 1.0); }
    ScaledStrictly(v.idf * (v.k1 + 1.0), v.k1, Effective(v.weight, f), Effective(w.weight, g));
  }

  /** A larger frequency scores strictly more. */
  lemma GrowsInFrequency(w: WandScorer, f: nat, g: nat)
    requires w.weight > 0.0 && w.k1 > 0.0 && w.idf > 0.0 && f < g
    ensures w.Score(f) < w.Score(g)
  {
    if f == 0 {
      ScoreOfNothing(w, f);
      ScoreSign(w, g);
    } else {
      ProductLess(f as real, g as real, w.weight);
      GrowsWithEffective(w, f, w, g);
    }
  }

  /** And so does a larger field weight. */
  lemma GrowsInWeight(v: WandScorer, w: WandScorer, f: nat)
    requires v.idf == w.idf > 0.0 && v.k1 == w.k1 > 0.0 && 0.0 < v.weight < w.weight && f > 0
    ensures v.Score(f) < w.Score(f)
  {
    ProductLess(v.weight, w.weight, f as real);
    GrowsWithEffective(v, f, w, f);
  }

  /** The scorer meets WAND's contract exactly when its inverse document frequency is not negative
      (or its weight is zero). */
  lemma SoundIff(w: WandScorer)
    requires w.weight >= 0.0 && w.k1 >= 0.0
    ensures Sound(Seam(w)) <==> w.weight == 0.0 || w.idf >= 0.0
  {
    var s := Seam(w);
    if w.weight == 0.0 || w.idf >= 0.0 {
      forall f: nat, m: nat | f <= m ensures 0.0 <= s.score(f) <= s.maxScore(m) {
        MonotoneAndNonNegative(w, f, m);
      }
    } else {
      ScoreSign(w, 1);
      assert s.score(1) < 0.0;
    }
  }

  lemma MonotoneAndNonNegative(w: WandScorer, f: nat, m: nat)
    requires w.weight >= 0.0 && w.k1 >= 0.0 && f <= m && (w.weight == 0.0 || w.idf >= 0.0)
    ensures 0.0 <= w.Score(f) <= w.Score(m)
  {
    if m == 0 || w.weight == 0.0 {
      assert w.Score(f) == 0.0 == w.Score(m);
    } else {
      var n := if f > 0 then f else m;
      ScoreForm(w, m);
      ScoreForm(w, n);
      EffectiveOrder(w.idf, w.k1, w.weight, n, m);
      assert 0.0 <= w.Score(n) <= w.Score(m);
      assert f == 0 ==> w.Score(f) == 0.0;
    }
  }

  /** A posting's score has the sign of the inverse document frequency. */
  lemma ScoreSign(w: WandScorer, f: nat)
    requires w.weight > 0.0 && w.k1 >= 0.0 && f > 0
    ensures w.Score(f) > 0.0 <==> w.idf > 0.0
    ensures w.Score(f) < 0.0 <==> w.idf < 0.0
  {
    ScoreForm(w, f);
    var eff := Effective(w.weight, f);
    Saturates(w.k1, eff, eff);
    var c := w.k1 + 1.0;
    var q := eff / (w.k1 + eff);
    ProductSign(c, q);
    assert w.Score(f) == w.idf * (c * q);
    ProductSign(w.idf, c * q);
    ProductSign(-w.idf, c * q);
  }

  lemma ProductSign(a: real, b: real)
    requires b > 0.0
    ensures a * b > 0.0 <==> a > 0.0
    ensures a == 0.0 ==> a * b == 0.0
  {
  }

  /** Parameters under which every posting scores above zero. */
  ghost predicate Positive(w: WandScorer)
  {
    w.weight > 0.0 && w.k1 >= 0.0 && w.idf > 0.0
  }

  /** The term is scored by w and its bound is the score of a frequency no posting exceeds. */
  ghost predicate ScoredBy(t: Term, w: WandScorer, maxFreq: nat)
    requires Positive(w)
  {
    && Ascending(t.ps) && t.scorer == Seam(w) && t.bound == w.Score(maxFreq)
    && forall k :: 0 <= k < |t.ps| ==> 0 < t.ps[k].freq <= maxFreq
  }

  lemma ScoredIsOk(t: Term, w: WandScorer, maxFreq: nat)
    requires Positive(w) && ScoredBy(t, w, maxFreq)
    ensures TermOk(t) && forall k :: 0 <= k < |t.ps| ==> t.scorer.score(t.ps[k].freq) > 0.0
  {
    SoundIff(w);
    SoundAt(t.scorer, 0, maxFreq);
    forall k | 0 <= k < |t.ps| ensures 0.0 < t.scorer.score(t.ps[k].freq) <= t.bound {
      ScoreSign(w, t.ps[k].freq);
      SoundAt(t.scorer, t.ps[k].freq, maxFreq);
    }
  }

  /** Over terms scored by BM25F with positive parameters and frequencies, WAND is sound and misses
      nothing. */
  lemma Bm25fIsExact(terms: seq<Term>, ws: seq<WandScorer>, maxFreqs: seq<nat>)
    requires |terms| == |ws| == |maxFreqs|
    requires forall i :: 0 <= i < |terms| ==> Positive(ws[i]) && ScoredBy(terms[i], ws[i], maxFreqs[i])
    ensures TermsOk(terms) && PositiveDocs(terms) == AllDocs(terms)
  {
    forall i | 0 <= i < |terms|
      ensures TermOk(terms[i]) && forall j :: 0 <= j < |terms[i].ps| ==> terms[i].scorer.score(terms[i].ps[j].freq) > 0.0
    {
      ScoredIsOk(terms[i], ws[i], maxFreqs[i]);
    }
    PositiveScoresSuffice(terms);
  }
}
