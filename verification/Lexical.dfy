/** Lexicographic order of numbers, and of strings by their codes. */
module Lexical {
  import opened Ranking

  /** bytes.Compare(a, b) < 0. */
  predicate Lex(a: seq<int>, b: seq<int>)
  {
    b != [] && (a == [] || a[0] < b[0] || (a[0] == b[0] && Lex(a[1..], b[1..])))
  }

  /** a and b agree on their first n elements, and there a ends or has the smaller element. */
  ghost predicate PartsAt(a: seq<int>, b: seq<int>, n: int)
  {
    0 <= n <= |a| && n < |b| && a[..n] == b[..n] && (n == |a| || a[n] < b[n])
  }

  lemma {:induction false} PartsIsLex(a: seq<int>, b: seq<int>, n: nat)
    requires PartsAt(a, b, n)
    ensures Lex(a, b)
  {
    if n > 0 {
      assert a[..n][0] == b[..n][0];
      assert a[1..][..n - 1] == a[..n][1..] && b[1..][..n - 1] == b[..n][1..];
      PartsIsLex(a[1..], b[1..], n - 1);
    }
  }

  lemma {:induction false} LexParts(a: seq<int>, b: seq<int>) returns (n: nat)
    requires Lex(a, b)
    ensures PartsAt(a, b, n)
  {
    n := 0;
    if a != [] && a[0] == b[0] {
      n := LexParts(a[1..], b[1..]);
      assert a == [a[0]] + a[1..] && b == [b[0]] + b[1..];
      assert a[..n + 1] == [a[0]] + a[1..][..n] && b[..n + 1] == [b[0]] + b[1..][..n];
      n := n + 1;
    }
  }

  lemma LexMeans(a: seq<int>, b: seq<int>)
    ensures Lex(a, b) <==> exists n :: PartsAt(a, b, n)
  {
    if Lex(a, b) { var _ := LexParts(a, b); }
    if n :| PartsAt(a, b, n) { PartsIsLex(a, b, n); }
  }

  lemma {:induction false} LexIrreflexive(a: seq<int>)
    ensures !Lex(a, a)
  {
    if a != [] { LexIrreflexive(a[1..]); }
  }

  lemma {:induction false} LexTransitive(a: seq<int>, b: seq<int>, c: seq<int>)
    requires Lex(a, b) && Lex(b, c)
    ensures Lex(a, c)
  {
    if a != [] && a[0] == b[0] && b[0] == c[0] { LexTransitive(a[1..], b[1..], c[1..]); }
  }

  lemma {:induction false} LexConnected(a: seq<int>, b: seq<int>)
    requires a != b
    ensures Lex(a, b) || Lex(b, a)
  {
    if a != [] && b != [] && a[0] == b[0] {
      assert a == [a[0]] + a[1..] && b == [b[0]] + b[1..];
      LexConnected(a[1..], b[1..]);
    }
  }

  lemma LexAsymmetric(a: seq<int>, b: seq<int>)
    requires Lex(a, b)
    ensures !Lex(b, a)
  {
    if Lex(b, a) {
      LexTransitive(a, b, a);
      LexIrreflexive(a);
    }
  }

  /** In ascending order the keys with a prefix are adjacent: past one at or after the prefix that
      lacks it, none has it. */
  lemma {:induction false} PrefixRunEnds(p: seq<int>, t: seq<int>, u: seq<int>)
    requires !Lex(t, p) && !(p <= t) && Lex(t, u)
    ensures !(p <= u)
  {
    if p != [] && u != [] && t != [] && u[0] == p[0] && t[0] == p[0] {
      assert p == [p[0]] + p[1..] && t == [t[0]] + t[1..] && u == [u[0]] + u[1..];
      PrefixRunEnds(p[1..], t[1..], u[1..]);
    }
  }

  lemma {:induction false} PrefixNotAfter(p: seq<int>, t: seq<int>)
    requires p <= t
    ensures !Lex(t, p)
  {
    if p != [] {
      assert p == [p[0]] + p[1..] && t == [t[0]] + t[1..];
      PrefixNotAfter(p[1..], t[1..]);
    }
  }

  // ----- strings

  function Codes(s: string): (cs: seq<int>)
    ensures |cs| == |s|
  {
    seq(|s|, i requires 0 <= i < |s| => s[i] as int)
  }

  predicate LexLess(a: string, b: string)
  {
    Lex(Codes(a), Codes(b))
  }

  lemma CodesTell(a: string, b: string)
    ensures a == b <==> Codes(a) == Codes(b)
    ensures a <= b <==> Codes(a) <= Codes(b)
  {
    if Codes(a) <= Codes(b) {
      forall i | 0 <= i < |a| ensures a[i] == b[i] {
        assert Codes(a)[i] == Codes(b)[i];
      }
    }
    if a <= b {
      assert forall i :: 0 <= i < |a| ==> Codes(a)[i] == Codes(b)[i];
    }
  }

  /** Two strings part where one ends or has the smaller character. */
  lemma LessMeans(a: string, b: string)
    ensures LexLess(a, b) <==> exists n :: 0 <= n <= |a| && n < |b| && a[..n] == b[..n] && (n == |a| || a[n] < b[n])
  {
    LexMeans(Codes(a), Codes(b));
    forall n ensures PartsAt(Codes(a), Codes(b), n) <==> 0 <= n <= |a| && n < |b| && a[..n] == b[..n] && (n == |a| || a[n] < b[n]) {
      if 0 <= n <= |a| && n < |b| {
        assert Codes(a)[..n] == Codes(a[..n]) && Codes(b)[..n] == Codes(b[..n]);
        CodesTell(a[..n], b[..n]);
      }
    }
    if LexLess(a, b) {
      var n :| PartsAt(Codes(a), Codes(b), n);
      assert a[..n] == b[..n];
    }
  }

  /** The order of strings is strict and total, at these three. */
  lemma LessLaws(a: string, b: string, c: string)
    ensures !LexLess(a, a)
    ensures LexLess(a, b) && LexLess(b, c) ==> LexLess(a, c)
    ensures a != b ==> LexLess(a, b) || LexLess(b, a)
  {
    LexIrreflexive(Codes(a));
    if LexLess(a, b) && LexLess(b, c) { LexTransitive(Codes(a), Codes(b), Codes(c)); }
    CodesTell(a, b);
    if a != b { LexConnected(Codes(a), Codes(b)); }
  }

  lemma LexTotal()
    ensures StrictTotal(LexLess)
  {
    forall a, b, c: string
      ensures !LexLess(a, a)
      ensures LexLess(a, b) && LexLess(b, c) ==> LexLess(a, c)
      ensures a != b ==> LexLess(a, b) || LexLess(b, a)
    {
      LessLaws(a, b, c);
    }
  }
}
