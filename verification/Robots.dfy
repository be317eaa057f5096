/** Path matching of robots.txt rules within one group (crawler/robots/robots.go; RFC 9309, section 2.2). */
module Robots {

  /** The strings a pattern denotes: a star stands for any run, everything else for itself. */
  ghost predicate InLanguage(pattern: string, s: string)
    decreases |pattern|
  {
    if pattern == "" then s == ""
    else if pattern[0] == '*' then exists n {:trigger s[n..]} :: 0 <= n <= |s| && InLanguage(pattern[1..], s[n..])
    else s != "" && s[0] == pattern[0] && InLanguage(pattern[1..], s[1..])
  }

  /** A rule covers a path if the pattern denotes a prefix of it, or all of it when anchored. */
  ghost predicate Covers(pattern: string, s: string, anchored: bool)
  {
    if anchored then InLanguage(pattern, s) else exists n {:trigger s[..n]} :: 0 <= n <= |s| && InLanguage(pattern, s[..n])
  }

  /** The same, by recursion on the pattern. */
  ghost predicate Accepts(pattern: string, s: string, anchored: bool)
    decreases |pattern|
  {
    if pattern == "" then !anchored || s == ""
    else if pattern[0] == '*' then exists n {:trigger s[n..]} :: 0 <= n <= |s| && Accepts(pattern[1..], s[n..], anchored)
    else s != "" && s[0] == pattern[0] && Accepts(pattern[1..], s[1..], anchored)
  }

  lemma {:induction false} AcceptsPrefix(pattern: string, s: string, k: nat)
    requires k <= |s| && InLanguage(pattern, s[..k])
    ensures Accepts(pattern, s, false)
    decreases |pattern|
  {
    if pattern == "" {
    } else if pattern[0] == '*' {
      var n :| 0 <= n <= k && InLanguage(pattern[1..], s[..k][n..]);
      assert s[..k][n..] == s[n..][..k - n];
      AcceptsPrefix(pattern[1..], s[n..], k - n);
    } else {
      assert s[..k][1..] == s[1..][..k - 1];
      AcceptsPrefix(pattern[1..], s[1..], k - 1);
    }
  }

  lemma {:induction false} PrefixOfAccepted(pattern: string, s: string) returns (k: nat)
    requires Accepts(pattern, s, false)
    ensures k <= |s| && InLanguage(pattern, s[..k])
    decreases |pattern|
  {
    if pattern == "" {
      k := 0;
    } else if pattern[0] == '*' {
      var n :| 0 <= n <= |s| && Accepts(pattern[1..], s[n..], false);
      var j := PrefixOfAccepted(pattern[1..], s[n..]);
      k := n + j;
      assert s[..k][n..] == s[n..][..j];
    } else {
      var j := PrefixOfAccepted(pattern[1..], s[1..]);
      k := j + 1;
      assert s[..k][1..] == s[1..][..j];
    }
  }

  lemma {:induction false} AcceptsAnchored(pattern: string, s: string)
    ensures Accepts(pattern, s, true) <==> InLanguage(pattern, s)
    decreases |pattern|
  {
    if pattern != "" {
      if pattern[0] == '*' {
        forall n | 0 <= n <= |s| ensures Accepts(pattern[1..], s[n..], true) <==> InLanguage(pattern[1..], s[n..]) {
          AcceptsAnchored(pattern[1..], s[n..]);
        }
      } else if s != "" {
        AcceptsAnchored(pattern[1..], s[1..]);
      }
    }
  }

  lemma AcceptsIsCovers(pattern: string, s: string, anchored: bool)
    ensures Accepts(pattern, s, anchored) <==> Covers(pattern, s, anchored)
  {
    AcceptsAnchored(pattern, s);
    if !anchored {
      if Accepts(pattern, s, false) {
        var k := PrefixOfAccepted(pattern, s);
        assert InLanguage(pattern, s[..k]);
      }
      if Covers(pattern, s, false) {
        var k :| 0 <= k <= |s| && InLanguage(pattern, s[..k]);
        AcceptsPrefix(pattern, s, k);
      }
    }
  }

  // ----- the two-pointer matcher

  ghost predicate From(pattern: string, p: nat, s: string, j: nat, anchored: bool)
    requires p <= |pattern| && j <= |s|
  {
    Accepts(pattern[p..], s[j..], anchored)
  }

  ghost predicate Past(pattern: string, p: nat, s: string, j: nat, anchored: bool)
    requires p < |pattern| && j <= |s|
  {
    From(pattern, p + 1, s, j, anchored)
  }

  lemma AtLiteral(pattern: string, p: nat, s: string, j: nat, anchored: bool)
    requires p < |pattern| && j <= |s| && pattern[p] != '*'
    ensures From(pattern, p, s, j, anchored) <==> j < |s| && s[j] == pattern[p] && From(pattern, p + 1, s, j + 1, anchored)
  {
    assert pattern[p..][1..] == pattern[p + 1..];
    if j < |s| { assert s[j..][1..] == s[j + 1..]; }
  }

  lemma AtStar(pattern: string, p: nat, s: string, j: nat, anchored: bool)
    requires p < |pattern| && j <= |s| && pattern[p] == '*'
    ensures From(pattern, p, s, j, anchored) <==> exists n :: j <= n <= |s| && Past(pattern, p, s, n, anchored)
  {
    var rest, t := pattern[p + 1..], s[j..];
    assert pattern[p..][1..] == rest;
    if From(pattern, p, s, j, anchored) {
      var n :| 0 <= n <= |t| && Accepts(rest, t[n..], anchored);
      assert t[n..] == s[j + n..];
      assert Past(pattern, p, s, j + n, anchored);
    }
    if n :| j <= n <= |s| && Past(pattern, p, s, n, anchored) {
      assert t[n - j..] == s[n..];
    }
  }

  /** The literal run after the last star, matched so far. */
  ghost predicate Run(pattern: string, starP: nat, p: nat, s: string, starS: nat, j: nat)
  {
    && starP < p <= |pattern| && starS <= j <= |s| && j - starS == p - starP - 1
    && pattern[starP] == '*'
    && forall i :: starP < i < p ==> pattern[i] != '*' && pattern[i] == s[starS + i - starP - 1]
  }

  /** A literal run can be stripped from both sides; where the rest matches later, the run matched later. */
  lemma {:induction false} StripRun(pattern: string, starP: nat, p: nat, s: string, n: nat, anchored: bool)
    requires starP < p <= |pattern| && n <= |s| && forall i :: starP < i < p ==> pattern[i] != '*'
    requires From(pattern, starP + 1, s, n, anchored)
    ensures n + p - starP - 1 <= |s| && From(pattern, p, s, n + p - starP - 1, anchored)
    decreases p
  {
    if p > starP + 1 {
      StripRun(pattern, starP, p - 1, s, n, anchored);
      AtLiteral(pattern, p - 1, s, n + p - starP - 2, anchored);
    }
  }

  lemma {:induction false} RunMatches(pattern: string, starP: nat, p: nat, s: string, starS: nat, j: nat, anchored: bool)
    requires Run(pattern, starP, p, s, starS, j)
    ensures From(pattern, starP + 1, s, starS, anchored) <==> From(pattern, p, s, j, anchored)
    decreases p
  {
    if p > starP + 1 {
      RunMatches(pattern, starP, p - 1, s, starS, j - 1, anchored);
      AtLiteral(pattern, p - 1, s, j - 1, anchored);
    }
  }

  /** At a second star nothing is lost by fixing the first star's earliest match. */
  lemma NewStar(pattern: string, starP: nat, p: nat, s: string, starS: nat, j: nat, anchored: bool)
    requires Run(pattern, starP, p, s, starS, j) && p < |pattern| && pattern[p] == '*'
    ensures From(pattern, starP, s, starS, anchored) <==> From(pattern, p, s, j, anchored)
  {
    AtStar(pattern, starP, s, starS, anchored);
    RunMatches(pattern, starP, p, s, starS, j, anchored);
    assert From(pattern, p, s, j, anchored) ==> Past(pattern, starP, s, starS, anchored);
    AtStar(pattern, p, s, j, anchored);
    if From(pattern, starP, s, starS, anchored) {
      var n :| starS <= n <= |s| && Past(pattern, starP, s, n, anchored);
      StripRun(pattern, starP, p, s, n, anchored);
      AtStar(pattern, p, s, n + p - starP - 1, anchored);
    }
  }

  /** When the current attempt fails, the last star must swallow one more. */
  lemma Backtrack(pattern: string, starP: nat, p: nat, s: string, starS: nat, j: nat, anchored: bool)
    requires Run(pattern, starP, p, s, starS, j) && !From(pattern, p, s, j, anchored)
    ensures starS >= |s| ==> !From(pattern, starP, s, starS, anchored)
    ensures starS < |s| ==> (From(pattern, starP, s, starS, anchored) <==> From(pattern, starP, s, starS + 1, anchored))
  {
    AtStar(pattern, starP, s, starS, anchored);
    RunMatches(pattern, starP, p, s, starS, j, anchored);
    if starS < |s| { AtStar(pattern, starP, s, starS + 1, anchored); }
  }

  /** Whether the whole match is still decided by the current attempt and its last star. */
  ghost predicate Decides(pattern: string, s: string, anchored: bool, starP: int, starS: nat, p: nat, j: nat)
  {
    && p <= |pattern| && j <= |s|
    && if starP < 0 then Accepts(pattern, s, anchored) <==> From(pattern, p, s, j, anchored)
       else Run(pattern, starP, p, s, starS, j) && (Accepts(pattern, s, anchored) <==> From(pattern, starP, s, starS, anchored))
  }

  method MatchGlob(pattern: string, s: string, anchored: bool) returns (ok: bool)
    ensures ok <==> Covers(pattern, s, anchored)
  {
    AcceptsIsCovers(pattern, s, anchored);
    var starP, starS := -1, 0;
    var p, j := 0, 0;
    assert pattern[0..] == pattern && s[0..] == s;
    while true
      invariant -1 <= starP < |pattern| && 0 <= starS <= |s| && 0 <= p && 0 <= j
      invariant Decides(pattern, s, anchored, starP, starS, p, j)
      decreases |pattern| - starP, |s| - starS, |pattern| - p
    {
      if p == |pattern| {
        if !anchored || j == |s| {
          Exhausted(pattern, s, anchored, starP, starS, j);
          return true;
        }
      } else if pattern[p] == '*' {
        if starP >= 0 { NewStar(pattern, starP, p, s, starS, j, anchored); }
        starP, starS := p, j;
        p := p + 1;
        continue;
      } else if j < |s| && pattern[p] == s[j] {
        AtLiteral(pattern, p, s, j, anchored);
        p, j := p + 1, j + 1;
        continue;
      }
      Fails(pattern, s, anchored, p, j);
      if starP >= 0 { Backtrack(pattern, starP, p, s, starS, j, anchored); }
      if starP < 0 || starS >= |s| {
        return false;
      }
      starS := starS + 1;
      j := starS;
      p := starP + 1;
    }
  }

  lemma Exhausted(pattern: string, s: string, anchored: bool, starP: int, starS: nat, j: nat)
    requires starP < |pattern| && Decides(pattern, s, anchored, starP, starS, |pattern|, j) && (!anchored || j == |s|)
    ensures Accepts(pattern, s, anchored)
  {
    assert From(pattern, |pattern|, s, j, anchored);
    if starP >= 0 {
      RunMatches(pattern, starP, |pattern|, s, starS, j, anchored);
      assert Past(pattern, starP, s, starS, anchored);
      AtStar(pattern, starP, s, starS, anchored);
    }
  }

  lemma Fails(pattern: string, s: string, anchored: bool, p: nat, j: nat)
    requires p <= |pattern| && j <= |s|
    requires p == |pattern| ==> anchored && j != |s|
    requires p < |pattern| ==> pattern[p] != '*' && !(j < |s| && pattern[p] == s[j])
    ensures !From(pattern, p, s, j, anchored)
  {
    if p < |pattern| { AtLiteral(pattern, p, s, j, anchored); }
  }

  // ----- precedence

  datatype Rule = Rule(allow: bool, pattern: string)

  function IsAnchored(pattern: string): bool
  {
    pattern != "" && pattern[|pattern| - 1] == '$'
  }

  function Body(pattern: string): string
  {
    if IsAnchored(pattern) then pattern[..|pattern| - 1] else pattern
  }

  ghost predicate Applies(r: Rule, path: string)
  {
    Covers(Body(r.pattern), path, IsAnchored(r.pattern))
  }

  method MatchLen(pattern: string, path: string) returns (n: nat, ok: bool)
    ensures ok <==> Covers(Body(pattern), path, IsAnchored(pattern))
    ensures n == if ok then |Body(pattern)| else 0
    ensures pattern != "" && pattern[|pattern| - 1] == '$' ==>
              (ok <==> InLanguage(pattern[..|pattern| - 1], path)) && (ok ==> n == |pattern| - 1)
    ensures pattern == "" || pattern[|pattern| - 1] != '$' ==>
              (ok <==> exists j :: 0 <= j <= |path| && InLanguage(pattern, path[..j])) && (ok ==> n == |pattern|)
  {
    var anchored := IsAnchored(pattern);
    var pat := Body(pattern);
    ok := MatchGlob(pat, path, anchored);
    n := if ok then |pat| else 0;
  }

  function NormalizePath(p: string): (r: string)
    ensures r != "" && r[0] == '/' && r == if p != "" && p[0] == '/' then p else "/" + p
  {
    if p == "" then "/" else if p[0] != '/' then "/" + p else p
  }

  /** The longest applicable rule decides; an allow wins a tie; with none the path is allowed. */
  ghost predicate Permits(rules: set<Rule>, path: string)
  {
    (forall r :: r in rules ==> !Applies(r, path))
    || exists a :: a in rules && a.allow && Applies(a, path)
         && forall r :: r in rules && Applies(r, path) ==> |Body(r.pattern)| <= |Body(a.pattern)|
  }

  ghost function RuleSet(rules: seq<Rule>): set<Rule>
  {
    set r | r in rules
  }

  /** Some rule among the first n decided, and none beats it. */
  ghost predicate Best(rules: seq<Rule>, n: nat, path: string, bestLen: int, allow: bool)
    requires n <= |rules|
  {
    && (forall i :: 0 <= i < n && Applies(rules[i], path) ==>
          |Body(rules[i].pattern)| <= bestLen && (|Body(rules[i].pattern)| == bestLen && rules[i].allow ==> allow))
    && (if bestLen < 0 then allow && bestLen == -1
        else exists i :: 0 <= i < n && Applies(rules[i], path) && |Body(rules[i].pattern)| == bestLen && rules[i].allow == allow)
  }

  method Allowed(rules: seq<Rule>, path0: string) returns (allow: bool)
    ensures allow <==> Permits(RuleSet(rules), NormalizePath(path0))
  {
    var path := NormalizePath(path0);
    var bestLen: int := -1;
    allow := true;
    for i := 0 to |rules|
      invariant Best(rules, i, path, bestLen, allow)
    {
      var n, ok := MatchLen(rules[i].pattern, path);
      assert ok <==> Applies(rules[i], path);
      if ok && (n > bestLen || (n == bestLen && rules[i].allow)) {
        bestLen, allow := n, rules[i].allow;
      }
    }
    BestPermits(rules, path, bestLen, allow);
  }

  lemma BestPermits(rules: seq<Rule>, path: string, bestLen: int, allow: bool)
    requires Best(rules, |rules|, path, bestLen, allow)
    ensures allow <==> Permits(RuleSet(rules), path)
  {
    var set1 := RuleSet(rules);
    assert forall i :: 0 <= i < |rules| ==> rules[i] in set1;
    if bestLen < 0 {
      forall r | r in set1 ensures !Applies(r, path) {
        var i :| 0 <= i < |rules| && rules[i] == r;
      }
    } else {
      var i :| 0 <= i < |rules| && Applies(rules[i], path) && |Body(rules[i].pattern)| == bestLen && rules[i].allow == allow;
      assert rules[i] in set1;
      if Permits(set1, path) {
        var a :| a in set1 && a.allow && Applies(a, path)
          && forall r :: r in set1 && Applies(r, path) ==> |Body(r.pattern)| <= |Body(a.pattern)|;
        var k :| 0 <= k < |rules| && rules[k] == a;
        assert |Body(rules[i].pattern)| <= |Body(a.pattern)|;
      }
      if allow {
        forall r | r in set1 && Applies(r, path) ensures |Body(r.pattern)| <= |Body(rules[i].pattern)| {
          var k :| 0 <= k < |rules| && rules[k] == r;
        }
      }
    }
  }

  /** The answer is the same for every ordering of a group's rules. */
  lemma OrderIrrelevant(a: seq<Rule>, b: seq<Rule>, path: string)
    requires multiset(a) == multiset(b)
    ensures Permits(RuleSet(a), path) <==> Permits(RuleSet(b), path)
  {
    forall r ensures r in a <==> r in b {
      assert r in multiset(a) <==> r in multiset(b);
    }
    assert RuleSet(a) == RuleSet(b);
  }
}
