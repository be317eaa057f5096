/** The mutable HNSW index (vector/ann/hnsw.go); a node's level is an argument. */
module Hnsw {
  import opened Sorting
  import opened HnswGraph
  import opened HnswSearch

  // ----- greedy descent

  ghost function Below(ds: seq<real>, d: real): set<nat>
  {
    set i | 0 <= i < |ds| && ds[i] < d
  }

  lemma BelowShrinks(ds: seq<real>, best: nat, d: real)
    requires best < |ds| && ds[best] < d
    ensures |Below(ds, ds[best])| < |Below(ds, d)|
  {
    Ranking.SubsetSize(Below(ds, ds[best]), Below(ds, d));
    assert best in Below(ds, d) && best !in Below(ds, ds[best]);
  }

  /** One round of the descent: the nearest of best and its neighbours. */
  method Improve(g: Graph, dist: Metric, q: Vec, best: nat, l: nat, ghost m: nat, ghost ep: nat) returns (next: nat, improved: bool)
    requires GraphOk(g, m) && InLayer(g, best, l) && Reaches(g, l, ep, best)
    ensures InLayer(g, next, l) && Reaches(g, l, ep, next)
    ensures improved ==> dist(q, g[next].vec) < dist(q, g[best].vec)
    ensures !improved ==> next == best && forall j :: 0 <= j < |g[best].neighbors[l]| ==>
              g[best].neighbors[l][j] < |g| && dist(q, g[best].vec) <= dist(q, g[g[best].neighbors[l][j]].vec)
  {
    next, improved := best, false;
    var bestDist := dist(q, g[best].vec);
    var nbs := g[best].neighbors[l];
    assert ListOk(g, m, best, l);
    for j := 0 to |nbs|
      invariant InLayer(g, next, l) && Reaches(g, l, ep, next) && bestDist == dist(q, g[next].vec)
      invariant improved ==> bestDist < dist(q, g[best].vec)
      invariant !improved ==> next == best && forall i :: 0 <= i < j ==> bestDist <= dist(q, g[nbs[i]].vec)
    {
      var d := dist(q, g[nbs[j]].vec);
      if d < bestDist {
        ReachesMore(g, l, ep, best, nbs[j]);
        next, bestDist, improved := nbs[j], d, true;
      }
    }
  }

  /** best is reached from ep at layer l, no farther, and no neighbour of it is nearer. */
  ghost predicate Greedy(g: Graph, dist: Metric, q: Vec, l: nat, ep: nat, best: nat)
  {
    && ep < |g| && InLayer(g, best, l) && Reaches(g, l, ep, best) && dist(q, g[best].vec) <= dist(q, g[ep].vec)
    && forall j :: 0 <= j < |g[best].neighbors[l]| ==>
         g[best].neighbors[l][j] < |g| && dist(q, g[best].vec) <= dist(q, g[g[best].neighbors[l][j]].vec)
  }

  /** A descent: at each layer from the top down to 1 the greedy choice from the one before. */
  ghost predicate Descent(g: Graph, dist: Metric, q: Vec, top: nat, path: seq<nat>)
  {
    |path| <= top + 1 && forall i :: 0 <= i < |path| - 1 ==> GreedyStep(g, dist, q, top, path, i)
  }

  ghost predicate GreedyStep(g: Graph, dist: Metric, q: Vec, top: nat, path: seq<nat>, i: nat)
    requires i + 1 < |path| <= top + 1
  {
    Greedy(g, dist, q, top - i, path[i], path[i + 1])
  }

  /** Hops to nearer neighbours until none is nearer. */
  method GreedyClosest(g: Graph, dist: Metric, q: Vec, ep: nat, l: nat, ghost m: nat) returns (best: nat)
    requires GraphOk(g, m) && InLayer(g, ep, l)
    ensures Greedy(g, dist, q, l, ep, best)
  {
    best := ep;
    ReachesSelf(g, l, ep);
    var improved := true;
    ghost var ds := Distances(g, dist, q);
    while improved
      invariant InLayer(g, best, l) && Reaches(g, l, ep, best) && dist(q, g[best].vec) <= dist(q, g[ep].vec)
      invariant !improved ==> forall j :: 0 <= j < |g[best].neighbors[l]| ==>
                  g[best].neighbors[l][j] < |g| && dist(q, g[best].vec) <= dist(q, g[g[best].neighbors[l][j]].vec)
      decreases improved, |Below(ds, ds[best])|
    {
      ghost var before := best;
      best, improved := Improve(g, dist, q, best, l, m, ep);
      if improved { BelowShrinks(ds, best, ds[before]); }
    }
  }

  lemma DescentMore(g: Graph, dist: Metric, q: Vec, top: nat, path: seq<nat>, next: nat)
    requires Descent(g, dist, q, top, path) && 0 < |path| <= top && Greedy(g, dist, q, top - |path| + 1, path[|path| - 1], next)
    ensures Descent(g, dist, q, top, path + [next])
  {
    var path' := path + [next];
    forall i | 0 <= i < |path'| - 1 ensures GreedyStep(g, dist, q, top, path', i) {
      if i < |path| - 1 { assert GreedyStep(g, dist, q, top, path, i); }
    }
  }

  // ----- neighbour selection

  /** Candidates are nodes of the layer other than i, each once. */
  ghost predicate CandidatesOk(g: Graph, i: nat, l: nat, cands: seq<Candidate>)
  {
    && (forall a, b :: 0 <= a < b < |cands| ==> cands[a].node != cands[b].node)
    && forall a :: 0 <= a < |cands| ==> InLayer(g, cands[a].node, l) && cands[a].node != i
  }

  /** A candidate nearer to something already kept than to the query. */
  ghost predicate Shadowed(g: Graph, dist: Metric, c: Candidate, kept: seq<nat>)
    requires c.node < |g| && forall j :: 0 <= j < |kept| ==> kept[j] < |g|
  {
    exists j :: 0 <= j < |kept| && dist(g[c.node].vec, g[kept[j]].vec) < c.dist
  }

  ghost function Between(g: Graph, dist: Metric, a: nat, b: nat): real
    requires a < |g| && b < |g|
  {
    dist(g[a].vec, g[b].vec)
  }

  ghost predicate Nodes(g: Graph, i: nat, cands: set<nat>, ns: seq<nat>)
  {
    i < |g| && (forall x :: x in cands ==> x < |g|) && (forall j :: 0 <= j < |ns| ==> ns[j] in cands)
  }

  /** ns is the choice of neighbours for i among the candidates: nearest first and beginning with a
      nearest one; none is nearer to one chosen before it than to i; and a candidate not chosen is nearer
      to a chosen one than to i, or there are m chosen and none of them is farther from i than it. */
  ghost predicate Chosen(g: Graph, dist: Metric, i: nat, cands: set<nat>, ns: seq<nat>, m: nat)
  {
    && Nodes(g, i, cands, ns) && |ns| <= m
    && (forall a, b :: 0 <= a < b < |ns| ==> Between(g, dist, i, ns[a]) <= Between(g, dist, i, ns[b]))
    && (forall a, b :: 0 <= a < b < |ns| ==> Between(g, dist, i, ns[b]) <= Between(g, dist, ns[b], ns[a]))
    && (cands != {} && m > 0 ==> ns != [] && forall x :: x in cands ==> Between(g, dist, i, ns[0]) <= Between(g, dist, i, x))
    && (forall x :: x in cands && x !in ns ==> Spared(g, dist, i, ns, m, x))
  }

  ghost predicate Spared(g: Graph, dist: Metric, i: nat, ns: seq<nat>, m: nat, x: nat)
    requires i < |g| && x < |g| && forall j :: 0 <= j < |ns| ==> ns[j] < |g|
  {
    || (exists j :: 0 <= j < |ns| && Between(g, dist, x, ns[j]) < Between(g, dist, i, x))
    || (|ns| == m && forall j :: 0 <= j < |ns| ==> Between(g, dist, i, ns[j]) <= Between(g, dist, i, x))
  }

  lemma ChosenSame(g: Graph, g': Graph, dist: Metric, i: nat, cands: set<nat>, ns: seq<nat>, m: nat)
    requires Chosen(g, dist, i, cands, ns, m) && SameNodes(g, g')
    ensures Chosen(g', dist, i, cands, ns, m)
  {
    assert forall a, b :: 0 <= a < |g| && 0 <= b < |g| ==> Between(g', dist, a, b) == Between(g, dist, a, b);
    forall x | x in cands && x !in ns ensures Spared(g', dist, i, ns, m, x) {
      assert Spared(g, dist, i, ns, m, x);
    }
  }

  /** The candidates in order of their distance to i. */
  ghost predicate FromQuery(g: Graph, dist: Metric, i: nat, cands: seq<Candidate>)
  {
    && i < |g| && InOrder(cands, Nearer)
    && forall a :: 0 <= a < |cands| ==> cands[a].node < |g| && cands[a].dist == Between(g, dist, i, cands[a].node)
  }

  lemma SelectedIsChosen(g: Graph, dist: Metric, cands: seq<Candidate>, m: nat, i: nat, l: nat, n: nat, result: seq<nat>, from: seq<nat>)
    requires FromQuery(g, dist, i, cands) && Selected(g, dist, cands, m, i, l, n, result, from) && (n == |cands| || |result| >= m)
    ensures Chosen(g, dist, i, NodesOf(cands), result, m)
  {
    forall a, b | 0 <= a < b < |result|
      ensures Between(g, dist, i, result[a]) <= Between(g, dist, i, result[b])
      ensures Between(g, dist, i, result[b]) <= Between(g, dist, result[b], result[a])
    {
      assert from[a] < from[b] && !Nearer(cands[from[b]], cands[from[a]]);
      assert !Shadowed(g, dist, cands[from[b]], result[..b]);
      assert result[..b][a] == result[a];
    }
    if |cands| > 0 && m > 0 { FirstChosen(g, dist, cands, i); }
    forall x | x in NodesOf(cands) && x !in result ensures Spared(g, dist, i, result, m, x) {
      var a :| 0 <= a < |cands| && cands[a].node == x;
      SparedAt(g, dist, cands, m, i, l, n, result, from, a);
    }
  }

  lemma FirstChosen(g: Graph, dist: Metric, cands: seq<Candidate>, i: nat)
    requires FromQuery(g, dist, i, cands) && |cands| > 0
    ensures forall x :: x in NodesOf(cands) ==> x < |g| && Between(g, dist, i, cands[0].node) <= Between(g, dist, i, x)
  {
    forall x | x in NodesOf(cands) ensures Between(g, dist, i, cands[0].node) <= Between(g, dist, i, x) {
      var a :| 0 <= a < |cands| && cands[a].node == x;
      assert a > 0 ==> !Nearer(cands[a], cands[0]);
    }
  }

  lemma PickedIn(g: Graph, cands: seq<Candidate>, n: nat, result: seq<nat>, from: seq<nat>, a: nat)
    requires Picks(g, cands, n, result, from) && a < |cands|
    ensures a in from ==> cands[a].node in result
  {
    if j :| 0 <= j < |from| && from[j] == a {
      assert result[j] == cands[a].node;
    }
  }

  lemma SparedAt(g: Graph, dist: Metric, cands: seq<Candidate>, m: nat, i: nat, l: nat, n: nat, result: seq<nat>, from: seq<nat>, a: nat)
    requires FromQuery(g, dist, i, cands) && Selected(g, dist, cands, m, i, l, n, result, from) && (n == |cands| || |result| >= m)
    requires a < |cands| && cands[a].node !in result
    ensures Spared(g, dist, i, result, m, cands[a].node)
  {
    if a < n {
      PickedIn(g, cands, n, result, from, a);
      assert Shadowed(g, dist, cands[a], result);
    } else {
      forall j | 0 <= j < |result| ensures Between(g, dist, i, result[j]) <= Between(g, dist, i, cands[a].node) {
        assert from[j] < a && !Nearer(cands[a], cands[from[j]]);
      }
    }
  }

  /** Keeps, nearest first, the candidates not shadowed by one already kept, up to m. */
  method SelectNeighbors(g: Graph, dist: Metric, cands: seq<Candidate>, m: nat, ghost i: nat, ghost l: nat)
    returns (result: seq<nat>, ghost from: seq<nat>)
    requires CandidatesOk(g, i, l, cands)
    ensures FromQuery(g, dist, i, cands) ==> Chosen(g, dist, i, NodesOf(cands), result, m)
    ensures EdgesOk(g, i, l, result) && |result| <= m && |from| == |result|
    ensures forall j :: 0 <= j < |result| ==> from[j] < |cands| && result[j] == cands[from[j]].node
    ensures forall a, b :: 0 <= a < b < |from| ==> from[a] < from[b]
    ensures forall j :: 0 <= j < |result| ==> !Shadowed(g, dist, cands[from[j]], result[..j])
    ensures |result| < m ==> forall a :: 0 <= a < |cands| ==> a in from || Shadowed(g, dist, cands[a], result)
    ensures |cands| > 0 && m > 0 ==> |result| > 0 && result[0] == cands[0].node
  {
    ghost var n;
    result, from, n := SelectInOrder(g, dist, cands, m, i, l);
    PickedEdges(g, i, l, cands, n, result, from);
    if FromQuery(g, dist, i, cands) { SelectedIsChosen(g, dist, cands, m, i, l, n, result, from); }
  }

  method SelectInOrder(g: Graph, dist: Metric, cands: seq<Candidate>, m: nat, ghost i: nat, ghost l: nat)
    returns (result: seq<nat>, ghost from: seq<nat>, ghost n: nat)
    requires CandidatesOk(g, i, l, cands)
    ensures Selected(g, dist, cands, m, i, l, n, result, from) && (n == |cands| || |result| >= m)
  {
    result, from, n := [], [], 0;
    for a := 0 to |cands|
      invariant a == n && Selected(g, dist, cands, m, i, l, n, result, from)
    {
      if |result| >= m {
        break;
      }
      result, from := SelectOne(g, dist, cands, m, a, result, i, l, from);
      n := n + 1;
    }
  }

  method SelectOne(g: Graph, dist: Metric, cands: seq<Candidate>, m: nat, a: nat, result: seq<nat>, ghost i: nat, ghost l: nat, ghost from: seq<nat>)
    returns (result': seq<nat>, ghost from': seq<nat>)
    requires Selected(g, dist, cands, m, i, l, a, result, from) && a < |cands| && |result| < m
    ensures Selected(g, dist, cands, m, i, l, a + 1, result', from')
  {
    var keep := IsKept(g, dist, cands[a], result);
    SelectStep(g, dist, cands, m, i, l, a, result, from, keep);
    result', from' := result, from;
    if keep {
      result', from' := result + [cands[a].node], from + [a];
    }
  }

  ghost predicate Selected(g: Graph, dist: Metric, cands: seq<Candidate>, m: nat, i: nat, l: nat, n: nat,
                           result: seq<nat>, from: seq<nat>)
  {
    && n <= |cands| && CandidatesOk(g, i, l, cands) && |result| <= m
    && Picks(g, cands, n, result, from) && Unshadowed(g, dist, cands, result, from) && Covered(g, dist, cands, n, result, from)
    && (n > 0 && m > 0 ==> |result| > 0 && result[0] == cands[0].node)
  }

  /** result are the nodes of the candidates at the ascending indices from, below n. */
  ghost predicate Picks(g: Graph, cands: seq<Candidate>, n: nat, result: seq<nat>, from: seq<nat>)
  {
    && n <= |cands| && |from| == |result| && (forall a :: 0 <= a < |cands| ==> cands[a].node < |g|)
    && (forall j :: 0 <= j < |result| ==> from[j] < n && result[j] == cands[from[j]].node)
    && (forall a, b :: 0 <= a < b < |from| ==> from[a] < from[b])
  }

  ghost predicate Unshadowed(g: Graph, dist: Metric, cands: seq<Candidate>, result: seq<nat>, from: seq<nat>)
    requires Picks(g, cands, |cands|, result, from)
  {
    forall j :: 0 <= j < |result| ==> !Shadowed(g, dist, cands[from[j]], result[..j])
  }

  ghost predicate Covered(g: Graph, dist: Metric, cands: seq<Candidate>, n: nat, result: seq<nat>, from: seq<nat>)
    requires Picks(g, cands, n, result, from)
  {
    forall a :: 0 <= a < n ==> a in from || Shadowed(g, dist, cands[a], result)
  }

  lemma PickedEdges(g: Graph, i: nat, l: nat, cands: seq<Candidate>, n: nat, result: seq<nat>, from: seq<nat>)
    requires CandidatesOk(g, i, l, cands) && Picks(g, cands, n, result, from)
    ensures EdgesOk(g, i, l, result)
  {
    forall a, b | 0 <= a < b < |result| ensures result[a] != result[b] {
      assert from[a] < from[b];
    }
  }

  lemma PickMore(g: Graph, cands: seq<Candidate>, n: nat, result: seq<nat>, from: seq<nat>)
    requires Picks(g, cands, n, result, from) && n < |cands|
    ensures Picks(g, cands, n + 1, result + [cands[n].node], from + [n]) && Picks(g, cands, n + 1, result, from)
  {
  }

  lemma UnshadowedMore(g: Graph, dist: Metric, cands: seq<Candidate>, n: nat, result: seq<nat>, from: seq<nat>)
    requires Picks(g, cands, |cands|, result, from) && Unshadowed(g, dist, cands, result, from)
    requires n < |cands| && !Shadowed(g, dist, cands[n], result) && Picks(g, cands, |cands|, result + [cands[n].node], from + [n])
    ensures Unshadowed(g, dist, cands, result + [cands[n].node], from + [n])
  {
    var r, f := result + [cands[n].node], from + [n];
    assert result[..|result|] == result;
    forall j | 0 <= j < |r| ensures !Shadowed(g, dist, cands[f[j]], r[..j]) {
      assert r[..j] == result[..j];
    }
  }

  lemma CoveredMore(g: Graph, dist: Metric, cands: seq<Candidate>, n: nat, result: seq<nat>, from: seq<nat>)
    requires Picks(g, cands, n, result, from) && Covered(g, dist, cands, n, result, from)
    requires n < |cands| && Picks(g, cands, n + 1, result + [cands[n].node], from + [n])
    ensures Covered(g, dist, cands, n + 1, result + [cands[n].node], from + [n])
  {
    var r, f := result + [cands[n].node], from + [n];
    forall a | 0 <= a < n + 1 ensures a in f || Shadowed(g, dist, cands[a], r) {
      if a < n {
        ShadowedMore(g, dist, cands[a], result, cands[n].node);
        InMore(from, n, a);
      } else {
        assert f[|from|] == n;
      }
    }
  }

  method IsKept(g: Graph, dist: Metric, c: Candidate, result: seq<nat>) returns (keep: bool)
    requires c.node < |g| && forall j :: 0 <= j < |result| ==> result[j] < |g|
    ensures keep <==> !Shadowed(g, dist, c, result)
  {
    keep := true;
    for j := 0 to |result|
      invariant keep && forall k :: 0 <= k < j ==> dist(g[c.node].vec, g[result[k]].vec) >= c.dist
    {
      if dist(g[c.node].vec, g[result[j]].vec) < c.dist {
        keep := false;
        break;
      }
    }
  }

  lemma SelectStep(g: Graph, dist: Metric, cands: seq<Candidate>, m: nat, i: nat, l: nat, n: nat,
                   result: seq<nat>, from: seq<nat>, keep: bool)
    requires Selected(g, dist, cands, m, i, l, n, result, from) && n < |cands| && |result| < m
    requires keep <==> !Shadowed(g, dist, cands[n], result)
    ensures if keep then Selected(g, dist, cands, m, i, l, n + 1, result + [cands[n].node], from + [n])
            else Selected(g, dist, cands, m, i, l, n + 1, result, from)
  {
    if keep { SelectKeep(g, dist, cands, m, i, l, n, result, from); }
  }

  lemma ShadowedMore(g: Graph, dist: Metric, c: Candidate, kept: seq<nat>, x: nat)
    requires c.node < |g| && x < |g| && forall j :: 0 <= j < |kept| ==> kept[j] < |g|
    ensures Shadowed(g, dist, c, kept) ==> Shadowed(g, dist, c, kept + [x])
  {
    if Shadowed(g, dist, c, kept) {
      var j :| 0 <= j < |kept| && dist(g[c.node].vec, g[kept[j]].vec) < c.dist;
      assert (kept + [x])[j] == kept[j];
    }
  }

  lemma SelectKeep(g: Graph, dist: Metric, cands: seq<Candidate>, m: nat, i: nat, l: nat, n: nat, result: seq<nat>, from: seq<nat>)
    requires Selected(g, dist, cands, m, i, l, n, result, from) && n < |cands| && |result| < m && !Shadowed(g, dist, cands[n], result)
    ensures Selected(g, dist, cands, m, i, l, n + 1, result + [cands[n].node], from + [n])
  {
    PickMore(g, cands, n, result, from);
    UnshadowedMore(g, dist, cands, n, result, from);
    CoveredMore(g, dist, cands, n, result, from);
  }

  lemma InMore(from: seq<nat>, n: nat, a: nat)
    ensures a in from ==> a in from + [n]
  {
  }

  // ----- edits

  ghost function SetOf(ns: seq<nat>): set<nat>
  {
    set x | x in ns
  }

  method Prune(g: Graph, dist: Metric, idx: nat, l: nat, ns: seq<nat>, mMax: nat) returns (ns': seq<nat>)
    requires idx < |g| && EdgesOk(g, idx, l, ns)
    ensures EdgesOk(g, idx, l, ns') && |ns'| <= mMax && forall x :: x in ns' ==> x in ns
    ensures ns != [] && mMax > 0 ==> ns' != []
    ensures Chosen(g, dist, idx, SetOf(ns), ns', mMax)
  {
    var cands := [];
    for i := 0 to |ns|
      invariant |cands| == i && forall a :: 0 <= a < i ==> cands[a] == Candidate(ns[a], dist(g[idx].vec, g[ns[a]].vec))
    {
      cands := cands + [Candidate(ns[i], dist(g[idx].vec, g[ns[i]].vec))];
    }
    NearerIsWeakOrder();
    var sorted := SortBy(cands, Nearer);
    SortedCandidates(cands, sorted, ns);
    assert CandidatesOk(g, idx, l, sorted) by {
      forall a | 0 <= a < |sorted| ensures InLayer(g, sorted[a].node, l) && sorted[a].node != idx {
        assert sorted[a].node in ns;
      }
    }
    ghost var from;
    ns', from := SelectNeighbors(g, dist, sorted, mMax, idx, l);
    PrunedFrom(g, dist, idx, cands, sorted, ns);
    assert forall j :: 0 <= j < |ns'| ==> ns'[j] in SetOf(ns);
  }

  lemma PrunedFrom(g: Graph, dist: Metric, idx: nat, cands: seq<Candidate>, sorted: seq<Candidate>, ns: seq<nat>)
    requires idx < |g| && |cands| == |ns| && multiset(cands) == multiset(sorted) && InOrder(sorted, Nearer)
    requires forall a :: 0 <= a < |ns| ==> ns[a] < |g| && cands[a] == Candidate(ns[a], dist(g[idx].vec, g[ns[a]].vec))
    ensures FromQuery(g, dist, idx, sorted) && NodesOf(sorted) == SetOf(ns)
  {
    forall c ensures c in sorted <==> c in cands {
      assert c in multiset(sorted) <==> c in multiset(cands);
    }
    forall a | 0 <= a < |sorted| ensures sorted[a].node < |g| && sorted[a].dist == Between(g, dist, idx, sorted[a].node) {
      assert sorted[a] in cands;
    }
    forall x ensures x in NodesOf(sorted) <==> x in SetOf(ns) {
      if x in NodesOf(sorted) {
        var a :| 0 <= a < |sorted| && sorted[a].node == x;
        assert sorted[a] in cands;
      }
      if x in SetOf(ns) {
        var a :| 0 <= a < |ns| && ns[a] == x;
        assert cands[a] in sorted;
      }
    }
  }

  lemma SortedCandidates(cands: seq<Candidate>, sorted: seq<Candidate>, ns: seq<nat>)
    requires multiset(cands) == multiset(sorted) && |cands| == |ns| && NoRepeats(ns)
    requires forall a :: 0 <= a < |ns| ==> cands[a].node == ns[a]
    ensures |sorted| == |ns| && forall a :: 0 <= a < |sorted| ==> sorted[a].node in ns
    ensures forall a, b :: 0 <= a < b < |sorted| ==> sorted[a].node != sorted[b].node
  {
    assert |multiset(cands)| == |multiset(sorted)|;
    forall a | 0 <= a < |sorted| ensures sorted[a].node in ns {
      assert sorted[a] in multiset(cands);
      assert sorted[a] in cands;
    }
    forall a, b | 0 <= a < b < |sorted| ensures sorted[a].node != sorted[b].node {
      var x, y := sorted[a], sorted[b];
      assert x in multiset(cands) && y in multiset(cands);
      var i :| 0 <= i < |cands| && cands[i] == x;
      var j :| 0 <= j < |cands| && cands[j] == y;
      if i == j { RepeatsShow(cands, sorted, a, b, i); }
    }
  }

  lemma RepeatsShow(cands: seq<Candidate>, sorted: seq<Candidate>, a: nat, b: nat, i: nat)
    requires multiset(cands) == multiset(sorted) && a < b < |sorted| && i < |cands| && sorted[a] == sorted[b] == cands[i]
    ensures exists j :: 0 <= j < |cands| && j != i && cands[j] == cands[i]
  {
    var x := cands[i];
    assert sorted == sorted[..b] + [x] + sorted[b + 1..];
    assert sorted[..b][a] == x;
    assert x in multiset(sorted[..b]);
    assert multiset(sorted)[x] >= 2;
    assert cands == cands[..i] + [x] + cands[i + 1..];
    assert multiset(cands)[x] == multiset(cands[..i])[x] + 1 + multiset(cands[i + 1..])[x];
    if x in cands[..i] {
      var j :| 0 <= j < i && cands[j] == x;
    } else {
      assert x in multiset(cands[i + 1..]);
      var j :| 0 <= j < |cands[i + 1..]| && cands[i + 1..][j] == x;
      assert cands[i + 1 + j] == x;
    }
  }

  // ----- insertion

  /** Only lists at layer l changed, and only by losing edges or gaining c. */
  ghost predicate Rewired(g: Graph, g': Graph, l: nat, c: nat)
  {
    && SameNodes(g, g')
    && forall i: nat, k: nat :: InLayer(g, i, k) && i != c ==>
         if k != l then g'[i].neighbors[k] == g[i].neighbors[k]
         else forall x :: x in g'[i].neighbors[k] ==> x in g[i].neighbors[k] || x == c
  }

  /** Every old node keeps its lists but for edges lost to pruning and edges to c. */
  ghost predicate OnlyGains(g: Graph, g': Graph, c: nat)
  {
    && |g| == |g'| && (forall i :: 0 <= i < |g| ==> |g[i].neighbors| == |g'[i].neighbors|)
    && forall i: nat, k: nat, x :: InLayer(g, i, k) && i != c && x in g'[i].neighbors[k] ==> x in g[i].neighbors[k] || x == c
  }

  lemma RewiredOnlyGains(g: Graph, g1: Graph, g2: Graph, l: nat, c: nat)
    requires OnlyGains(g, g1, c) && Rewired(g1, g2, l, c)
    ensures OnlyGains(g, g2, c)
  {
    forall i: nat, k: nat, x | InLayer(g, i, k) && i != c && x in g2[i].neighbors[k]
      ensures x in g[i].neighbors[k] || x == c
    {
      assert InLayer(g1, i, k);
    }
  }

  /** Adds the back edge x -> cur, pruning x's list to its budget. */
  method Link(g: Graph, dist: Metric, m: nat, x: nat, cur: nat, l: nat) returns (g': Graph)
    requires GraphOk(g, m) && m > 0 && InLayer(g, x, l) && InLayer(g, cur, l) && x != cur && cur !in g[x].neighbors[l]
    ensures GraphOk(g', m) && SameNodes(g, g') && InLayer(g', x, l)
    ensures forall i :: 0 <= i < |g| && i != x ==> g'[i] == g[i]
    ensures forall k :: 0 <= k < |g[x].neighbors| && k != l ==> g'[x].neighbors[k] == g[x].neighbors[k]
    ensures forall y :: y in g'[x].neighbors[l] ==> y in g[x].neighbors[l] || y == cur
    ensures |g[x].neighbors[l]| < Cap(m, l) ==> g'[x].neighbors[l] == g[x].neighbors[l] + [cur]
    ensures |g[x].neighbors[l]| == Cap(m, l) ==> Chosen(g', dist, x, SetOf(g[x].neighbors[l]) + {cur}, g'[x].neighbors[l], Cap(m, l))
  {
    var mMax := Cap(m, l);
    assert ListOk(g, m, x, l);
    var ns := g[x].neighbors[l] + [cur];
    if |ns| > mMax {
      ns := Prune(g, dist, x, l, ns, mMax);
    }
    SetListKeeps(g, m, x, l, ns);
    g' := SetList(g, x, l, ns);
    assert SetOf(g[x].neighbors[l] + [cur]) == SetOf(g[x].neighbors[l]) + {cur};
    if |g[x].neighbors[l]| == mMax { ChosenSame(g, g', dist, x, SetOf(g[x].neighbors[l]) + {cur}, ns, mMax); }
  }

  /** Adds the back edges from the selected neighbours. */
  method LinkAll(g: Graph, dist: Metric, m: nat, selected: seq<nat>, cur: nat, l: nat) returns (g': Graph)
    requires GraphOk(g, m) && m > 0 && InLayer(g, cur, l) && EdgesOk(g, cur, l, selected)
    requires forall i: nat :: InLayer(g, i, l) ==> cur !in g[i].neighbors[l]
    ensures GraphOk(g', m) && Rewired(g, g', l, cur) && g'[cur] == g[cur]
    ensures forall x: nat :: InLayer(g, x, l) && x != cur ==> Linked(g, g', dist, m, x, cur, l, x in selected)
  {
    g' := g;
    for j := 0 to |selected|
      invariant GraphOk(g', m) && Rewired(g, g', l, cur) && g'[cur] == g[cur]
      invariant forall k :: j <= k < |selected| ==> g'[selected[k]] == g[selected[k]]
      invariant forall x: nat :: InLayer(g, x, l) && x != cur ==> Linked(g, g', dist, m, x, cur, l, x in selected[..j])
    {
      ghost var before := g';
      g' := Link(g', dist, m, selected[j], cur, l);
      LinkedMore(g, before, g', dist, m, selected, j, cur, l);
    }
    assert selected[..|selected|] == selected;
  }

  /** A selected node with room gained the edge to cur at the end of its list; a full one chose anew among
      its neighbours and cur; a node not selected is as it was. */
  ghost predicate Linked(g: Graph, g': Graph, dist: Metric, m: nat, x: nat, cur: nat, l: nat, selected: bool)
    requires InLayer(g, x, l)
  {
    InLayer(g', x, l) &&
    if selected then
      var budget := if l == 0 then 2 * m else m;
      && (|g[x].neighbors[l]| < budget ==> g'[x].neighbors[l] == g[x].neighbors[l] + [cur])
      && (|g[x].neighbors[l]| == budget ==> Chosen(g', dist, x, SetOf(g[x].neighbors[l]) + {cur}, g'[x].neighbors[l], budget))
    else g'[x].neighbors[l] == g[x].neighbors[l]
  }

  /** At layer l exactly the chosen neighbours of cur were touched, and linked back. */
  ghost predicate Wired(g: Graph, g': Graph, dist: Metric, m: nat, cur: nat, l: nat)
  {
    InLayer(g', cur, l) && forall x: nat :: InLayer(g, x, l) && x != cur ==> Linked(g, g', dist, m, x, cur, l, x in g'[cur].neighbors[l])
  }

  lemma LinkedMore(g: Graph, before: Graph, g': Graph, dist: Metric, m: nat, selected: seq<nat>, j: nat, cur: nat, l: nat)
    requires j < |selected| && NoRepeats(selected) && InLayer(g, selected[j], l) && SameNodes(g, before) && SameNodes(before, g')
    requires before[selected[j]] == g[selected[j]]
    requires forall i :: 0 <= i < |g| && i != selected[j] ==> g'[i] == before[i]
    requires Linked(before, g', dist, m, selected[j], cur, l, true)
    requires forall x: nat :: InLayer(g, x, l) && x != cur ==> Linked(g, before, dist, m, x, cur, l, x in selected[..j])
    ensures forall x: nat :: InLayer(g, x, l) && x != cur ==> Linked(g, g', dist, m, x, cur, l, x in selected[..j + 1])
  {
    assert selected[..j + 1] == selected[..j] + [selected[j]];
    forall x: nat | InLayer(g, x, l) && x != cur ensures Linked(g, g', dist, m, x, cur, l, x in selected[..j + 1]) {
      assert Linked(g, before, dist, m, x, cur, l, x in selected[..j]);
      LinkedStays(g, before, g', dist, m, x, cur, l, x in selected[..j]);
    }
  }

  /** A node whose lists do not change stays linked. */
  lemma LinkedStays(g: Graph, before: Graph, g': Graph, dist: Metric, m: nat, x: nat, cur: nat, l: nat, chosen: bool)
    requires InLayer(g, x, l) && Linked(g, before, dist, m, x, cur, l, chosen) && SameNodes(before, g')
    ensures InLayer(g', x, l) && g'[x].neighbors[l] == before[x].neighbors[l] ==> Linked(g, g', dist, m, x, cur, l, chosen)
  {
    if chosen && |g[x].neighbors[l]| == Cap(m, l) {
      ChosenSame(before, g', dist, x, SetOf(g[x].neighbors[l]) + {cur}, before[x].neighbors[l], Cap(m, l));
    }
  }

  lemma ListsNodes(out: seq<Candidate>, s: set<nat>, ds: seq<real>)
    requires Lists(out, s, ds)
    ensures forall a :: 0 <= a < |out| ==> out[a].node in s && out[a].dist == ds[out[a].node]
    ensures forall a, b :: 0 <= a < b < |out| ==> out[a].node != out[b].node
  {
    var cs := Candidates(s, ds);
    forall a | 0 <= a < |out| ensures out[a] in cs {
      assert out[a] in multiset(out);
    }
    forall a, b | 0 <= a < b < |out| ensures out[a].node != out[b].node {
      Ranking.NoRepeats(out, cs, a, b);
      assert out[a] in cs && out[b] in cs;
    }
  }

  /** Wires the new node cur into layer l. */
  method Connect(g: Graph, dist: Metric, m: nat, efConstruction: nat, cur: nat, ep: nat, l: nat)
    returns (g': Graph, ep': nat, ghost seen: set<nat>, ghost kept: set<nat>)
    requires GraphOk(g, m) && m > 0 && efConstruction > 0
    requires InLayer(g, cur, l) && InLayer(g, ep, l) && ep != cur && Unlinked(g, cur, l)
    ensures GraphOk(g', m) && Rewired(g, g', l, cur)
    ensures InLayer(g', ep', l) && ep' != cur
    ensures forall k :: 0 <= k < |g[cur].neighbors| && k != l ==> g'[cur].neighbors[k] == g[cur].neighbors[k]
    ensures g'[cur].neighbors[l] != [] && Wired(g, g', dist, m, cur, l)
    ensures Settled(g, l, ep, efConstruction, Distances(g, dist, g[cur].vec), seen, kept)
    ensures ep' in kept && (forall x :: x in kept ==> dist(g[cur].vec, g[ep'].vec) <= dist(g[cur].vec, g[x].vec))
    ensures g'[cur].neighbors[l][0] == ep' && forall x :: x in g'[cur].neighbors[l] ==> x in kept
    ensures Chosen(g', dist, cur, kept, g'[cur].neighbors[l], m)
  {
    var cands;
    cands, seen, kept := SearchLayer(g, dist, g[cur].vec, ep, efConstruction, l, m);
    FoundOk(g, l, ep, cur, efConstruction, Distances(g, dist, g[cur].vec), seen, kept, cands);
    FirstIsNearest(cands, kept, Distances(g, dist, g[cur].vec));
    var selected, from := SelectNeighbors(g, dist, cands, m, cur, l);
    forall x | x in selected ensures x in kept {
      var j :| 0 <= j < |selected| && selected[j] == x;
      ListsNodes(cands, kept, Distances(g, dist, g[cur].vec));
      assert x == cands[from[j]].node;
    }
    ListsFromQuery(g, dist, cur, cands, kept);
    g' := Wire(g, dist, m, selected, cur, l);
    ChosenSame(g, g', dist, cur, kept, selected, m);
    ep' := cands[0].node;
  }

  lemma ListsFromQuery(g: Graph, dist: Metric, cur: nat, cands: seq<Candidate>, kept: set<nat>)
    requires cur < |g| && Lists(cands, kept, Distances(g, dist, g[cur].vec)) && InOrder(cands, Nearer) && Within(kept, |g|)
    ensures FromQuery(g, dist, cur, cands) && NodesOf(cands) == kept
  {
    ListsNodes(cands, kept, Distances(g, dist, g[cur].vec));
    NodesAre(cands, kept, Distances(g, dist, g[cur].vec));
  }

  // ----- what the new node's own list is

  /** The new node's list at layer l is chosen among what a search from ep of the layer as it was kept. */
  ghost predicate Found(g: Graph, g': Graph, dist: Metric, m: nat, ef: nat, cur: nat, l: nat, ep: nat)
    requires cur < |g|
  {
    InLayer(g', cur, l) && exists seen, kept {:trigger Settled(g, l, ep, ef, Distances(g, dist, g[cur].vec), seen, kept)} ::
      && Settled(g, l, ep, ef, Distances(g, dist, g[cur].vec), seen, kept)
      && Chosen(g', dist, cur, kept, g'[cur].neighbors[l], m)
  }

  ghost predicate SameLayer(g: Graph, g': Graph, l: nat)
  {
    SameNodes(g, g') && forall i: nat :: InLayer(g, i, l) ==> g'[i].neighbors[l] == g[i].neighbors[l]
  }

  lemma ReachesSame(g: Graph, g': Graph, l: nat, a: nat, b: nat)
    requires SameLayer(g, g', l) && Reaches(g, l, a, b)
    ensures Reaches(g', l, a, b)
  {
    var p :| Path(g, l, p) && p[0] == a && p[|p| - 1] == b;
    assert Path(g', l, p);
  }

  lemma SettledSame(g: Graph, g': Graph, l: nat, ep: nat, ef: nat, ds: seq<real>, seen: set<nat>, kept: set<nat>)
    requires SameLayer(g, g', l) && Settled(g, l, ep, ef, ds, seen, kept)
    ensures Settled(g', l, ep, ef, ds, seen, kept)
  {
    forall x | x in seen ensures InLayer(g', x, l) && Reaches(g', l, ep, x) {
      ReachesSame(g, g', l, ep, x);
    }
    forall x | x in kept ensures Expanded(g', l, seen, x) {
      assert Expanded(g, l, seen, x);
    }
  }

  lemma FoundSame(g: Graph, g1: Graph, g2: Graph, dist: Metric, m: nat, ef: nat, cur: nat, l: nat, ep: nat)
    requires cur < |g| && Found(g, g1, dist, m, ef, cur, l, ep) && SameNodes(g1, g2) && g2[cur].neighbors[l] == g1[cur].neighbors[l]
    ensures Found(g, g2, dist, m, ef, cur, l, ep)
  {
    var seen, kept :| Settled(g, l, ep, ef, Distances(g, dist, g[cur].vec), seen, kept)
                          && Chosen(g1, dist, cur, kept, g1[cur].neighbors[l], m);
    ChosenSame(g1, g2, dist, cur, kept, g1[cur].neighbors[l], m);
  }

  /** A search on a graph whose layer l is still the old one is a search of the old one. */
  lemma FoundOn(g: Graph, g1: Graph, g2: Graph, dist: Metric, m: nat, ef: nat, cur: nat, l: nat, ep: nat, seen: set<nat>, kept: set<nat>)
    requires cur < |g| && SameLayer(g1, g, l) && InLayer(g2, cur, l)
    requires Settled(g1, l, ep, ef, Distances(g1, dist, g1[cur].vec), seen, kept) && Chosen(g2, dist, cur, kept, g2[cur].neighbors[l], m)
    ensures Found(g, g2, dist, m, ef, cur, l, ep)
  {
    assert Distances(g1, dist, g1[cur].vec) == Distances(g, dist, g[cur].vec);
    SettledSame(g1, g, l, ep, ef, Distances(g1, dist, g1[cur].vec), seen, kept);
  }

  method Wire(g: Graph, dist: Metric, m: nat, selected: seq<nat>, cur: nat, l: nat) returns (g': Graph)
    requires GraphOk(g, m) && 0 < m && |selected| <= m && InLayer(g, cur, l) && EdgesOk(g, cur, l, selected) && Unlinked(g, cur, l)
    ensures GraphOk(g', m) && Rewired(g, g', l, cur)
    ensures forall k :: 0 <= k < |g[cur].neighbors| && k != l ==> g'[cur].neighbors[k] == g[cur].neighbors[k]
    ensures g'[cur].neighbors[l] == selected && Wired(g, g', dist, m, cur, l)
  {
    SetListKeeps(g, m, cur, l, selected);
    var g1 := SetList(g, cur, l, selected);
    g' := LinkAll(g1, dist, m, selected, cur, l);
    forall i: nat, k: nat | InLayer(g, i, k) && i != cur ensures InLayer(g1, i, k) && g1[i] == g[i] {
    }
    forall x: nat | InLayer(g, x, l) && x != cur ensures Linked(g, g', dist, m, x, cur, l, x in g'[cur].neighbors[l]) {
      assert Linked(g1, g', dist, m, x, cur, l, x in selected);
    }
  }

  lemma FirstIsNearest(cands: seq<Candidate>, kept: set<nat>, ds: seq<real>)
    requires Lists(cands, kept, ds) && InOrder(cands, Nearer) && |cands| > 0
    ensures cands[0].node in kept && forall x :: x in kept ==> ds[cands[0].node] <= ds[x]
  {
    ListsNodes(cands, kept, ds);
    NodesAre(cands, kept, ds);
    forall x | x in kept ensures ds[cands[0].node] <= ds[x] {
      assert x in NodesOf(cands);
      var j :| 0 <= j < |cands| && cands[j].node == x;
      if j > 0 { assert !Nearer(cands[j], cands[0]); }
    }
  }

  lemma FoundOk(g: Graph, l: nat, ep: nat, cur: nat, ef: nat, ds: seq<real>, seen: set<nat>, kept: set<nat>, cands: seq<Candidate>)
    requires Settled(g, l, ep, ef, ds, seen, kept) && Lists(cands, kept, ds) && Unlinked(g, cur, l) && ep != cur
    ensures CandidatesOk(g, cur, l, cands) && |cands| > 0
  {
    ListsNodes(cands, kept, ds);
    ListSize(cands, kept, ds);
    KeptIsFull(kept, seen, ef, ds);
    forall a | 0 <= a < |cands| ensures InLayer(g, cands[a].node, l) && cands[a].node != cur {
      var x := cands[a].node;
      assert x in seen && Reaches(g, l, ep, x);
      if x == cur { UnlinkedUnreached(g, l, ep, cur); }
    }
  }

  lemma RewiredKeepsUnlinked(g: Graph, g': Graph, cur: nat, l: nat)
    requires l > 0 && Unlinked(g, cur, l) && Rewired(g, g', l, cur) && cur < |g|
    requires forall k :: 0 <= k < |g[cur].neighbors| && k != l ==> g'[cur].neighbors[k] == g[cur].neighbors[k]
    ensures Unlinked(g', cur, l - 1)
  {
    forall i: nat, k: nat | InLayer(g', i, k) && k <= l - 1 ensures cur !in g'[i].neighbors[k] {
      assert InLayer(g, i, k);
    }
  }

  /** The layers above lc are wired, those at or below it untouched. */
  ghost predicate LayersDone(g: Graph, g': Graph, dist: Metric, m: nat, cur: nat, lc: int, top: nat)
  {
    && SameNodes(g, g')
    && (forall l: nat {:trigger Wired(g, g', dist, m, cur, l)} :: lc < l <= top ==> Wired(g, g', dist, m, cur, l))
    && (forall x: nat, k: nat :: InLayer(g, x, k) && k <= lc && x != cur ==> g'[x].neighbors[k] == g[x].neighbors[k])
  }

  lemma LayerWired(g: Graph, g1: Graph, g2: Graph, dist: Metric, m: nat, cur: nat, lc: nat, top: nat)
    requires LayersDone(g, g1, dist, m, cur, lc, top) && Rewired(g1, g2, lc, cur) && Wired(g1, g2, dist, m, cur, lc) && cur < |g| && lc <= top
    requires forall k :: 0 <= k < |g1[cur].neighbors| && k != lc ==> g2[cur].neighbors[k] == g1[cur].neighbors[k]
    ensures LayersDone(g, g2, dist, m, cur, lc - 1, top)
  {
    forall l: nat | lc - 1 < l <= top ensures Wired(g, g2, dist, m, cur, l) {
      if l > lc { assert Wired(g, g1, dist, m, cur, l); }
      forall x: nat | InLayer(g, x, l) && x != cur ensures Linked(g, g2, dist, m, x, cur, l, x in g2[cur].neighbors[l]) {
        assert InLayer(g1, x, l);
        if l == lc {
          assert Linked(g1, g2, dist, m, x, cur, l, x in g2[cur].neighbors[l]);
        } else {
          assert Linked(g, g1, dist, m, x, cur, l, x in g1[cur].neighbors[l]);
          LinkedStays(g, g1, g2, dist, m, x, cur, l, x in g1[cur].neighbors[l]);
        }
      }
    }
    forall x: nat, k: nat | InLayer(g, x, k) && k <= lc - 1 && x != cur ensures g2[x].neighbors[k] == g[x].neighbors[k] {
      assert InLayer(g1, x, k);
    }
  }

  datatype Neighbor = Neighbor(id: nat, dist: real)

  ghost function NodesOf(cands: seq<Candidate>): set<nat>
  {
    set j | 0 <= j < |cands| :: cands[j].node
  }

  /** best lists the k nearest of seen, nearest first. */
  ghost predicate Ranks(best: seq<Candidate>, seen: set<nat>, k: nat, ds: seq<real>)
  {
    && (forall a, b :: 0 <= a < b < |best| ==> best[a].dist <= best[b].dist)
    && IsNearest(NodesOf(best), seen, k, ds) && |best| == |NodesOf(best)|
    && forall j :: 0 <= j < |best| ==> best[j].node < |ds| && best[j].dist == ds[best[j].node]
  }

  /** The answer to a query: the k nearest of the nodes seen by a settled search from the bottom entry,
      which are all the nodes reachable from it when the working set is as large as the graph. */
  ghost predicate Answers(g: Graph, dist: Metric, q: Vec, k: nat, ef: nat, ep: nat, seen: set<nat>, best: seq<Candidate>, out: seq<Neighbor>)
  {
    && InLayer(g, ep, 0) && ep in seen && (forall x :: x in seen ==> Reaches(g, 0, ep, x))
    && (exists kept {:trigger Settled(g, 0, ep, ef, Distances(g, dist, q), seen, kept)} :: Settled(g, 0, ep, ef, Distances(g, dist, q), seen, kept))
    && (|g| <= ef ==> forall x :: x in seen <==> Reaches(g, 0, ep, x))
    && Ranks(best, seen, k, Distances(g, dist, q))
    && |out| == |best| && forall j :: 0 <= j < |out| ==> out[j] == Neighbor(g[best[j].node].id, best[j].dist)
  }

  lemma {:induction false} NodesCount(cands: seq<Candidate>)
    requires forall a, b :: 0 <= a < b < |cands| ==> cands[a].node != cands[b].node
    ensures |NodesOf(cands)| == |cands|
  {
    if cands == [] {
      assert NodesOf(cands) == {};
    } else {
      var n := |cands| - 1;
      NodesCount(cands[..n]);
      assert NodesOf(cands) == NodesOf(cands[..n]) + {cands[n].node};
    }
  }

  lemma NodesAre(cands: seq<Candidate>, s: set<nat>, ds: seq<real>)
    requires Lists(cands, s, ds)
    ensures NodesOf(cands) == s
  {
    ListsNodes(cands, s, ds);
    forall x | x in s ensures x in NodesOf(cands) {
      assert Candidate(x, ds[x]) in multiset(cands);
      var j :| 0 <= j < |cands| && cands[j] == Candidate(x, ds[x]);
    }
  }

  /** The first k of the sorted result are the k nearest seen. */
  lemma FirstRanks(ef: nat, ds: seq<real>, seen: set<nat>, kept: set<nat>, cands: seq<Candidate>, k: nat)
    requires IsNearest(kept, seen, ef, ds) && Lists(cands, kept, ds) && InOrder(cands, Nearer) && k <= ef
    ensures Ranks(Ranking.First(cands, k), seen, k, ds)
  {
    var best := Ranking.First(cands, k);
    ListsNodes(cands, kept, ds);
    NodesAre(cands, kept, ds);
    NodesCount(cands);
    NodesCount(best);
    forall x, y | x in NodesOf(best) && y in seen && y !in NodesOf(best) ensures ds[x] <= ds[y] {
      if y in kept { FirstBeatsRest(cands, k, ds, x, y); }
    }
  }

  lemma FirstBeatsRest(cands: seq<Candidate>, k: nat, ds: seq<real>, x: nat, y: nat)
    requires InOrder(cands, Nearer) && x in NodesOf(Ranking.First(cands, k)) && y in NodesOf(cands) && y !in NodesOf(Ranking.First(cands, k))
    requires forall j :: 0 <= j < |cands| ==> cands[j].node < |ds| && cands[j].dist == ds[cands[j].node]
    ensures ds[x] <= ds[y]
  {
    var i :| 0 <= i < |Ranking.First(cands, k)| && Ranking.First(cands, k)[i].node == x;
    var j :| 0 <= j < |cands| && cands[j].node == y;
    assert forall a :: 0 <= a < |Ranking.First(cands, k)| ==> Ranking.First(cands, k)[a].node != y;
    assert !Nearer(cands[j], cands[i]);
  }

  lemma FirstAnswer(g: Graph, dist: Metric, q: Vec, ep: nat, ef: nat, seen: set<nat>, kept: set<nat>, cands: seq<Candidate>,
                    k: nat, out: seq<Neighbor>)
    requires Settled(g, 0, ep, ef, Distances(g, dist, q), seen, kept) && Lists(cands, kept, Distances(g, dist, q))
    requires InOrder(cands, Nearer) && k <= ef
    requires |out| == |Ranking.First(cands, k)|
    requires forall j :: 0 <= j < |out| ==> cands[j].node < |g| && out[j] == Neighbor(g[cands[j].node].id, cands[j].dist)
    ensures Answers(g, dist, q, k, ef, ep, seen, Ranking.First(cands, k), out)
  {
    FirstRanks(ef, Distances(g, dist, q), seen, kept, cands, k);
    if |g| <= ef {
      WideSearchIsExact(g, 0, ep, ef, Distances(g, dist, q), seen, kept);
      BoundedCard(seen, |g|);
      Ranking.SubsetSize(kept, seen);
    }
  }

  /** Down the upper layers, one greedy choice each. */
  method DescendAll(g: Graph, dist: Metric, q: Vec, entry: nat, ghost m: nat) returns (e: nat, ghost path: seq<nat>)
    requires GraphOk(g, m) && entry < |g|
    ensures InLayer(g, e, 0) && |path| == |g[entry].neighbors| && path[0] == entry && path[|path| - 1] == e
    ensures Descent(g, dist, q, |g[entry].neighbors| - 1, path)
  {
    e := entry;
    var lc := |g[entry].neighbors| - 1;
    ghost var top := lc;
    path := [e];
    while lc > 0
      invariant 0 <= lc <= top && InLayer(g, e, lc)
      invariant |path| == top - lc + 1 && path[0] == entry && path[|path| - 1] == e && Descent(g, dist, q, top, path)
      decreases lc
    {
      var next := GreedyClosest(g, dist, q, e, lc, m);
      DescentMore(g, dist, q, top, path, next);
      e, path := next, path + [next];
      lc := lc - 1;
    }
  }

  /** The wide search of layer 0, cut to k. */
  method SearchBottom(g: Graph, dist: Metric, q: Vec, e: nat, k: nat, ef: nat, ghost m: nat)
    returns (out: seq<Neighbor>, ghost seen: set<nat>, ghost best: seq<Candidate>)
    requires GraphOk(g, m) && InLayer(g, e, 0) && 0 < k <= ef
    ensures Answers(g, dist, q, k, ef, e, seen, best, out)
  {
    var cands, s, kept := SearchLayer(g, dist, q, e, ef, 0, m);
    ListsNodes(cands, kept, Distances(g, dist, q));
    ghost var all := cands;
    if |cands| > k {
      cands := cands[..k];
    }
    out := [];
    for i := 0 to |cands|
      invariant |out| == i && forall j :: 0 <= j < i ==> out[j] == Neighbor(g[cands[j].node].id, cands[j].dist)
    {
      out := out + [Neighbor(g[cands[i].node].id, cands[i].dist)];
    }
    FirstAnswer(g, dist, q, e, ef, s, kept, all, k, out);
    seen, best := s, cands;
  }

  /** Where the search of layer l starts: at ep on the top layer, below it at the node found nearest on the
      layer above, which is the first neighbour there. */
  ghost function Start(g: Graph, cur: nat, l: nat, top: nat, ep: nat): nat
  {
    if l < top && InLayer(g, cur, l + 1) && g[cur].neighbors[l + 1] != [] then g[cur].neighbors[l + 1][0] else ep
  }

  ghost predicate FoundAt(g: Graph, g': Graph, dist: Metric, m: nat, ef: nat, cur: nat, l: nat, top: nat, ep: nat)
    requires cur < |g|
  {
    Found(g, g', dist, m, ef, cur, l, Start(g', cur, l, top, ep))
  }

  /** The new node's lists above lc are chosen, and those at or below it are as they were. */
  ghost predicate AllFound(g: Graph, g': Graph, dist: Metric, m: nat, ef: nat, cur: nat, lc: int, top: nat, ep: nat)
  {
    && cur < |g| && SameNodes(g, g')
    && (forall l: nat {:trigger FoundAt(g, g', dist, m, ef, cur, l, top, ep)} :: lc < l <= top ==> FoundAt(g, g', dist, m, ef, cur, l, top, ep))
    && (forall k: nat :: InLayer(g, cur, k) && k <= lc ==> g'[cur].neighbors[k] == g[cur].neighbors[k])
  }

  lemma FoundMore(g: Graph, g1: Graph, g2: Graph, dist: Metric, m: nat, ef: nat, cur: nat, lc: nat, top: nat, ep: nat, seen: set<nat>, kept: set<nat>)
    requires AllFound(g, g1, dist, m, ef, cur, lc, top, ep) && LayersDone(g, g1, dist, m, cur, lc, top) && SameNodes(g1, g2) && InLayer(g1, cur, lc)
    requires forall k :: 0 <= k < |g1[cur].neighbors| && k != lc ==> g2[cur].neighbors[k] == g1[cur].neighbors[k]
    requires Settled(g1, lc, Start(g1, cur, lc, top, ep), ef, Distances(g1, dist, g1[cur].vec), seen, kept)
    requires Chosen(g2, dist, cur, kept, g2[cur].neighbors[lc], m)
    ensures AllFound(g, g2, dist, m, ef, cur, lc - 1, top, ep)
  {
    OldLayer(g, g1, dist, m, ef, cur, lc, top, ep);
    forall l: nat | lc - 1 < l <= top ensures FoundAt(g, g2, dist, m, ef, cur, l, top, ep) {
      assert Start(g2, cur, l, top, ep) == Start(g1, cur, l, top, ep);
      if l == lc {
        FoundOn(g, g1, g2, dist, m, ef, cur, l, Start(g1, cur, lc, top, ep), seen, kept);
      } else {
        assert FoundAt(g, g1, dist, m, ef, cur, l, top, ep);
        FoundSame(g, g1, g2, dist, m, ef, cur, l, Start(g1, cur, l, top, ep));
      }
    }
  }

  lemma OldLayer(g: Graph, g1: Graph, dist: Metric, m: nat, ef: nat, cur: nat, lc: nat, top: nat, ep: nat)
    requires AllFound(g, g1, dist, m, ef, cur, lc, top, ep) && LayersDone(g, g1, dist, m, cur, lc, top)
    ensures SameLayer(g1, g, lc)
  {
    forall i: nat | InLayer(g1, i, lc) ensures g[i].neighbors[lc] == g1[i].neighbors[lc] {
      assert InLayer(g, i, lc);
    }
  }

  /** The layers above lc are wired, each from a search that started where the one above it ended. */
  ghost predicate Wiring(g0: Graph, g: Graph, dist: Metric, m: nat, ef: nat, cur: nat, lc: int, top: nat, ep0: nat)
  {
    && lc <= top && cur < |g0| && top < |g0[cur].neighbors|
    && GraphOk(g, m) && SameNodes(g0, g) && OnlyGains(g0, g, cur)
    && (forall l: nat :: lc < l <= top ==> g[cur].neighbors[l] != [])
    && LayersDone(g0, g, dist, m, cur, lc, top) && AllFound(g0, g, dist, m, ef, cur, lc, top, ep0)
  }

  /** The search of layer lc starts at ep. */
  ghost predicate StartsAt(g: Graph, cur: nat, lc: nat, top: nat, ep0: nat, ep: nat)
  {
    InLayer(g, ep, lc) && ep != cur && Unlinked(g, cur, lc) && ep == Start(g, cur, lc, top, ep0)
  }

  /** Connects a node on one layer. */
  method WireOne(ghost g0: Graph, g: Graph, dist: Metric, m: nat, ef: nat, cur: nat, ep: nat, lc: nat, ghost top: nat, ghost ep0: nat)
    returns (g': Graph, ep': nat)
    requires m > 0 && ef > 0 && Wiring(g0, g, dist, m, ef, cur, lc, top, ep0) && StartsAt(g, cur, lc, top, ep0, ep)
    ensures Wiring(g0, g', dist, m, ef, cur, lc - 1, top, ep0) && (lc > 0 ==> StartsAt(g', cur, lc - 1, top, ep0, ep'))
  {
    ghost var seen, kept;
    g', ep', seen, kept := Connect(g, dist, m, ef, cur, ep, lc);
    FoundMore(g0, g, g', dist, m, ef, cur, lc, top, ep0, seen, kept);
    LayerWired(g0, g, g', dist, m, cur, lc, top);
    RewiredOnlyGains(g0, g, g', lc, cur);
    if lc > 0 { RewiredKeepsUnlinked(g, g', cur, lc); }
  }

  /** Connects a node on the layers from top down, each search starting from the last one's nearest. */
  method WireLayers(g0: Graph, dist: Metric, m: nat, efConstruction: nat, cur: nat, level: nat, top: nat, ep0: nat) returns (g: Graph)
    requires m > 0 && efConstruction > 0 && GraphOk(g0, m) && top <= level
    requires cur < |g0| && |g0[cur].neighbors| == level + 1 && Unlinked(g0, cur, level)
    requires InLayer(g0, ep0, top) && ep0 != cur
    ensures Wiring(g0, g, dist, m, efConstruction, cur, -1, top, ep0)
  {
    g := g0;
    var lc: int, ep := top, ep0;
    while lc >= 0
      invariant -1 <= lc <= top && Wiring(g0, g, dist, m, efConstruction, cur, lc, top, ep0)
      invariant lc >= 0 ==> StartsAt(g, cur, lc, top, ep0, ep)
      decreases lc
    {
      g, ep := WireOne(g0, g, dist, m, efConstruction, cur, ep, lc, top, ep0);
      lc := lc - 1;
    }
  }

  /** path goes greedily down from entry at layer top until it is at layer level, if that is below. */
  ghost predicate Descended(g: Graph, dist: Metric, q: Vec, entry: nat, top: nat, level: nat, path: seq<nat>)
  {
    && |path| == (if level < top then top - level + 1 else 1) && path[0] == entry
    && Descent(g, dist, q, top, path)
  }

  /** How the last node of g got its lists in g': greedily down from the entry to its own level, then on
      every layer below chosen among what a search kept, which started at the nearest node found so far. */
  ghost predicate Placed(g: Graph, g': Graph, dist: Metric, m: nat, ef: nat, entry: int, level: nat, path: seq<nat>)
  {
    && 0 <= entry < |g| - 1 && |g[entry].neighbors| > 0
    && var cur, topLevel := |g| - 1, |g[entry].neighbors| - 1;
    && Descended(g, dist, g[cur].vec, entry, topLevel, level, path)
    && AllFound(g, g', dist, m, ef, cur, -1, if level < topLevel then level else topLevel, path[|path| - 1])
  }

  class Index {
    const m: nat
    const efConstruction: nat
    const efSearch: nat
    const dist: Metric
    var nodes: Graph
    var entry: int
    var dim: int

    /** Unset parameters take their defaults. */
    constructor (m: int, efConstruction: int, efSearch: int, dist: Metric)
      ensures Valid() && nodes == [] && this.dist == dist
      ensures this.m == (if m <= 0 then 16 else m)
      ensures this.efConstruction == (if efConstruction <= 0 then 200 else efConstruction)
      ensures this.efSearch == (if efSearch <= 0 then 50 else efSearch)
    {
      this.m := if m <= 0 then 16 else m;
      this.efConstruction := if efConstruction <= 0 then 200 else efConstruction;
      this.efSearch := if efSearch <= 0 then 50 else efSearch;
      this.dist := dist;
      nodes, entry, dim := [], -1, -1;
    }

    ghost predicate Valid()
      reads this
    {
      && m > 0 && efConstruction > 0 && efSearch > 0
      && GraphOk(nodes, m) && EntryOk(nodes, entry)
      && (nodes != [] ==> forall i :: 0 <= i < |nodes| ==> |nodes[i].vec| == dim)
    }

    /** Inserts v under id; a vector of another dimension is refused. */
    method Add(id: nat, v: Vec, level: nat) returns (ok: bool, ghost path: seq<nat>)
      requires Valid()
      modifies this
      ensures Valid()
      ensures ok <==> old(dim) == -1 || |v| == old(dim)
      ensures !ok ==> nodes == old(nodes) && entry == old(entry)
      ensures ok ==>
        && |nodes| == |old(nodes)| + 1 && nodes[|old(nodes)|].id == id && nodes[|old(nodes)|].vec == v
        && |nodes[|old(nodes)|].neighbors| == level + 1
        && (forall i :: 0 <= i < |old(nodes)| ==>
              && nodes[i].id == old(nodes)[i].id && nodes[i].vec == old(nodes)[i].vec
              && |nodes[i].neighbors| == |old(nodes)[i].neighbors|)
      ensures ok ==> forall i: nat, k: nat, x :: InLayer(old(nodes), i, k) && x in nodes[i].neighbors[k] ==>
                x in old(nodes)[i].neighbors[k] || x == |old(nodes)|
      ensures ok && old(entry) != -1 ==> forall l :: 0 <= l <= level && l < |old(nodes)[old(entry)].neighbors| ==>
                nodes[|old(nodes)|].neighbors[l] != []
      ensures ok && old(entry) != -1 ==> forall l: nat, x: nat :: l <= level && InLayer(old(nodes), x, l) ==>
                Linked(old(nodes), nodes, dist, m, x, |old(nodes)|, l, x in nodes[|old(nodes)|].neighbors[l])
      ensures ok && old(entry) != -1 ==>
        Placed(old(nodes) + [Node(id, v, seq(level + 1, _ => []))], nodes, dist, m, efConstruction, old(entry), level, path)
      ensures ok ==> entry == if old(entry) == -1 || level + 1 > |old(nodes)[old(entry)].neighbors| then |old(nodes)| else old(entry)
    {
      if dim == -1 {
        dim := |v|;
      } else if |v| != dim {
        return false, [];
      }
      ok, path := true, [];
      var cur := |nodes|;
      var n := Node(id, v, seq(level + 1, _ => []));
      AppendKeeps(nodes, m, n);
      NewIsUnlinked(nodes, m, n, level);
      nodes := nodes + [n];
      if entry == -1 {
        entry := cur;
        return;
      }
      ghost var before := nodes;
      path := Insert(cur, level);
      assert forall i: nat, k: nat :: InLayer(old(nodes), i, k) ==> InLayer(before, i, k) && before[i] == old(nodes)[i];
      forall l: nat, x: nat | l <= level && InLayer(old(nodes), x, l)
        ensures Linked(old(nodes), nodes, dist, m, x, cur, l, x in nodes[cur].neighbors[l])
      {
        assert Wired(before, nodes, dist, m, cur, l);
        assert Linked(before, nodes, dist, m, x, cur, l, x in nodes[cur].neighbors[l]);
      }
    }

    /** Descends to the new node's level, wires every layer below, and moves the entry up if the new
        node is taller. */
    method Insert(cur: nat, level: nat) returns (ghost path: seq<nat>)
      requires m > 0 && efConstruction > 0 && GraphOk(nodes, m)
      requires cur == |nodes| - 1 && 0 <= entry < cur && |nodes[cur].neighbors| == level + 1 && Unlinked(nodes, cur, level)
      requires forall i :: 0 <= i < cur ==> |nodes[i].neighbors| <= |nodes[entry].neighbors|
      modifies this`nodes, this`entry
      ensures GraphOk(nodes, m) && EntryOk(nodes, entry) && SameNodes(old(nodes), nodes) && OnlyGains(old(nodes), nodes, cur)
      ensures forall l :: 0 <= l <= level && l < |old(nodes)[old(entry)].neighbors| ==> nodes[cur].neighbors[l] != []
      ensures forall l: nat {:trigger Wired(old(nodes), nodes, dist, m, cur, l)} ::
                l <= level && l < |old(nodes)[old(entry)].neighbors| ==> Wired(old(nodes), nodes, dist, m, cur, l)
      ensures Placed(old(nodes), nodes, dist, m, efConstruction, old(entry), level, path)
      ensures entry == if level + 1 > |old(nodes)[old(entry)].neighbors| then cur else old(entry)
    {
      var topLevel := |nodes[entry].neighbors| - 1;
      var ep;
      ep, path := Descend(topLevel, level, cur);
      var lc := if level < topLevel then level else topLevel;
      WireDown(cur, level, lc, ep);
      if level > topLevel {
        entry := cur;
      }
    }

    /** The layers above the new node. */
    method Descend(topLevel: int, level: nat, cur: nat) returns (ep: nat, ghost path: seq<nat>)
      requires GraphOk(nodes, m) && 0 <= entry < cur < |nodes| && topLevel == |nodes[entry].neighbors| - 1
      requires |nodes[cur].neighbors| == level + 1
      ensures InLayer(nodes, ep, if level < topLevel then level else topLevel) && ep != cur
      ensures Descended(nodes, dist, nodes[cur].vec, entry, topLevel, level, path) && path[|path| - 1] == ep
    {
      ep := entry;
      path := [ep];
      var lc := topLevel;
      while lc > level
        invariant lc <= topLevel && (lc >= level || lc == topLevel)
        invariant InLayer(nodes, ep, lc) && ep != cur
        invariant |path| == topLevel - lc + 1 && path[0] == entry && path[|path| - 1] == ep
        invariant Descent(nodes, dist, nodes[cur].vec, topLevel, path)
        decreases lc
      {
        var next := GreedyClosest(nodes, dist, nodes[cur].vec, ep, lc, m);
        DescentMore(nodes, dist, nodes[cur].vec, topLevel, path, next);
        ep, path := next, path + [next];
        lc := lc - 1;
      }
    }

    method WireDown(cur: nat, level: nat, top: nat, ep0: nat)
      requires m > 0 && efConstruction > 0 && GraphOk(nodes, m) && top <= level
      requires cur < |nodes| && |nodes[cur].neighbors| == level + 1 && Unlinked(nodes, cur, level)
      requires InLayer(nodes, ep0, top) && ep0 != cur
      modifies this`nodes
      ensures Wiring(old(nodes), nodes, dist, m, efConstruction, cur, -1, top, ep0)
    {
      nodes := WireLayers(nodes, dist, m, efConstruction, cur, level, top, ep0);
    }

    /** The k nearest of the nodes seen from the bottom entry, nearest first. */
    method Search(q: Vec, k: int, ef0: int)
      returns (out: seq<Neighbor>, ghost ep: nat, ghost seen: set<nat>, ghost best: seq<Candidate>, ghost path: seq<nat>)
      requires Valid()
      ensures entry == -1 || k <= 0 ==> out == []
      ensures entry != -1 && k > 0 ==> |path| == |nodes[entry].neighbors| && path[0] == entry && path[|path| - 1] == ep
      ensures entry != -1 && k > 0 ==> Descent(nodes, dist, q, |nodes[entry].neighbors| - 1, path)
      ensures entry != -1 && k > 0 ==> Answers(nodes, dist, q, k, WorkingSet(k, ef0), ep, seen, best, out)
    {
      out, ep, seen, best, path := [], 0, {}, [], [];
      if entry == -1 || k <= 0 {
        return;
      }
      var e;
      e, path := DescendAll(nodes, dist, q, entry, m);
      ep := e;
      out, seen, best := SearchBottom(nodes, dist, q, e, k, WorkingSet(k, ef0), m);
    }

    function WorkingSet(k: int, ef: int): (r: nat)
      requires k > 0
      ensures r >= k && r >= (if ef > 0 then ef else efSearch) && (r == k || r == if ef > 0 then ef else efSearch)
    {
      var e: int := if ef <= 0 then efSearch else ef;
      if e < k then k else e
    }
  }
}
