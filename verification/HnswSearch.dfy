/** Best-first search over one layer (vector/ann/hnsw.go, vector/ann/heap.go). */
module HnswSearch {
  import opened Heaps
  import opened Sorting
  import opened HnswGraph

  datatype Candidate = Candidate(node: nat, dist: real)

  predicate Nearer(a: Candidate, b: Candidate)
  {
    a.dist < b.dist
  }

  predicate Farther(a: Candidate, b: Candidate)
  {
    a.dist > b.dist
  }

  lemma NearerIsWeakOrder()
    ensures WeakOrder(Nearer) && WeakOrder(Farther)
  {
  }

  // ----- heaps of candidates

  ghost function Candidates(s: set<nat>, ds: seq<real>): set<Candidate>
    requires Within(s, |ds|)
  {
    set x | x in s :: Candidate(x, ds[x])
  }

  /** h is a heap of exactly the nodes in s. */
  ghost predicate HeapOf(h: seq<Candidate>, s: set<nat>, ds: seq<real>, less: (Candidate, Candidate) -> bool)
  {
    IsHeap(h, less) && Lists(h, s, ds)
  }

  ghost predicate Lists(h: seq<Candidate>, s: set<nat>, ds: seq<real>)
  {
    Within(s, |ds|) && multiset(h) == multiset(Candidates(s, ds))
  }

  lemma {:induction false} CandidatesSize(s: set<nat>, ds: seq<real>)
    requires Within(s, |ds|)
    ensures |Candidates(s, ds)| == |s|
    decreases |s|
  {
    if s == {} {
      assert Candidates(s, ds) == {};
    } else {
      var x :| x in s;
      CandidatesSize(s - {x}, ds);
      assert Candidates(s, ds) == Candidates(s - {x}, ds) + {Candidate(x, ds[x])};
    }
  }

  lemma ListSize(h: seq<Candidate>, s: set<nat>, ds: seq<real>)
    requires Lists(h, s, ds)
    ensures |h| == |s|
  {
    CandidatesSize(s, ds);
    assert |multiset(h)| == |h|;
  }

  lemma ListAdd(h: seq<Candidate>, h': seq<Candidate>, s: set<nat>, ds: seq<real>, x: nat)
    requires Lists(h, s, ds) && x < |ds| && x !in s
    requires multiset(h') == multiset(h) + multiset{Candidate(x, ds[x])}
    ensures Lists(h', s + {x}, ds)
  {
    assert Candidates(s + {x}, ds) == Candidates(s, ds) + {Candidate(x, ds[x])};
    assert Candidate(x, ds[x]) !in Candidates(s, ds);
  }

  lemma ListRemove(h: seq<Candidate>, h': seq<Candidate>, s: set<nat>, ds: seq<real>, c: Candidate)
    requires Lists(h, s, ds) && multiset(h') + multiset{c} == multiset(h)
    ensures c.node in s && c.dist == ds[c.node] && Lists(h', s - {c.node}, ds)
  {
    assert c in multiset(h);
    assert c in Candidates(s, ds);
    assert Candidates(s - {c.node}, ds) == Candidates(s, ds) - {c};
    assert multiset(Candidates(s, ds)) == multiset(Candidates(s, ds) - {c}) + multiset{c};
    assert multiset(h') == multiset(h) - multiset{c};
  }

  method PushNear(h: seq<Candidate>, c: Candidate, ghost s: set<nat>, ghost ds: seq<real>) returns (h': seq<Candidate>)
    requires HeapOf(h, s, ds, Nearer) && c.node < |ds| && c.dist == ds[c.node] && c.node !in s
    ensures HeapOf(h', s + {c.node}, ds, Nearer)
  {
    NearerIsWeakOrder();
    h' := Push(h, c, Nearer);
    ListAdd(h, h', s, ds, c.node);
  }

  method PushFar(h: seq<Candidate>, c: Candidate, ghost s: set<nat>, ghost ds: seq<real>) returns (h': seq<Candidate>)
    requires HeapOf(h, s, ds, Farther) && c.node < |ds| && c.dist == ds[c.node] && c.node !in s
    ensures HeapOf(h', s + {c.node}, ds, Farther) && |h'| == |s| + 1
  {
    NearerIsWeakOrder();
    h' := Push(h, c, Farther);
    ListAdd(h, h', s, ds, c.node);
    ListSize(h', s + {c.node}, ds);
  }

  method PopNear(h: seq<Candidate>, ghost s: set<nat>, ghost ds: seq<real>) returns (c: Candidate, h': seq<Candidate>)
    requires HeapOf(h, s, ds, Nearer) && |h| > 0
    ensures c.node in s && c.dist == ds[c.node] && forall x :: x in s ==> ds[x] >= c.dist
    ensures HeapOf(h', s - {c.node}, ds, Nearer)
  {
    NearerIsWeakOrder();
    c, h' := Pop(h, Nearer);
    ListRemove(h, h', s, ds, c);
    forall x | x in s ensures ds[x] >= c.dist {
      assert Candidate(x, ds[x]) in multiset(h);
    }
  }

  method PopFar(h: seq<Candidate>, ghost s: set<nat>, ghost ds: seq<real>) returns (c: Candidate, h': seq<Candidate>)
    requires HeapOf(h, s, ds, Farther) && |h| > 0
    ensures c.node in s && c.dist == ds[c.node] && forall x :: x in s ==> ds[x] <= c.dist
    ensures HeapOf(h', s - {c.node}, ds, Farther)
  {
    NearerIsWeakOrder();
    c, h' := Pop(h, Farther);
    ListRemove(h, h', s, ds, c);
    forall x | x in s ensures ds[x] <= c.dist {
      assert Candidate(x, ds[x]) in multiset(h);
    }
  }

  lemma PeekIsWorst(h: seq<Candidate>, s: set<nat>, ds: seq<real>)
    requires HeapOf(h, s, ds, Farther) && |h| > 0
    ensures forall x :: x in s ==> ds[x] <= h[0].dist
    ensures exists x :: x in s && ds[x] == h[0].dist
  {
    NearerIsWeakOrder();
    forall x | x in s ensures ds[x] <= h[0].dist {
      assert Candidate(x, ds[x]) in multiset(h);
      var i :| 0 <= i < |h| && h[i] == Candidate(x, ds[x]);
      RootIsLeast(h, Farther, i);
    }
    assert h[0] in multiset(h);
    assert h[0] in Candidates(s, ds);
  }

  // ----- the search of one layer

  /** Everything the search keeps: kept are the ef nearest seen, each of which is waiting or has had
      all its neighbours seen, and all seen are reachable. */
  ghost predicate Searching(g: Graph, l: nat, ep: nat, ef: nat, ds: seq<real>, seen: set<nat>, kept: set<nat>, waiting: set<nat>)
  {
    && |ds| == |g| && ef > 0
    && IsNearest(kept, seen, ef, ds) && ep in seen && waiting <= seen
    && (forall x :: x in seen ==> InLayer(g, x, l) && Reaches(g, l, ep, x))
    && (forall x :: x in kept && x !in waiting ==> Expanded(g, l, seen, x))
  }

  ghost predicate Expanded(g: Graph, l: nat, seen: set<nat>, x: nat)
  {
    InLayer(g, x, l) && forall y :: y in g[x].neighbors[l] ==> y in seen
  }

  /** Offers one unseen neighbour to the result. */
  method Offer(e: nat, d: real, ef: nat, toVisit: seq<Candidate>, found: seq<Candidate>,
               ghost ds: seq<real>, ghost seen: set<nat>, ghost kept: set<nat>, ghost waiting: set<nat>)
    returns (toVisit': seq<Candidate>, found': seq<Candidate>, ghost kept': set<nat>, ghost waiting': set<nat>)
    requires ef > 0 && IsNearest(kept, seen, ef, ds) && waiting <= seen && seen != {} && e < |ds| && e !in seen && d == ds[e]
    requires HeapOf(toVisit, waiting, ds, Nearer) && HeapOf(found, kept, ds, Farther)
    ensures HeapOf(toVisit', waiting', ds, Nearer) && HeapOf(found', kept', ds, Farther)
    ensures IsNearest(kept', seen + {e}, ef, ds)
    ensures waiting <= waiting' <= waiting + {e} && kept' <= kept + {e} && (e in kept' ==> e in waiting')
  {
    toVisit', found', kept', waiting' := toVisit, found, kept, waiting;
    ListSize(found, kept, ds);
    KeptIsFull(kept, seen, ef, ds);
    if |found| > 0 { PeekIsWorst(found, kept, ds); }
    if |found| < ef || d < found[0].dist {
      toVisit' := PushNear(toVisit, Candidate(e, d), waiting, ds);
      found' := PushFar(found, Candidate(e, d), kept, ds);
      kept', waiting' := kept + {e}, waiting + {e};
      if |found'| > ef {
        var out;
        out, found' := PopFar(found', kept', ds);
        NearestReplace(kept, seen, ef, ds, e, out.node);
        kept' := kept + {e} - {out.node};
      } else {
        NearestGrow(kept, seen, ef, ds, e);
      }
    } else {
      NearestSkip(kept, seen, ef, ds, e);
    }
  }

  lemma KeptIsFull(kept: set<nat>, seen: set<nat>, ef: nat, ds: seq<real>)
    requires IsNearest(kept, seen, ef, ds) && seen != {} && ef > 0
    ensures 0 < |kept| <= ef
  {
    var x :| x in seen;
    Ranking.SubsetSize({x}, seen);
  }

  /** The search, its two heaps and the candidate c being expanded, which counts as waiting. */
  ghost predicate Open(g: Graph, l: nat, ep: nat, ef: nat, ds: seq<real>, seen: set<nat>, kept: set<nat>, waiting: set<nat>,
                       c: nat, toVisit: seq<Candidate>, found: seq<Candidate>)
  {
    && Searching(g, l, ep, ef, ds, seen, kept, waiting) && c in waiting
    && HeapOf(toVisit, waiting - {c}, ds, Nearer) && HeapOf(found, kept, ds, Farther)
  }

  /** Visits one neighbour e of c. */
  method Visit(g: Graph, dist: Metric, q: Vec, e: nat, ef: nat, visited: set<nat>, toVisit: seq<Candidate>, found: seq<Candidate>,
               ghost l: nat, ghost ep: nat, ghost c: nat, ghost kept: set<nat>, ghost waiting: set<nat>)
    returns (visited': set<nat>, toVisit': seq<Candidate>, found': seq<Candidate>, ghost kept': set<nat>, ghost waiting': set<nat>)
    requires Open(g, l, ep, ef, Distances(g, dist, q), visited, kept, waiting, c, toVisit, found)
    requires InLayer(g, c, l) && e in g[c].neighbors[l] && InLayer(g, e, l)
    ensures Open(g, l, ep, ef, Distances(g, dist, q), visited', kept', waiting', c, toVisit', found')
    ensures visited' == visited + {e} && (visited == visited' ==> waiting' == waiting)
  {
    ghost var ds := Distances(g, dist, q);
    visited', toVisit', found', kept', waiting' := visited, toVisit, found, kept, waiting;
    if e !in visited {
      ReachesMore(g, l, ep, c, e);
      toVisit', found', kept', waiting' := Offer(e, dist(q, g[e].vec), ef, toVisit, found, ds, visited, kept, waiting - {c});
      assert waiting' + {c} - {c} == waiting';
      waiting' := waiting' + {c};
      visited' := visited + {e};
      StillSearching(g, l, ep, ef, ds, visited, kept, waiting, e, kept', waiting');
    }
  }

  /** Visits the neighbours of a popped candidate. */
  method Expand(g: Graph, dist: Metric, q: Vec, c: nat, ef: nat, l: nat, visited: set<nat>, toVisit: seq<Candidate>, found: seq<Candidate>,
                ghost m: nat, ghost ep: nat, ghost kept: set<nat>, ghost waiting: set<nat>)
    returns (visited': set<nat>, toVisit': seq<Candidate>, found': seq<Candidate>, ghost kept': set<nat>, ghost waiting': set<nat>)
    requires GraphOk(g, m) && InLayer(g, c, l)
    requires Open(g, l, ep, ef, Distances(g, dist, q), visited, kept, waiting, c, toVisit, found)
    ensures Open(g, l, ep, ef, Distances(g, dist, q), visited', kept', waiting', c, toVisit', found')
    ensures Expanded(g, l, visited', c) && visited <= visited' && (visited == visited' ==> waiting' == waiting)
  {
    visited', toVisit', found', kept', waiting' := visited, toVisit, found, kept, waiting;
    var nbs := g[c].neighbors[l];
    assert ListOk(g, m, c, l);
    for j := 0 to |nbs|
      invariant Open(g, l, ep, ef, Distances(g, dist, q), visited', kept', waiting', c, toVisit', found')
      invariant visited <= visited' && (visited == visited' ==> waiting' == waiting)
      invariant AllIn(nbs[..j], visited')
    {
      assert nbs[..j + 1] == nbs[..j] + [nbs[j]];
      visited', toVisit', found', kept', waiting' :=
        Visit(g, dist, q, nbs[j], ef, visited', toVisit', found', l, ep, c, kept', waiting');
    }
    assert nbs[..|nbs|] == nbs;
  }

  ghost predicate AllIn(xs: seq<nat>, s: set<nat>)
  {
    forall x :: x in xs ==> x in s
  }

  lemma StillSearching(g: Graph, l: nat, ep: nat, ef: nat, ds: seq<real>, seen: set<nat>, kept: set<nat>, waiting: set<nat>,
                       e: nat, kept': set<nat>, waiting': set<nat>)
    requires Searching(g, l, ep, ef, ds, seen, kept, waiting) && IsNearest(kept', seen + {e}, ef, ds)
    requires InLayer(g, e, l) && Reaches(g, l, ep, e)
    requires waiting <= waiting' <= waiting + {e} && kept' <= kept + {e} && (e in kept' ==> e in waiting')
    ensures Searching(g, l, ep, ef, ds, seen + {e}, kept', waiting')
  {
    forall x | x in kept' && x !in waiting' ensures Expanded(g, l, seen + {e}, x) {
      assert Expanded(g, l, seen, x);
    }
  }

  lemma CloseOne(g: Graph, l: nat, ep: nat, ef: nat, ds: seq<real>, seen: set<nat>, kept: set<nat>, waiting: set<nat>, c: nat)
    requires Searching(g, l, ep, ef, ds, seen, kept, waiting) && Expanded(g, l, seen, c)
    ensures Searching(g, l, ep, ef, ds, seen, kept, waiting - {c})
  {
  }

  /** No node is kept that still waits, once the nearest waiting one is farther than every kept one. */
  ghost predicate Settled(g: Graph, l: nat, ep: nat, ef: nat, ds: seq<real>, seen: set<nat>, kept: set<nat>)
  {
    Searching(g, l, ep, ef, ds, seen, kept, {})
  }

  lemma StopSettles(g: Graph, l: nat, ep: nat, ef: nat, ds: seq<real>, seen: set<nat>, kept: set<nat>, waiting: set<nat>)
    requires Searching(g, l, ep, ef, ds, seen, kept, waiting)
    requires forall x, y :: x in kept && y in waiting ==> ds[x] < ds[y]
    ensures Settled(g, l, ep, ef, ds, seen, kept)
  {
    assert forall x :: x in kept ==> x !in waiting;
  }

  /** The bounded best-first search: the ef nearest of all nodes it saw, nearest first, with every
      neighbour of a returned node seen. */
  method SearchLayer(g: Graph, dist: Metric, q: Vec, ep: nat, ef: nat, l: nat, ghost m: nat)
    returns (out: seq<Candidate>, ghost seen: set<nat>, ghost kept: set<nat>)
    requires GraphOk(g, m) && InLayer(g, ep, l) && ef > 0
    ensures Settled(g, l, ep, ef, Distances(g, dist, q), seen, kept)
    ensures InOrder(out, Nearer) && Lists(out, kept, Distances(g, dist, q))
  {
    ghost var ds := Distances(g, dist, q);
    var d := dist(q, g[ep].vec);
    var visited := {ep};
    var toVisit, found := [Candidate(ep, d)], [Candidate(ep, d)];
    ghost var waiting, stopped := {ep}, false;
    kept := {ep};
    SearchStarts(g, l, ep, ef, ds, toVisit);
    while |toVisit| > 0
      invariant Searching(g, l, ep, ef, ds, visited, kept, waiting)
      invariant HeapOf(toVisit, waiting, ds, Nearer) && HeapOf(found, kept, ds, Farther) && !stopped
      decreases |g| - |visited|, |waiting|
    {
      var c;
      c, toVisit := PopNear(toVisit, waiting, ds);
      ListSize(found, kept, ds);
      KeptIsFull(kept, visited, ef, ds);
      PeekIsWorst(found, kept, ds);
      if |found| >= ef && c.dist > found[0].dist {
        StopSettles(g, l, ep, ef, ds, visited, kept, waiting);
        stopped := true;
        break;
      }
      ghost var before := visited;
      visited, toVisit, found, kept, waiting := Expand(g, dist, q, c.node, ef, l, visited, toVisit, found, m, ep, kept, waiting);
      CloseOne(g, l, ep, ef, ds, visited, kept, waiting, c.node);
      waiting := waiting - {c.node};
      Shrinks(before, visited, |g|);
    }
    if !stopped {
      ListSize(toVisit, waiting, ds);
      StopSettles(g, l, ep, ef, ds, visited, kept, waiting);
    }
    seen := visited;
    NearerIsWeakOrder();
    out := SortBy(found, Nearer);
  }

  lemma SearchStarts(g: Graph, l: nat, ep: nat, ef: nat, ds: seq<real>, h: seq<Candidate>)
    requires InLayer(g, ep, l) && ef > 0 && |ds| == |g| && h == [Candidate(ep, ds[ep])]
    ensures Searching(g, l, ep, ef, ds, {ep}, {ep}, {ep})
    ensures HeapOf(h, {ep}, ds, Nearer) && HeapOf(h, {ep}, ds, Farther)
  {
    ReachesSelf(g, l, ep);
    assert Candidates({ep}, ds) == {Candidate(ep, ds[ep])};
  }

  lemma Shrinks(a: set<nat>, b: set<nat>, n: nat)
    requires a <= b && Within(b, n)
    ensures |a| <= |b| <= n && (a != b ==> |a| < |b|)
  {
    Ranking.SubsetSize(a, b);
    BoundedCard(b, n);
  }

  lemma {:induction false} BoundedCard(s: set<nat>, n: nat)
    requires Within(s, n)
    ensures |s| <= n
  {
    if n == 0 {
      assert s == {};
    } else {
      BoundedCard(s - {n - 1}, n - 1);
      if n - 1 in s { assert s == s - {n - 1} + {n - 1}; } else { assert s == s - {n - 1}; }
    }
  }

  /** With ef at least the node count, the search returns exactly the nodes the entry reaches. */
  lemma WideSearchIsExact(g: Graph, l: nat, ep: nat, ef: nat, ds: seq<real>, seen: set<nat>, kept: set<nat>)
    requires Settled(g, l, ep, ef, ds, seen, kept) && |g| <= ef
    ensures forall x :: x in kept <==> Reaches(g, l, ep, x)
  {
    BoundedCard(seen, |g|);
    Ranking.SubsetSize(kept, seen);
    forall x ensures x in kept <==> Reaches(g, l, ep, x) {
      if Reaches(g, l, ep, x) {
        var p :| Path(g, l, p) && p[0] == ep && p[|p| - 1] == x;
        assert forall y :: y in kept ==> Expanded(g, l, seen, y);
        ClosedHoldsPath(g, l, kept, p);
      }
    }
  }
}
