/** The layered proximity graph on values (vector/ann/hnsw.go). */
module HnswGraph {
  import Ranking

  type Vec = seq<real>

  type Metric = (Vec, Vec) -> real

  /** neighbors[l] lists the out-edges at layer l; the last layer is the node's level. */
  datatype Node = Node(id: nat, vec: Vec, neighbors: seq<seq<nat>>)

  type Graph = seq<Node>

  ghost predicate InLayer(g: Graph, i: nat, l: nat)
  {
    i < |g| && l < |g[i].neighbors|
  }

  ghost predicate NoRepeats(ns: seq<nat>)
  {
    forall a, b :: 0 <= a < b < |ns| ==> ns[a] != ns[b]
  }

  /** Edges from i at layer l go to other nodes of that layer, each once. */
  ghost predicate EdgesOk(g: Graph, i: nat, l: nat, ns: seq<nat>)
  {
    NoRepeats(ns) && forall j :: 0 <= j < |ns| ==> InLayer(g, ns[j], l) && ns[j] != i
  }

  function Cap(m: nat, l: nat): nat
  {
    if l == 0 then 2 * m else m
  }

  ghost predicate ListOk(g: Graph, m: nat, i: nat, l: nat)
    requires InLayer(g, i, l)
  {
    |g[i].neighbors[l]| <= Cap(m, l) && EdgesOk(g, i, l, g[i].neighbors[l])
  }

  ghost predicate GraphOk(g: Graph, m: nat)
  {
    && (forall i :: 0 <= i < |g| ==> |g[i].neighbors| > 0)
    && (forall i: nat, l: nat {:trigger ListOk(g, m, i, l)} :: InLayer(g, i, l) ==> ListOk(g, m, i, l))
  }

  /** The entry point is on the highest layer. */
  ghost predicate EntryOk(g: Graph, entry: int)
  {
    && (entry == -1 <==> g == [])
    && (entry != -1 ==> 0 <= entry < |g| && forall i :: 0 <= i < |g| ==> |g[i].neighbors| <= |g[entry].neighbors|)
  }

  // ----- changing one list

  function SetList(g: Graph, i: nat, l: nat, ns: seq<nat>): (g': Graph)
    requires i < |g| && l < |g[i].neighbors|
    ensures |g'| == |g|
  {
    g[i := g[i].(neighbors := g[i].neighbors[l := ns])]
  }

  /** Same nodes, levels and vectors; only edges may differ. */
  ghost predicate SameNodes(g: Graph, g': Graph)
  {
    && |g| == |g'|
    && forall i :: 0 <= i < |g| ==> g[i].id == g'[i].id && g[i].vec == g'[i].vec && |g[i].neighbors| == |g'[i].neighbors|
  }

  lemma SetListKeeps(g: Graph, m: nat, i: nat, l: nat, ns: seq<nat>)
    requires GraphOk(g, m) && InLayer(g, i, l) && |ns| <= Cap(m, l) && EdgesOk(g, i, l, ns)
    ensures GraphOk(SetList(g, i, l, ns), m) && SameNodes(g, SetList(g, i, l, ns))
  {
    var g' := SetList(g, i, l, ns);
    forall j: nat, k: nat | InLayer(g', j, k) ensures ListOk(g', m, j, k) {
      if j != i || k != l { assert ListOk(g, m, j, k); }
    }
  }

  /** A new node with no edges yet. */
  lemma AppendKeeps(g: Graph, m: nat, n: Node)
    requires GraphOk(g, m) && |n.neighbors| > 0 && forall l :: 0 <= l < |n.neighbors| ==> n.neighbors[l] == []
    ensures GraphOk(g + [n], m)
  {
    var g' := g + [n];
    forall j: nat, k: nat | InLayer(g', j, k) ensures ListOk(g', m, j, k) {
      if j < |g| { assert ListOk(g, m, j, k); }
    }
  }

  /** No edge at layers 0..l leads to node c. */
  ghost predicate Unlinked(g: Graph, c: nat, l: nat)
  {
    forall i: nat, k: nat :: InLayer(g, i, k) && k <= l ==> c !in g[i].neighbors[k]
  }

  lemma NewIsUnlinked(g: Graph, m: nat, n: Node, l: nat)
    requires GraphOk(g, m) && forall k :: 0 <= k < |n.neighbors| ==> n.neighbors[k] == []
    ensures Unlinked(g + [n], |g|, l)
  {
    forall i: nat, k: nat | InLayer(g + [n], i, k) && k <= l ensures |g| !in (g + [n])[i].neighbors[k] {
      if i < |g| { assert ListOk(g, m, i, k); }
    }
  }

  // ----- reachability

  ghost predicate Path(g: Graph, l: nat, p: seq<nat>)
  {
    && p != []
    && (forall j :: 0 <= j < |p| ==> InLayer(g, p[j], l))
    && (forall j :: 0 <= j < |p| - 1 ==> p[j + 1] in g[p[j]].neighbors[l])
  }

  ghost predicate Reaches(g: Graph, l: nat, a: nat, b: nat)
  {
    exists p :: Path(g, l, p) && p[0] == a && p[|p| - 1] == b
  }

  lemma ReachesSelf(g: Graph, l: nat, a: nat)
    requires InLayer(g, a, l)
    ensures Reaches(g, l, a, a)
  {
    assert Path(g, l, [a]);
  }

  lemma ReachesMore(g: Graph, l: nat, a: nat, b: nat, c: nat)
    requires Reaches(g, l, a, b) && InLayer(g, b, l) && c in g[b].neighbors[l] && InLayer(g, c, l)
    ensures Reaches(g, l, a, c)
  {
    var p :| Path(g, l, p) && p[0] == a && p[|p| - 1] == b;
    assert Path(g, l, p + [c]);
  }

  /** A set that holds a and all neighbours of its members holds everything a reaches. */
  lemma {:induction false} ClosedHoldsPath(g: Graph, l: nat, s: set<nat>, p: seq<nat>)
    requires Path(g, l, p) && p[0] in s
    requires forall x :: x in s ==> InLayer(g, x, l) && forall y :: y in g[x].neighbors[l] ==> y in s
    ensures p[|p| - 1] in s
    decreases |p|
  {
    if |p| > 1 {
      var n := |p| - 1;
      assert Path(g, l, p[..n]) by {
        assert forall j :: 0 <= j < n - 1 ==> p[..n][j + 1] in g[p[..n][j]].neighbors[l];
      }
      ClosedHoldsPath(g, l, s, p[..n]);
      assert p[n - 1 + 1] in g[p[n - 1]].neighbors[l];
    }
  }

  /** Nothing reaches a node without incoming edges except itself. */
  lemma UnlinkedUnreached(g: Graph, l: nat, a: nat, c: nat)
    requires Unlinked(g, c, l) && Reaches(g, l, a, c)
    ensures a == c
  {
    var p :| Path(g, l, p) && p[0] == a && p[|p| - 1] == c;
    PathEnd(g, l, p);
  }

  lemma PathEnd(g: Graph, l: nat, p: seq<nat>)
    requires Path(g, l, p)
    ensures |p| > 1 ==> exists i: nat :: InLayer(g, i, l) && p[|p| - 1] in g[i].neighbors[l]
  {
    if |p| > 1 {
      var n := |p| - 2;
      assert p[n + 1] in g[p[n]].neighbors[l];
      assert InLayer(g, p[n], l);
    }
  }

  // ----- distances

  /** The distance of every node to a query. */
  ghost function Distances(g: Graph, dist: Metric, q: Vec): (ds: seq<real>)
    ensures |ds| == |g|
  {
    seq(|g|, i requires 0 <= i < |g| => dist(q, g[i].vec))
  }

  ghost predicate Within(s: set<nat>, n: nat)
  {
    forall x :: x in s ==> x < n
  }

  /** kept are the min(ef, |seen|) nearest of seen. */
  ghost predicate IsNearest(kept: set<nat>, seen: set<nat>, ef: nat, ds: seq<real>)
  {
    && Within(seen, |ds|) && kept <= seen
    && |kept| == (if ef < |seen| then ef else |seen|)
    && forall x, y :: x in kept && y in seen && y !in kept ==> ds[x] <= ds[y]
  }

  lemma NearestGrow(kept: set<nat>, seen: set<nat>, ef: nat, ds: seq<real>, e: nat)
    requires IsNearest(kept, seen, ef, ds) && e !in seen && e < |ds| && |kept| < ef
    ensures IsNearest(kept + {e}, seen + {e}, ef, ds)
  {
    Ranking.SubsetSize(kept, seen);
  }

  /** Once full, a nearer node takes the place of the farthest kept. */
  lemma NearestReplace(kept: set<nat>, seen: set<nat>, ef: nat, ds: seq<real>, e: nat, out: nat)
    requires IsNearest(kept, seen, ef, ds) && e !in seen && e < |ds| && |kept| == ef
    requires out in kept + {e} && forall x :: x in kept + {e} ==> ds[x] <= ds[out]
    ensures IsNearest(kept + {e} - {out}, seen + {e}, ef, ds)
  {
    Ranking.SubsetSize(kept, seen);
    var k := kept + {e} - {out};
    assert |kept + {e}| == ef + 1;
    forall x, y | x in k && y in seen + {e} && y !in k ensures ds[x] <= ds[y] {
      if y == out {
      } else if x == e {
        assert ds[e] <= ds[out] && ds[out] <= ds[y];
      }
    }
  }

  lemma NearestSkip(kept: set<nat>, seen: set<nat>, ef: nat, ds: seq<real>, e: nat)
    requires IsNearest(kept, seen, ef, ds) && e !in seen && e < |ds| && |kept| == ef
    requires forall x :: x in kept ==> ds[x] <= ds[e]
    ensures IsNearest(kept, seen + {e}, ef, ds)
  {
    Ranking.SubsetSize(kept, seen);
  }
}
