/** Trust from seeds and distrust against links (rank/graph/pagerank.go, rank/graph/graph.go). */
module TrustRank {
  import opened Options
  import opened PageRank

  ghost predicate Edge(g: Graph, v: nat, u: nat)
  {
    v < |g| && u in g[v]
  }

  ghost predicate IsPath(g: Graph, p: seq<nat>)
  {
    p != [] && forall i :: 0 < i < |p| ==> Edge(g, p[i - 1], p[i])
  }

  /** A path of at most k links from a seed to u. */
  ghost predicate PathTo(g: Graph, seeds: seq<nat>, k: nat, u: nat, p: seq<nat>)
  {
    IsPath(g, p) && |p| <= k + 1 && p[0] in seeds && p[|p| - 1] == u
  }

  ghost predicate Reached(g: Graph, seeds: seq<nat>, k: nat, u: nat)
  {
    exists p :: PathTo(g, seeds, k, u, p)
  }

  /** u is linked to by a vertex reached in k links. */
  ghost predicate LinkedFrom(g: Graph, seeds: seq<nat>, k: nat, u: nat)
  {
    exists v: nat :: Edge(g, v, u) && Reached(g, seeds, k, v)
  }

  lemma ReachedAtOnce(g: Graph, seeds: seq<nat>, u: nat)
    ensures Reached(g, seeds, 0, u) <==> u in seeds
  {
    if u in seeds { assert PathTo(g, seeds, 0, u, [u]); }
  }

  lemma ReachedNext(g: Graph, seeds: seq<nat>, k: nat, u: nat)
    ensures Reached(g, seeds, k + 1, u) <==> u in seeds || LinkedFrom(g, seeds, k, u)
  {
    if p :| PathTo(g, seeds, k + 1, u, p) && |p| > 1 {
      var n := |p| - 1;
      assert Edge(g, p[n - 1], p[n]);
      assert PathTo(g, seeds, k, p[n - 1], p[..n]);
    }
    if u in seeds { assert PathTo(g, seeds, k + 1, u, [u]); }
    if v: nat :| Edge(g, v, u) && Reached(g, seeds, k, v) {
      var p :| PathTo(g, seeds, k, v, p);
      assert PathTo(g, seeds, k + 1, u, p + [u]);
    }
  }

  // ----- where rank is positive

  lemma {:induction false} ReceivedZero(us: seq<nat>, u: nat)
    ensures Received(us, u, 0.0) == 0.0
  {
    if us != [] { ReceivedZero(us[..|us| - 1], u); }
  }

  /** Some of the first n vertices with positive rank links to u. */
  ghost predicate Fed(g: Graph, rank: Vec, u: nat, n: nat)
    requires n <= |g| == |rank|
  {
    exists v: nat :: v < n && Edge(g, v, u) && rank[v] > 0.0
  }

  lemma {:induction false} InflowPositive(g: Graph, rank: Vec, u: nat, n: nat)
    requires n <= |g| == |rank| && NonNegative(rank)
    ensures Inflow(g, rank, u, n) >= 0.0 && (Inflow(g, rank, u, n) > 0.0 <==> Fed(g, rank, u, n))
  {
    if n > 0 {
      InflowPositive(g, rank, u, n - 1);
      SentPositive(g, rank, u, n - 1);
      assert Fed(g, rank, u, n) <==> Fed(g, rank, u, n - 1) || (Edge(g, n - 1, u) && rank[n - 1] > 0.0);
    }
  }

  lemma SentPositive(g: Graph, rank: Vec, u: nat, v: nat)
    requires v < |g| == |rank| && NonNegative(rank)
    ensures var sent := if g[v] == [] then 0.0 else Received(g[v], u, rank[v] / |g[v]| as real);
            sent >= 0.0 && (sent > 0.0 <==> Edge(g, v, u) && rank[v] > 0.0)
  {
    if rank[v] > 0.0 {
      if g[v] != [] { ReceivedPositive(g[v], u, rank[v] / |g[v]| as real); }
    } else {
      ReceivedZero(g[v], u);
    }
  }

  lemma ProductSign(c: real, x: real)
    requires c >= 0.0 && x >= 0.0
    ensures c * x >= 0.0 && (c * x > 0.0 <==> c > 0.0 && x > 0.0)
  {
  }

  lemma BlendPositive(d: real, t: real, m: real, s: real)
    requires 0.0 < d < 1.0 && t >= 0.0 && m >= 0.0 && s >= 0.0
    ensures Blend(d, t, m, s) >= 0.0 && (Blend(d, t, m, s) > 0.0 <==> t > 0.0 || m > 0.0)
  {
    var lost := s * t;
    ProductSign(s, t);
    ProductSign(d, m + lost);
    ProductSign(1.0 - d, t);
  }

  lemma NextPositive(g: Graph, teleport: Vec, d: real, rank: Vec, u: nat)
    requires |rank| == |teleport| == |g| && u < |g| && NonNegative(rank) && NonNegative(teleport) && 0.0 < d < 1.0
    ensures Next(g, teleport, d, rank)[u] > 0.0 <==> teleport[u] > 0.0 || Fed(g, rank, u, |g|)
  {
    InflowPositive(g, rank, u, |g|);
    DanglingNonNegative(g, rank, |g|);
    NextAt(g, teleport, d, rank, u, Inflows(g, rank)[u], Dangling(g, rank, |g|));
    BlendPositive(d, teleport[u], Inflows(g, rank)[u], Dangling(g, rank, |g|));
  }

  /** The restart vector is positive exactly on the seeds. */
  ghost predicate OnSeeds(teleport: Vec, seeds: seq<nat>)
  {
    forall u :: 0 <= u < |teleport| ==> (teleport[u] > 0.0 <==> u in seeds)
  }

  /** After k supersteps trust is exactly where the seeds lead in at most k links. */
  lemma {:induction false} TrustIsReach(g: Graph, teleport: Vec, d: real, seeds: seq<nat>, k: nat, u: nat)
    requires GraphOk(g) && Distribution(teleport, |g|) && OnSeeds(teleport, seeds) && 0.0 < d < 1.0 && u < |g|
    ensures Iterate(g, teleport, d, k)[u] > 0.0 <==> Reached(g, seeds, k, u)
    decreases k
  {
    if k == 0 {
      ReachedAtOnce(g, seeds, u);
    } else {
      var rank := Iterate(g, teleport, d, k - 1);
      IterateIsDistribution(g, teleport, d, k - 1);
      NextPositive(g, teleport, d, rank, u);
      ReachedNext(g, seeds, k - 1, u);
      forall v: nat | v < |g| ensures rank[v] > 0.0 <==> Reached(g, seeds, k - 1, v) {
        TrustIsReach(g, teleport, d, seeds, k - 1, v);
      }
      assert Fed(g, rank, u, |g|) <==> LinkedFrom(g, seeds, k - 1, u);
    }
  }

  /** PageRank restarting at the seeds. A vertex has trust exactly if a seed leads to it in no more links
      than there were supersteps. */
  method TrustRank(g: Graph, seeds: seq<nat>, cfg: Config) returns (result: Vec, stats: Stats)
    requires GraphOk(g) && forall i :: 0 <= i < |seeds| ==> seeds[i] < |g|
    ensures |g| == 0 ==> result == [] && stats.converged
    ensures |g| > 0 ==> Ran(g, SeedVector(|g|, seeds), Damping(cfg), Tolerance(cfg), MaxSupersteps(cfg), result, stats)
    ensures |g| > 0 && Damping(cfg) <= 1.0 ==> Distribution(result, |g|)
    ensures seeds != [] && Damping(cfg) < 1.0 ==>
              |result| == |g| && forall u :: 0 <= u < |g| ==> (result[u] > 0.0 <==> Reached(g, seeds, stats.supersteps, u))
  {
    var t := SeedTeleport(|g|, seeds);
    result, stats := Run(g, cfg.(teleport := Some(t)));
    if seeds != [] && Damping(cfg) < 1.0 {
      assert seeds[0] < |g|;
      forall u | 0 <= u < |g| ensures result[u] > 0.0 <==> Reached(g, seeds, stats.supersteps, u) {
        TrustIsReach(g, t, Damping(cfg), seeds, stats.supersteps, u);
      }
    }
  }

  // ----- distrust

  /** Every edge of g the other way, as often. */
  ghost predicate Reverses(g: Graph, r: Graph)
  {
    |r| == |g| && forall u: nat, v: nat :: u < |g| && v < |g| ==> Count(r, u, v) == Count(g, v, u)
  }

  /** How often v links to u. */
  ghost function Count(g: Graph, v: nat, u: nat): nat
    requires v < |g|
  {
    multiset(g[v])[u]
  }

  /** The edges of the first n vertices the other way. */
  ghost predicate ReversesUpTo(g: Graph, r: Graph, n: nat)
  {
    |r| == |g| && forall u: nat, v: nat :: u < |g| && v < |g| ==> Count(r, u, v) == if v < n then Count(g, v, u) else 0
  }

  /** The edges us out of `from` are added to r the other way. */
  ghost predicate AddsReversed(r: Graph, r': Graph, from: nat, us: seq<nat>)
  {
    |r'| == |r| && forall u: nat, v: nat :: u < |r| ==> Count(r', u, v) == Count(r, u, v) + if v == from then multiset(us)[u] else 0
  }

  method AddReversed(r: Graph, from: nat, us: seq<nat>) returns (r': Graph)
    requires from < |r| && GraphOk(r) && forall j :: 0 <= j < |us| ==> us[j] < |r|
    ensures GraphOk(r') && AddsReversed(r, r', from, us)
  {
    r' := r;
    for j := 0 to |us|
      invariant GraphOk(r') && AddsReversed(r, r', from, us[..j])
    {
      assert us[..j + 1] == us[..j] + [us[j]];
      r' := r'[us[j] := r'[us[j]] + [from]];
    }
    assert us[..|us|] == us;
  }

  method Reverse(g: Graph) returns (r: Graph)
    requires GraphOk(g)
    ensures GraphOk(r) && Reverses(g, r)
  {
    r := seq(|g|, i => []);
    for from := 0 to |g|
      invariant GraphOk(r) && ReversesUpTo(g, r, from)
    {
      r := AddReversed(r, from, g[from]);
    }
  }

  ghost function Backwards(p: seq<nat>): (r: seq<nat>)
    ensures |r| == |p|
  {
    seq(|p|, i requires 0 <= i < |p| => p[|p| - 1 - i])
  }

  lemma ReversedEdge(g: Graph, r: Graph, u: nat, v: nat)
    requires GraphOk(g) && GraphOk(r) && Reverses(g, r)
    ensures Edge(r, u, v) <==> Edge(g, v, u)
  {
    if u < |g| && v < |g| {
      assert Count(r, u, v) == Count(g, v, u);
      assert v in r[u] <==> v in multiset(r[u]);
      assert u in g[v] <==> u in multiset(g[v]);
    }
  }

  lemma BackwardsPath(g: Graph, r: Graph, p: seq<nat>)
    requires GraphOk(g) && GraphOk(r) && Reverses(g, r) && IsPath(r, p)
    ensures IsPath(g, Backwards(p))
  {
    var q := Backwards(p);
    forall i | 0 < i < |q| ensures Edge(g, q[i - 1], q[i]) {
      var j := |p| - i;
      assert Edge(r, p[j - 1], p[j]);
      ReversedEdge(g, r, p[j - 1], p[j]);
    }
  }

  /** A path of at most k links from u to one of the spam pages. */
  ghost predicate PathInto(g: Graph, spam: seq<nat>, k: nat, u: nat, p: seq<nat>)
  {
    IsPath(g, p) && |p| <= k + 1 && p[0] == u && p[|p| - 1] in spam
  }

  ghost predicate Leads(g: Graph, spam: seq<nat>, k: nat, u: nat)
  {
    exists p :: PathInto(g, spam, k, u, p)
  }

  lemma ReachedIsLeads(g: Graph, r: Graph, spam: seq<nat>, k: nat, u: nat)
    requires GraphOk(g) && GraphOk(r) && Reverses(g, r)
    ensures Reached(r, spam, k, u) <==> Leads(g, spam, k, u)
  {
    if p :| PathTo(r, spam, k, u, p) {
      BackwardsPath(g, r, p);
      assert PathInto(g, spam, k, u, Backwards(p));
    }
    if p :| PathInto(g, spam, k, u, p) {
      BackwardsPath(r, g, p);
      assert PathTo(r, spam, k, u, Backwards(p));
    }
  }

  /** Trust on the reverse graph from the spam pages. A vertex is distrusted exactly if it leads to one of
      them in no more links than there were supersteps. */
  method AntiTrustRank(g: Graph, spam: seq<nat>, cfg: Config) returns (result: Vec, stats: Stats)
    requires GraphOk(g) && forall i :: 0 <= i < |spam| ==> spam[i] < |g|
    ensures |g| > 0 && Damping(cfg) <= 1.0 ==> Distribution(result, |g|)
    ensures spam != [] && Damping(cfg) < 1.0 ==>
              |result| == |g| && forall u :: 0 <= u < |g| ==> (result[u] > 0.0 <==> Leads(g, spam, stats.supersteps, u))
  {
    var r := Reverse(g);
    result, stats := TrustRank(r, spam, cfg);
    forall u: nat | u < |g| ensures Reached(r, spam, stats.supersteps, u) <==> Leads(g, spam, stats.supersteps, u) {
      ReachedIsLeads(g, r, spam, stats.supersteps, u);
    }
  }

  /** A chain of two links from the seed, cut off after one superstep: its end is reachable and gets
      nothing. */
  lemma ReachableWithoutTrust(d: real)
    requires 0.0 < d < 1.0
    ensures var g: Graph := [[1], [2], []];
            Reached(g, [0], 2, 2) && Iterate(g, [1.0, 0.0, 0.0], d, 1)[2] == 0.0
  {
    var g: Graph := [[1], [2], []];
    var t: Vec := [1.0, 0.0, 0.0];
    assert PathTo(g, [0], 2, 2, [0, 1, 2]);
    assert t[..2] == [1.0, 0.0] && [1.0, 0.0][..1] == [1.0] && [1.0][..0] == [];
    assert Distribution(t, |g|) && OnSeeds(t, [0]);
    TrustIsReach(g, t, d, [0], 1, 2);
    IterateIsDistribution(g, t, d, 1);
    assert forall p :: PathTo(g, [0], 1, 2, p) && |p| > 1 ==> Edge(g, p[1 - 1], p[1]);
  }
}
