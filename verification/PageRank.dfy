/** PageRank by power iteration, over exact reals (rank/graph/pagerank.go). */
module PageRank {
  import opened Options
  import opened Sums

  type Vec = seq<real>

  /** Out-edges of each vertex. */
  type Graph = seq<seq<nat>>

  ghost predicate GraphOk(g: Graph)
  {
    forall v, j :: 0 <= v < |g| && 0 <= j < |g[v]| ==> g[v][j] < |g|
  }

  ghost predicate Distribution(x: Vec, n: nat)
  {
    |x| == n && (forall i :: 0 <= i < n ==> x[i] >= 0.0) && Sum(x) == 1.0
  }

  // ----- the recurrence

  /** What u receives when `share` goes along each of the edges us. */
  ghost function Received(us: seq<nat>, u: nat, share: real): real
  {
    if us == [] then 0.0
    else Received(us[..|us| - 1], u, share) + if us[|us| - 1] == u then share else 0.0
  }

  /** Rank flowing into u from the first n vertices: the sum of PR(v) / L(v) over edges v -> u. */
  ghost function Inflow(g: Graph, rank: Vec, u: nat, n: nat): real
    requires n <= |g| == |rank|
  {
    if n == 0 then 0.0
    else
      var sent := if g[n - 1] == [] then 0.0 else Received(g[n - 1], u, rank[n - 1] / |g[n - 1]| as real);
      Inflow(g, rank, u, n - 1) + sent
  }

  /** Rank held by the first n vertices that have no out-edges. */
  ghost function Dangling(g: Graph, rank: Vec, n: nat): real
    requires n <= |g| == |rank|
  {
    if n == 0 then 0.0 else Dangling(g, rank, n - 1) + if g[n - 1] == [] then rank[n - 1] else 0.0
  }

  ghost function Inflows(g: Graph, rank: Vec): (r: Vec)
    requires |g| == |rank|
    ensures |r| == |g|
  {
    seq(|g|, u requires 0 <= u < |g| => Inflow(g, rank, u, |g|))
  }

  ghost function Add(a: Vec, b: Vec): (r: Vec)
    requires |a| == |b|
    ensures |r| == |a|
  {
    seq(|a|, i requires 0 <= i < |a| => a[i] + b[i])
  }

  ghost function Scale(c: real, a: Vec): (r: Vec)
    ensures |r| == |a|
  {
    seq(|a|, i requires 0 <= i < |a| => c * a[i])
  }

  /** One superstep: (1 - d) T + d (inflow + dangling mass spread as T). */
  ghost function Next(g: Graph, teleport: Vec, d: real, rank: Vec): (r: Vec)
    requires |rank| == |teleport| == |g|
    ensures |r| == |g|
  {
    Add(Scale(1.0 - d, teleport), Scale(d, Add(Inflows(g, rank), Scale(Dangling(g, rank, |g|), teleport))))
  }

  ghost function Abs(x: real): real
  {
    if x < 0.0 then -x else x
  }

  ghost function Gap(a: Vec, b: Vec): Vec
    requires |a| == |b|
  {
    seq(|a|, i requires 0 <= i < |a| => Abs(a[i] - b[i]))
  }

  /** The L1 distance. */
  ghost function Dist(a: Vec, b: Vec): real
    requires |a| == |b|
  {
    Sum(Gap(a, b))
  }

  // ----- messages as a vector

  function AddAt(x: Vec, u: nat, a: real): (r: Vec)
    requires u < |x|
    ensures |r| == |x|
  {
    x[u := x[u] + a]
  }

  ghost function PushEdges(msg: Vec, us: seq<nat>, share: real): (r: Vec)
    requires forall j :: 0 <= j < |us| ==> us[j] < |msg|
    ensures |r| == |msg|
  {
    if us == [] then msg else AddAt(PushEdges(msg, us[..|us| - 1], share), us[|us| - 1], share)
  }

  ghost function Zeros(n: nat): (r: Vec)
    ensures |r| == n
  {
    seq(n, i => 0.0)
  }

  /** What each vertex sends along each of its edges. */
  ghost function Shares(g: Graph, rank: Vec): (sh: Vec)
    requires |g| == |rank|
    ensures |sh| == |g|
  {
    seq(|g|, v requires 0 <= v < |g| => if g[v] == [] then 0.0 else rank[v] / |g[v]| as real)
  }

  /** The combiner's state after the first n vertices have pushed their shares. */
  ghost function Messages(g: Graph, shares: Vec, n: nat): (r: Vec)
    requires GraphOk(g) && n <= |g| == |shares|
    ensures |r| == |g|
  {
    if n == 0 then Zeros(|g|) else PushEdges(Messages(g, shares, n - 1), g[n - 1], shares[n - 1])
  }

  lemma {:induction false} PushEdgesAt(msg: Vec, us: seq<nat>, share: real, u: nat)
    requires u < |msg| && forall j :: 0 <= j < |us| ==> us[j] < |msg|
    ensures PushEdges(msg, us, share)[u] == msg[u] + Received(us, u, share)
  {
    if us != [] { PushEdgesAt(msg, us[..|us| - 1], share, u); }
  }

  lemma {:induction false} MessagesAreInflow(g: Graph, rank: Vec, n: nat, u: nat)
    requires GraphOk(g) && n <= |g| == |rank| && u < |g|
    ensures Messages(g, Shares(g, rank), n)[u] == Inflow(g, rank, u, n)
  {
    if n > 0 {
      MessagesAreInflow(g, rank, n - 1, u);
      PushEdgesAt(Messages(g, Shares(g, rank), n - 1), g[n - 1], Shares(g, rank)[n - 1], u);
    }
  }

  // ----- mass

  lemma {:induction false} PushEdgesSum(msg: Vec, us: seq<nat>, share: real)
    requires forall j :: 0 <= j < |us| ==> us[j] < |msg|
    ensures Sum(PushEdges(msg, us, share)) == Sum(msg) + Times(|us|, share)
  {
    if us != [] {
      var n := |us| - 1;
      PushEdgesSum(msg, us[..n], share);
      SumBump(PushEdges(msg, us[..n], share), PushEdges(msg, us, share), us[n]);
    }
  }

  /** n times x. */
  ghost function Times(n: nat, x: real): real
  {
    if n == 0 then 0.0 else Times(n - 1, x) + x
  }

  lemma {:induction false} TimesIsProduct(n: nat, x: real)
    ensures Times(n, x) == n as real * x
  {
    if n > 0 { TimesIsProduct(n - 1, x); }
  }

  /** The shares of a vertex with out-edges add up to its rank. */
  ghost predicate SharesOk(g: Graph, rank: Vec, shares: Vec)
  {
    |g| == |rank| == |shares| && forall v :: 0 <= v < |g| && g[v] != [] ==> Times(|g[v]|, shares[v]) == rank[v]
  }

  lemma SharesAddUp(g: Graph, rank: Vec)
    requires |g| == |rank|
    ensures SharesOk(g, rank, Shares(g, rank))
  {
    forall v | 0 <= v < |g| && g[v] != [] ensures Times(|g[v]|, Shares(g, rank)[v]) == rank[v] {
      TimesIsProduct(|g[v]|, rank[v] / |g[v]| as real);
    }
  }

  lemma {:induction false} MassPushed(g: Graph, rank: Vec, shares: Vec, n: nat)
    requires GraphOk(g) && SharesOk(g, rank, shares) && n <= |g|
    ensures Sum(Messages(g, shares, n)) + Dangling(g, rank, n) == Sum(rank[..n])
  {
    if n == 0 {
      SumZero(Zeros(|g|));
    } else {
      MassPushed(g, rank, shares, n - 1);
      assert rank[..n][..n - 1] == rank[..n - 1];
      PushEdgesSum(Messages(g, shares, n - 1), g[n - 1], shares[n - 1]);
    }
  }

  lemma {:induction false} SumAdd(a: Vec, b: Vec)
    requires |a| == |b|
    ensures Sum(Add(a, b)) == Sum(a) + Sum(b)
  {
    if a != [] {
      var n := |a| - 1;
      SumAdd(a[..n], b[..n]);
      assert Add(a, b)[..n] == Add(a[..n], b[..n]);
    }
  }

  lemma {:induction false} SumScale(c: real, a: Vec)
    ensures Sum(Scale(c, a)) == c * Sum(a)
  {
    if a != [] {
      var n := |a| - 1;
      SumScale(c, a[..n]);
      ScaleFront(c, a, n);
      Distribute(c, Sum(a[..n]), a[n]);
    }
  }

  lemma ScaleFront(c: real, a: Vec, n: nat)
    requires n < |a|
    ensures Scale(c, a)[..n] == Scale(c, a[..n]) && Scale(c, a)[n] == c * a[n]
  {
    forall i | 0 <= i < n ensures Scale(c, a)[..n][i] == Scale(c, a[..n])[i] {
      assert a[..n][i] == a[i];
    }
  }

  lemma Distribute(c: real, x: real, y: real)
    ensures c * (x + y) == c * x + c * y
  {
  }

  ghost predicate NonNegative(a: Vec)
  {
    forall i :: 0 <= i < |a| ==> a[i] >= 0.0
  }

  lemma ScaleNonNegative(c: real, a: Vec)
    requires c >= 0.0 && NonNegative(a)
    ensures NonNegative(Scale(c, a))
  {
    forall i | 0 <= i < |a| ensures Scale(c, a)[i] >= 0.0 {
      Product(c, a[i]);
    }
  }

  lemma Product(c: real, x: real)
    requires c >= 0.0 && x >= 0.0
    ensures c * x >= 0.0
  {
  }

  lemma InflowsAreMessages(g: Graph, rank: Vec)
    requires GraphOk(g) && |g| == |rank|
    ensures Inflows(g, rank) == Messages(g, Shares(g, rank), |g|)
  {
    forall u | 0 <= u < |g| ensures Inflows(g, rank)[u] == Messages(g, Shares(g, rank), |g|)[u] {
      MessagesAreInflow(g, rank, |g|, u);
    }
  }

  /** Every superstep keeps the ranks a distribution, dangling vertices included. */
  lemma NextKeepsMass(g: Graph, teleport: Vec, d: real, rank: Vec)
    requires GraphOk(g) && Distribution(teleport, |g|) && Distribution(rank, |g|) && 0.0 <= d <= 1.0
    ensures Distribution(Next(g, teleport, d, rank), |g|)
  {
    NextSum(g, teleport, d, rank);
    var inner := Add(Inflows(g, rank), Scale(Dangling(g, rank, |g|), teleport));
    InflowsNonNegative(g, rank);
    DanglingNonNegative(g, rank, |g|);
    ScaleNonNegative(Dangling(g, rank, |g|), teleport);
    ScaleNonNegative(d, inner);
    ScaleNonNegative(1.0 - d, teleport);
  }

  lemma NextSum(g: Graph, teleport: Vec, d: real, rank: Vec)
    requires GraphOk(g) && |teleport| == |rank| == |g| && Sum(teleport) == 1.0 && Sum(rank) == 1.0
    ensures Sum(Next(g, teleport, d, rank)) == 1.0
  {
    var s := Dangling(g, rank, |g|);
    FlowSum(g, rank);
    ScaleOfOne(s, teleport);
    SumAdd(Inflows(g, rank), Scale(s, teleport));
    BlendSum(d, teleport, Add(Inflows(g, rank), Scale(s, teleport)));
  }

  /** What flows in and what has no way out are all the rank there is. */
  lemma FlowSum(g: Graph, rank: Vec)
    requires GraphOk(g) && |rank| == |g|
    ensures Sum(Inflows(g, rank)) + Dangling(g, rank, |g|) == Sum(rank)
  {
    InflowsAreMessages(g, rank);
    SharesAddUp(g, rank);
    MassPushed(g, rank, Shares(g, rank), |g|);
    WholeSlice(rank);
  }

  lemma ScaleOfOne(c: real, x: Vec)
    requires Sum(x) == 1.0
    ensures Sum(Scale(c, x)) == c
  {
    SumScale(c, x);
  }

  lemma BlendSum(d: real, t: Vec, x: Vec)
    requires |t| == |x| && Sum(t) == 1.0 && Sum(x) == 1.0
    ensures Sum(Add(Scale(1.0 - d, t), Scale(d, x))) == 1.0
  {
    ScaleOfOne(1.0 - d, t);
    ScaleOfOne(d, x);
    SumAdd(Scale(1.0 - d, t), Scale(d, x));
  }

  lemma InflowsNonNegative(g: Graph, rank: Vec)
    requires |g| == |rank| && NonNegative(rank)
    ensures NonNegative(Inflows(g, rank))
  {
    forall u | 0 <= u < |g| ensures Inflows(g, rank)[u] >= 0.0 {
      InflowNonNegative(g, rank, u, |g|);
    }
  }

  lemma {:induction false} ReceivedNonNegative(us: seq<nat>, u: nat, share: real)
    requires share >= 0.0
    ensures Received(us, u, share) >= 0.0
  {
    if us != [] { ReceivedNonNegative(us[..|us| - 1], u, share); }
  }

  lemma {:induction false} InflowNonNegative(g: Graph, rank: Vec, u: nat, n: nat)
    requires n <= |g| == |rank| && forall i :: 0 <= i < |rank| ==> rank[i] >= 0.0
    ensures Inflow(g, rank, u, n) >= 0.0
  {
    if n > 0 {
      InflowNonNegative(g, rank, u, n - 1);
      if g[n - 1] != [] { ReceivedNonNegative(g[n - 1], u, rank[n - 1] / |g[n - 1]| as real); }
    }
  }

  lemma {:induction false} DanglingNonNegative(g: Graph, rank: Vec, n: nat)
    requires n <= |g| == |rank| && forall i :: 0 <= i < |rank| ==> rank[i] >= 0.0
    ensures Dangling(g, rank, n) >= 0.0
  {
    if n > 0 { DanglingNonNegative(g, rank, n - 1); }
  }

  // ----- contraction

  /** Adding p and q at one place moves two vectors apart by at most |p - q|. */
  lemma DistBump(a: Vec, b: Vec, u: nat, p: real, q: real)
    requires |a| == |b| && u < |a|
    ensures Dist(AddAt(a, u, p), AddAt(b, u, q)) <= Dist(a, b) + Abs(p - q)
  {
    SumBump(Gap(a, b), Gap(AddAt(a, u, p), AddAt(b, u, q)), u);
  }

  lemma {:induction false} DistPush(a: Vec, b: Vec, us: seq<nat>, p: real, q: real)
    requires |a| == |b| && forall j :: 0 <= j < |us| ==> us[j] < |a|
    ensures Dist(PushEdges(a, us, p), PushEdges(b, us, q)) <= Dist(a, b) + Times(|us|, Abs(p - q))
  {
    if us != [] {
      var n := |us| - 1;
      DistPush(a, b, us[..n], p, q);
      DistBump(PushEdges(a, us[..n], p), PushEdges(b, us[..n], q), us[n], p, q);
    }
  }

  ghost predicate SharesApartOk(g: Graph, x: Vec, y: Vec, sx: Vec, sy: Vec)
  {
    && |g| == |x| == |y| == |sx| == |sy|
    && forall v :: 0 <= v < |g| && g[v] != [] ==> Times(|g[v]|, Abs(sx[v] - sy[v])) == Abs(x[v] - y[v])
  }

  lemma SharesApart(g: Graph, x: Vec, y: Vec)
    requires |x| == |y| == |g|
    ensures SharesApartOk(g, x, y, Shares(g, x), Shares(g, y))
  {
    forall v | 0 <= v < |g| && g[v] != []
      ensures Times(|g[v]|, Abs(Shares(g, x)[v] - Shares(g, y)[v])) == Abs(x[v] - y[v])
    {
      ShareApart(x[v], y[v], |g[v]|);
    }
  }

  lemma ShareApart(x: real, y: real, deg: nat)
    requires deg > 0
    ensures Times(deg, Abs(x / deg as real - y / deg as real)) == Abs(x - y)
  {
    var k := deg as real;
    var p, q := x / k, y / k;
    TimesIsProduct(deg, Abs(p - q));
    AbsScale(k, p, q);
  }

  ghost function DistUpTo(x: Vec, y: Vec, n: nat): real
    requires n <= |x| == |y|
  {
    if n == 0 then 0.0 else DistUpTo(x, y, n - 1) + Abs(x[n - 1] - y[n - 1])
  }

  lemma {:induction false} DistUpToIs(x: Vec, y: Vec, n: nat)
    requires n <= |x| == |y|
    ensures DistUpTo(x, y, n) == Sum(Gap(x, y)[..n])
  {
    if n > 0 {
      DistUpToIs(x, y, n - 1);
      assert Gap(x, y)[..n][..n - 1] == Gap(x, y)[..n - 1];
    }
  }

  lemma {:induction false} MessagesApart(g: Graph, x: Vec, y: Vec, sx: Vec, sy: Vec, n: nat)
    requires GraphOk(g) && SharesApartOk(g, x, y, sx, sy) && n <= |g|
    ensures Dist(Messages(g, sx, n), Messages(g, sy, n)) + Abs(Dangling(g, x, n) - Dangling(g, y, n)) <= DistUpTo(x, y, n)
  {
    if n == 0 {
      DistSelf(Zeros(|g|));
    } else {
      MessagesApart(g, x, y, sx, sy, n - 1);
      DistPush(Messages(g, sx, n - 1), Messages(g, sy, n - 1), g[n - 1], sx[n - 1], sy[n - 1]);
    }
  }

  lemma DistAdd(a: Vec, b: Vec, a': Vec, b': Vec)
    requires |a| == |b| == |a'| == |b'|
    ensures Dist(Add(a, b), Add(a', b')) <= Dist(a, a') + Dist(b, b')
  {
    SumMono(Gap(Add(a, b), Add(a', b')), Add(Gap(a, a'), Gap(b, b')));
    SumAdd(Gap(a, a'), Gap(b, b'));
  }

  lemma DistSelf(a: Vec)
    ensures Dist(a, a) == 0.0
  {
    forall i | 0 <= i < |a| ensures Gap(a, a)[i] == 0.0 {
      assert Abs(a[i] - a[i]) == 0.0;
    }
    SumZero(Gap(a, a));
  }

  lemma AbsScale(c: real, x: real, y: real)
    requires c >= 0.0
    ensures Abs(c * x - c * y) == c * Abs(x - y)
  {
    assert c * x - c * y == c * (x - y);
    if x >= y { Product(c, x - y); } else { Product(c, y - x); assert c * (y - x) == -(c * (x - y)); }
  }

  lemma AbsScaleRight(x: real, y: real, c: real)
    requires c >= 0.0
    ensures Abs(x * c - y * c) == Abs(x - y) * c
  {
    AbsScale(c, x, y);
  }

  lemma ScaleAt(c: real, a: Vec, i: nat)
    requires i < |a|
    ensures Scale(c, a)[i] == c * a[i]
  {
  }

  lemma GapAt(a: Vec, b: Vec, i: nat)
    requires i < |a| == |b|
    ensures Gap(a, b)[i] == Abs(a[i] - b[i])
  {
  }

  lemma DistScale(c: real, a: Vec, b: Vec, e: real)
    requires |a| == |b| && c >= 0.0 && Dist(a, b) <= e
    ensures Dist(Scale(c, a), Scale(c, b)) <= c * e
  {
    ScaledGap(c, a, b);
    ScaledWithin(c, Gap(a, b), e);
  }

  lemma ScaledWithin(c: real, x: Vec, e: real)
    requires c >= 0.0 && Sum(x) <= e
    ensures Sum(Scale(c, x)) <= c * e
  {
    SumScale(c, x);
    Scaled(c, Sum(x), e);
  }

  lemma ScaledGap(c: real, a: Vec, b: Vec)
    requires |a| == |b| && c >= 0.0
    ensures Gap(Scale(c, a), Scale(c, b)) == Scale(c, Gap(a, b))
  {
    forall i | 0 <= i < |a| ensures Gap(Scale(c, a), Scale(c, b))[i] == Scale(c, Gap(a, b))[i] {
      ScaledGapAt(c, a, b, i);
    }
  }

  lemma ScaledGapAt(c: real, a: Vec, b: Vec, i: nat)
    requires i < |a| == |b| && c >= 0.0
    ensures Gap(Scale(c, a), Scale(c, b))[i] == Scale(c, Gap(a, b))[i]
  {
    GapAt(Scale(c, a), Scale(c, b), i);
    ScaleAt(c, a, i);
    ScaleAt(c, b, i);
    ScaleAt(c, Gap(a, b), i);
    GapAt(a, b, i);
    AbsScaleTo(c, a[i], b[i], Scale(c, a)[i], Scale(c, b)[i], Gap(a, b)[i], Scale(c, Gap(a, b))[i]);
  }

  lemma AbsScaleTo(c: real, p: real, q: real, x: real, y: real, g: real, z: real)
    requires c >= 0.0 && x == c * p && y == c * q && g == Abs(p - q) && z == c * g
    ensures Abs(x - y) == z
  {
    AbsScale(c, p, q);
  }

  lemma DistScales(s: real, s': real, t: Vec)
    requires NonNegative(t) && Sum(t) == 1.0
    ensures Dist(Scale(s, t), Scale(s', t)) == Abs(s - s')
  {
    var l, r := Gap(Scale(s, t), Scale(s', t)), Scale(Abs(s - s'), t);
    forall i | 0 <= i < |t| ensures l[i] == r[i] {
      ScalesGapAt(s, s', t, i);
    }
    assert l == r;
    SumScale(Abs(s - s'), t);
  }

  lemma ScalesGapAt(s: real, s': real, t: Vec, i: nat)
    requires i < |t| && t[i] >= 0.0
    ensures Gap(Scale(s, t), Scale(s', t))[i] == Scale(Abs(s - s'), t)[i]
  {
    GapAt(Scale(s, t), Scale(s', t), i);
    ScaleAt(s, t, i);
    ScaleAt(s', t, i);
    ScaleAt(Abs(s - s'), t, i);
    AbsScaleRight(s, s', t[i]);
  }

  /** Each superstep brings two rank vectors closer by the damping factor. */
  lemma NextContracts(g: Graph, teleport: Vec, d: real, x: Vec, y: Vec)
    requires GraphOk(g) && Distribution(teleport, |g|) && |x| == |y| == |g| && 0.0 <= d
    ensures Dist(Next(g, teleport, d, x), Next(g, teleport, d, y)) <= d * Dist(x, y)
  {
    var base := Scale(1.0 - d, teleport);
    var dx, dy := Scale(Dangling(g, x, |g|), teleport), Scale(Dangling(g, y, |g|), teleport);
    var ix, iy := Add(Inflows(g, x), dx), Add(Inflows(g, y), dy);
    DistScales(Dangling(g, x, |g|), Dangling(g, y, |g|), teleport);
    FlowContracts(g, x, y, dx, dy);
    BlendContracts(base, d, ix, iy, Dist(x, y));
  }

  lemma BlendContracts(base: Vec, d: real, ix: Vec, iy: Vec, e: real)
    requires |base| == |ix| == |iy| && d >= 0.0 && Dist(ix, iy) <= e
    ensures Dist(Add(base, Scale(d, ix)), Add(base, Scale(d, iy))) <= d * e
  {
    DistScale(d, ix, iy, e);
    DistSelf(base);
    DistAdd(base, Scale(d, ix), base, Scale(d, iy));
  }

  lemma InflowsApart(g: Graph, x: Vec, y: Vec)
    requires GraphOk(g) && |x| == |y| == |g|
    ensures Dist(Inflows(g, x), Inflows(g, y)) + Abs(Dangling(g, x, |g|) - Dangling(g, y, |g|)) <= Dist(x, y)
  {
    InflowsAreMessages(g, x);
    InflowsAreMessages(g, y);
    SharesApart(g, x, y);
    AllMessagesApart(g, x, y, Shares(g, x), Shares(g, y), Inflows(g, x), Inflows(g, y));
  }

  lemma AllMessagesApart(g: Graph, x: Vec, y: Vec, sx: Vec, sy: Vec, ix: Vec, iy: Vec)
    requires GraphOk(g) && SharesApartOk(g, x, y, sx, sy)
    requires ix == Messages(g, sx, |g|) && iy == Messages(g, sy, |g|)
    ensures |ix| == |iy| && Dist(ix, iy) + Abs(Dangling(g, x, |g|) - Dangling(g, y, |g|)) <= Dist(x, y)
  {
    MessagesApart(g, x, y, sx, sy, |g|);
    DistUpToAll(x, y);
  }

  lemma DistUpToAll(x: Vec, y: Vec)
    requires |x| == |y|
    ensures DistUpTo(x, y, |x|) == Dist(x, y)
  {
    DistUpToIs(x, y, |x|);
    WholeSlice(Gap(x, y));
  }

  lemma WholeSlice(x: Vec)
    ensures x[..|x|] == x
  {
  }

  /** Links and dangling redistribution move no more mass than there is difference. */
  lemma FlowContracts(g: Graph, x: Vec, y: Vec, bx: Vec, bz: Vec)
    requires GraphOk(g) && |x| == |y| == |bx| == |bz| == |g|
    requires Dist(bx, bz) == Abs(Dangling(g, x, |g|) - Dangling(g, y, |g|))
    ensures Dist(Add(Inflows(g, x), bx), Add(Inflows(g, y), bz)) <= Dist(x, y)
  {
    InflowsApart(g, x, y);
    DistAdd(Inflows(g, x), bx, Inflows(g, y), bz);
  }

  lemma Scaled(d: real, a: real, b: real)
    requires d >= 0.0 && a <= b
    ensures d * a <= d * b
  {
  }

  // ----- iteration

  ghost function Iterate(g: Graph, teleport: Vec, d: real, k: nat): (r: Vec)
    requires |teleport| == |g|
    ensures |r| == |g|
  {
    if k == 0 then teleport else Next(g, teleport, d, Iterate(g, teleport, d, k - 1))
  }

  ghost function Pow(d: real, k: nat): real
  {
    if k == 0 then 1.0 else d * Pow(d, k - 1)
  }

  lemma {:induction false} IterateIsDistribution(g: Graph, teleport: Vec, d: real, k: nat)
    requires GraphOk(g) && Distribution(teleport, |g|) && 0.0 <= d <= 1.0
    ensures Distribution(Iterate(g, teleport, d, k), |g|)
  {
    if k > 0 {
      IterateIsDistribution(g, teleport, d, k - 1);
      NextKeepsMass(g, teleport, d, Iterate(g, teleport, d, k - 1));
    }
  }

  /** The ranks sum to one whatever the damping. */
  lemma {:induction false} IterateSums(g: Graph, teleport: Vec, d: real, k: nat)
    requires GraphOk(g) && |teleport| == |g| && Sum(teleport) == 1.0
    ensures Sum(Iterate(g, teleport, d, k)) == 1.0
  {
    if k > 0 {
      IterateSums(g, teleport, d, k - 1);
      NextSum(g, teleport, d, Iterate(g, teleport, d, k - 1));
    }
  }

  lemma DistOfDistributions(a: Vec, b: Vec, n: nat)
    requires Distribution(a, n) && Distribution(b, n)
    ensures Dist(a, b) <= 2.0
  {
    SumMono(Gap(a, b), Add(a, b));
    SumAdd(a, b);
  }

  /** Repeated supersteps bring any two starting points together geometrically. */
  lemma {:induction false} ResidualShrinks(g: Graph, teleport: Vec, d: real, k: nat)
    requires GraphOk(g) && Distribution(teleport, |g|) && 0.0 <= d <= 1.0
    ensures Dist(Iterate(g, teleport, d, k + 1), Iterate(g, teleport, d, k)) <= 2.0 * Pow(d, k)
  {
    if k == 0 {
      IterateIsDistribution(g, teleport, d, 1);
      DistOfDistributions(Iterate(g, teleport, d, 1), teleport, |g|);
    } else {
      ResidualShrinks(g, teleport, d, k - 1);
      StepCloser(g, teleport, d, Iterate(g, teleport, d, k), Iterate(g, teleport, d, k - 1), k);
    }
  }

  lemma StepCloser(g: Graph, teleport: Vec, d: real, x: Vec, y: Vec, k: nat)
    requires GraphOk(g) && Distribution(teleport, |g|) && 0.0 <= d && |x| == |y| == |g| && k > 0
    requires Dist(x, y) <= 2.0 * Pow(d, k - 1)
    ensures Dist(Next(g, teleport, d, x), Next(g, teleport, d, y)) <= 2.0 * Pow(d, k)
  {
    NextContracts(g, teleport, d, x, y);
    Compound(d, Pow(d, k - 1), Dist(x, y), Dist(Next(g, teleport, d, x), Next(g, teleport, d, y)), Pow(d, k));
  }

  lemma Compound(d: real, p: real, a: real, b: real, q: real)
    requires d >= 0.0 && a <= 2.0 * p && b <= d * a && q == d * p
    ensures b <= 2.0 * q
  {
    Scaled(d, a, 2.0 * p);
    assert d * (2.0 * p) == 2.0 * (d * p);
  }

  /** Any fixed point is approached at the same rate. */
  lemma {:induction false} ApproachesFixedPoint(g: Graph, teleport: Vec, d: real, fixed: Vec, k: nat)
    requires GraphOk(g) && Distribution(teleport, |g|) && 0.0 <= d <= 1.0
    requires Distribution(fixed, |g|) && Next(g, teleport, d, fixed) == fixed
    ensures Dist(Iterate(g, teleport, d, k), fixed) <= 2.0 * Pow(d, k)
  {
    if k == 0 {
      DistOfDistributions(teleport, fixed, |g|);
    } else {
      ApproachesFixedPoint(g, teleport, d, fixed, k - 1);
      StepCloser(g, teleport, d, Iterate(g, teleport, d, k - 1), fixed, k);
    }
  }

  /** With damping below one there is at most one stationary vector. */
  lemma FixedPointIsUnique(g: Graph, teleport: Vec, d: real, x: Vec, y: Vec)
    requires GraphOk(g) && Distribution(teleport, |g|) && 0.0 <= d < 1.0 && |x| == |y| == |g|
    requires Next(g, teleport, d, x) == x && Next(g, teleport, d, y) == y
    ensures x == y
  {
    NextContracts(g, teleport, d, x, y);
    DistNonNegative(x, y);
    Squeeze(d, Dist(x, y), Dist(Next(g, teleport, d, x), Next(g, teleport, d, y)));
    forall i | 0 <= i < |x| ensures x[i] == y[i] {
      ZeroSum(Gap(x, y), i);
    }
  }

  lemma DistNonNegative(x: Vec, y: Vec)
    requires |x| == |y|
    ensures Dist(x, y) >= 0.0
  {
    SumNonNegative(Gap(x, y));
  }

  lemma Squeeze(d: real, a: real, b: real)
    requires 0.0 <= d < 1.0 && 0.0 <= a == b <= d * a
    ensures a == 0.0
  {
    assert (1.0 - d) * a <= 0.0;
    Product(1.0 - d, a);
  }

  lemma ZeroSum(xs: Vec, i: nat)
    requires i < |xs| && NonNegative(xs) && Sum(xs) == 0.0
    ensures xs[i] == 0.0
  {
    var ys := xs[i := 0.0];
    SumBump(xs, ys, i);
    SumNonNegative(ys);
  }

  // ----- the executor

  datatype Config = Config(damping: real, tolerance: real, maxSupersteps: int, teleport: Option<Vec>)

  datatype Stats = Stats(supersteps: nat, residual: real, converged: bool)

  function Damping(cfg: Config): real
  {
    if cfg.damping <= 0.0 then 0.85 else cfg.damping
  }

  function Tolerance(cfg: Config): (r: real)
    ensures r > 0.0
  {
    if cfg.tolerance <= 0.0 then 0.000001 else cfg.tolerance
  }

  function MaxSupersteps(cfg: Config): (r: nat)
    ensures r > 0
  {
    if cfg.maxSupersteps <= 0 then 100 else cfg.maxSupersteps
  }

  ghost function Uniform(n: nat): (r: Vec)
    requires n > 0
    ensures |r| == n
  {
    seq(n, i => 1.0 / n as real)
  }

  ghost function TeleportOf(cfg: Config, n: nat): Vec
    requires n > 0
  {
    if cfg.teleport.None? then Uniform(n) else cfg.teleport.value
  }

  lemma {:induction false} ConstantSum(n: nat, x: real)
    ensures Sum(seq(n, i => x)) == Times(n, x)
  {
    if n > 0 {
      ConstantSum(n - 1, x);
      assert seq(n, i => x)[..n - 1] == seq(n - 1, i => x);
    }
  }

  lemma UniformIsDistribution(n: nat)
    requires n > 0
    ensures Distribution(Uniform(n), n)
  {
    var x := 1.0 / n as real;
    assert Uniform(n) == seq(n, i => x);
    ConstantSum(n, x);
    UnitShares(n);
  }

  lemma UnitShares(n: nat)
    requires n > 0
    ensures Times(n, 1.0 / n as real) == 1.0
  {
    TimesIsProduct(n, 1.0 / n as real);
  }

  method Push(g: Graph, rank: array<real>, msg: array<real>) returns (dangling: real)
    requires GraphOk(g) && rank.Length == msg.Length == |g| && rank != msg
    modifies msg
    ensures msg[..] == Messages(g, Shares(g, rank[..]), |g|) && dangling == Dangling(g, rank[..], |g|)
  {
    ghost var shares := Shares(g, rank[..]);
    for i := 0 to msg.Length
      invariant forall j :: 0 <= j < i ==> msg[j] == 0.0
    {
      msg[i] := 0.0;
    }
    assert msg[..] == Zeros(|g|);
    dangling := 0.0;
    for v := 0 to |g|
      invariant msg[..] == Messages(g, shares, v) && dangling == Dangling(g, rank[..], v)
    {
      if |g[v]| == 0 {
        dangling := dangling + rank[v];
      } else {
        var share := rank[v] / |g[v]| as real;
        Send(g[v], share, msg);
      }
    }
  }

  /** Adds share at the head of every edge. */
  method Send(us: seq<nat>, share: real, msg: array<real>)
    requires forall j :: 0 <= j < |us| ==> us[j] < msg.Length
    modifies msg
    ensures msg[..] == PushEdges(old(msg[..]), us, share)
  {
    for j := 0 to |us|
      invariant msg[..] == PushEdges(old(msg[..]), us[..j], share)
    {
      assert us[..j + 1][..j] == us[..j];
      msg[us[j]] := msg[us[j]] + share;
    }
    assert us[..|us|] == us;
  }

  /** The compute phase: every rank replaced by its next value, and the change added up. */
  method Compute(g: Graph, rank: array<real>, msg: array<real>, teleport: Vec, d: real, dangling: real) returns (residual: real)
    requires GraphOk(g) && rank.Length == msg.Length == |teleport| == |g| && rank != msg
    requires msg[..] == Messages(g, Shares(g, rank[..]), |g|) && dangling == Dangling(g, rank[..], |g|)
    modifies rank
    ensures rank[..] == Next(g, teleport, d, old(rank[..])) && residual == Dist(rank[..], old(rank[..]))
  {
    ghost var before := rank[..];
    ghost var next := Next(g, teleport, d, before);
    InflowsAreMessages(g, before);
    residual := 0.0;
    for u := 0 to rank.Length
      invariant forall i :: 0 <= i < u ==> rank[i] == next[i]
      invariant forall i :: u <= i < rank.Length ==> rank[i] == before[i]
      invariant residual == DistUpTo(next, before, u)
    {
      assert msg[u] == msg[..][u];
      NextAt(g, teleport, d, before, u, msg[u], dangling);
      var x := Blend(d, teleport[u], msg[u], dangling);
      residual := residual + (if x - rank[u] < 0.0 then -(x - rank[u]) else x - rank[u]);
      rank[u] := x;
    }
    assert rank[..] == next;
    DistUpToAll(next, before);
  }

  function Blend(d: real, t: real, m: real, s: real): real
  {
    (1.0 - d) * t + d * (m + s * t)
  }

  lemma BlendAt(d: real, t: Vec, flow: Vec, s: real, u: nat)
    requires u < |t| == |flow|
    ensures Add(Scale(1.0 - d, t), Scale(d, Add(flow, Scale(s, t))))[u] == Blend(d, t[u], flow[u], s)
  {
  }

  lemma NextAt(g: Graph, teleport: Vec, d: real, rank: Vec, u: nat, m: real, s: real)
    requires |rank| == |teleport| == |g| && u < |g| && m == Inflows(g, rank)[u] && s == Dangling(g, rank, |g|)
    ensures Next(g, teleport, d, rank)[u] == Blend(d, teleport[u], m, s)
  {
    BlendAt(d, teleport, Inflows(g, rank), s, u);
  }

  /** What v sends to u: its rank over its out-degree, once for each edge from v to u. */
  ghost function Flow(g: Graph, rank: Vec, v: nat, u: nat): real
    requires v < |g| == |rank|
  {
    if g[v] == [] then 0.0 else multiset(g[v])[u] as real * (rank[v] / |g[v]| as real)
  }

  /** What the first n vertices send to u. */
  ghost function Flows(g: Graph, rank: Vec, u: nat, n: nat): (r: Vec)
    requires n <= |g| == |rank|
    ensures |r| == n
  {
    seq(n, v requires 0 <= v < n => Flow(g, rank, v, u))
  }

  lemma {:induction false} InflowIsSum(g: Graph, rank: Vec, u: nat, n: nat)
    requires n <= |g| == |rank|
    ensures Inflow(g, rank, u, n) == Sum(Flows(g, rank, u, n))
  {
    if n > 0 {
      InflowIsSum(g, rank, u, n - 1);
      FlowsFront(g, rank, u, n);
      SentIsFlow(g, rank, n - 1, u);
    }
  }

  lemma FlowsFront(g: Graph, rank: Vec, u: nat, n: nat)
    requires 0 < n <= |g| == |rank|
    ensures Flows(g, rank, u, n)[..n - 1] == Flows(g, rank, u, n - 1) && Flows(g, rank, u, n)[n - 1] == Flow(g, rank, n - 1, u)
  {
  }

  lemma SentIsFlow(g: Graph, rank: Vec, v: nat, u: nat)
    requires v < |g| == |rank|
    ensures Flow(g, rank, v, u) == if g[v] == [] then 0.0 else Received(g[v], u, rank[v] / |g[v]| as real)
  {
    if g[v] != [] {
      ReceivedCount(g[v], u, rank[v] / |g[v]| as real);
      TimesIsProduct(multiset(g[v])[u], rank[v] / |g[v]| as real);
    }
  }

  /** What the first n vertices hold without an edge to send it along. */
  ghost function Stuck(g: Graph, rank: Vec, n: nat): (r: Vec)
    requires n <= |g| == |rank|
    ensures |r| == n
  {
    seq(n, v requires 0 <= v < n => if g[v] == [] then rank[v] else 0.0)
  }

  lemma {:induction false} DanglingIsSum(g: Graph, rank: Vec, n: nat)
    requires n <= |g| == |rank|
    ensures Dangling(g, rank, n) == Sum(Stuck(g, rank, n))
  {
    if n > 0 {
      DanglingIsSum(g, rank, n - 1);
      assert Stuck(g, rank, n)[..n - 1] == Stuck(g, rank, n - 1);
    }
  }

  lemma NextBlends(g: Graph, teleport: Vec, d: real, rank: Vec, u: nat, x: real, t: real, m: real, s: real)
    requires |rank| == |teleport| == |g| && u < |g|
    requires x == Next(g, teleport, d, rank)[u] && t == teleport[u] && m == Inflow(g, rank, u, |g|) && s == Dangling(g, rank, |g|)
    ensures x == Blend(d, t, m, s)
  {
    NextAt(g, teleport, d, rank, u, m, s);
  }

  lemma BlendIs(x: real, d: real, t: real, m: real, s: real)
    requires x == Blend(d, t, m, s)
    ensures x == (1.0 - d) * t + d * (m + s * t)
  {
  }

  /** The recurrence at one vertex, term by term. */
  lemma Recurrence(g: Graph, teleport: Vec, d: real, rank: Vec, u: nat, x: real, t: real, m: real, s: real)
    requires |rank| == |teleport| == |g| && u < |g|
    requires x == Next(g, teleport, d, rank)[u] && t == teleport[u]
    requires m == Sum(Flows(g, rank, u, |g|)) && s == Sum(Stuck(g, rank, |g|))
    ensures x == (1.0 - d) * t + d * (m + s * t)
  {
    InflowIsSum(g, rank, u, |g|);
    DanglingIsSum(g, rank, |g|);
    NextBlends(g, teleport, d, rank, u, x, t, m, s);
    BlendIs(x, d, t, m, s);
  }

  /** Supersteps 1 to k all changed the ranks by at least the tolerance. */
  ghost predicate StillMoving(g: Graph, teleport: Vec, d: real, tolerance: real, k: nat)
    requires |teleport| == |g|
  {
    forall j :: 1 <= j <= k ==> Residual(g, teleport, d, j) >= tolerance
  }

  ghost function Residual(g: Graph, teleport: Vec, d: real, k: nat): real
    requires |teleport| == |g| && k > 0
  {
    Dist(Iterate(g, teleport, d, k), Iterate(g, teleport, d, k - 1))
  }

  /** What a finished run reports. */
  ghost predicate Ran(g: Graph, teleport: Vec, d: real, tolerance: real, max: nat, rank: Vec, stats: Stats)
    requires |teleport| == |g|
  {
    && 1 <= stats.supersteps <= max
    && rank == Iterate(g, teleport, d, stats.supersteps)
    && stats.residual == Residual(g, teleport, d, stats.supersteps)
    && (stats.converged <==> stats.residual < tolerance)
    && (!stats.converged ==> stats.supersteps == max)
    && StillMoving(g, teleport, d, tolerance, stats.supersteps - 1)
  }

  /** Runs supersteps until the ranks settle or the cap is reached. */
  method Supersteps(g: Graph, teleport: Vec, d: real, tolerance: real, max: nat) returns (result: Vec, stats: Stats)
    requires GraphOk(g) && |teleport| == |g| && max > 0
    ensures Ran(g, teleport, d, tolerance, max, result, stats)
  {
    var n := |g|;
    var rank, msg := new real[n](i requires 0 <= i < n => teleport[i]), new real[n];
    assert rank[..] == Iterate(g, teleport, d, 0);
    stats := Stats(0, 0.0, false);
    for step := 1 to max + 1
      invariant rank[..] == Iterate(g, teleport, d, step - 1) && !stats.converged && stats.supersteps == step - 1
      invariant step > 1 ==> stats.residual == Residual(g, teleport, d, step - 1) >= tolerance
      invariant StillMoving(g, teleport, d, tolerance, step - 1)
    {
      var dangling := Push(g, rank, msg);
      var residual := Compute(g, rank, msg, teleport, d, dangling);
      assert rank[..] == Iterate(g, teleport, d, step);
      stats := Stats(step, residual, false);
      if residual < tolerance {
        stats := stats.(converged := true);
        return rank[..], stats;
      }
    }
    result := rank[..];
  }

  method Run(g: Graph, cfg: Config) returns (result: Vec, stats: Stats)
    requires GraphOk(g)
    requires cfg.teleport.Some? ==> |cfg.teleport.value| == |g|
    ensures |g| == 0 ==> result == [] && stats.converged
    ensures |g| > 0 ==> Ran(g, TeleportOf(cfg, |g|), Damping(cfg), Tolerance(cfg), MaxSupersteps(cfg), result, stats)
    ensures Damping(cfg) == if cfg.damping > 0.0 then cfg.damping else 0.85
    ensures Tolerance(cfg) == if cfg.tolerance > 0.0 then cfg.tolerance else 0.000001
    ensures MaxSupersteps(cfg) == if cfg.maxSupersteps > 0 then cfg.maxSupersteps else 100
    ensures forall u :: 0 <= u < |g| ==> TeleportOf(cfg, |g|)[u] == if cfg.teleport.Some? then cfg.teleport.value[u] else 1.0 / |g| as real
    ensures |g| > 0 && Sum(TeleportOf(cfg, |g|)) == 1.0 ==> Sum(result) == 1.0
    ensures |g| > 0 && Distribution(TeleportOf(cfg, |g|), |g|) && Damping(cfg) <= 1.0 ==> Distribution(result, |g|)
    ensures |g| > 0 && cfg.teleport.None? ==> Distribution(TeleportOf(cfg, |g|), |g|)
  {
    var n := |g|;
    if n == 0 {
      return [], Stats(0, 0.0, true);
    }
    UniformIsDistribution(n);
    var teleport := if cfg.teleport.Some? then cfg.teleport.value else seq(n, i => 1.0 / n as real);
    assert teleport == TeleportOf(cfg, n);
    result, stats := Supersteps(g, teleport, Damping(cfg), Tolerance(cfg), MaxSupersteps(cfg));
    if Sum(teleport) == 1.0 { IterateSums(g, teleport, Damping(cfg), stats.supersteps); }
    if Distribution(teleport, n) && Damping(cfg) <= 1.0 { IterateIsDistribution(g, teleport, Damping(cfg), stats.supersteps); }
  }

  /** An explicit bound: once 2 d^(k-1) is below the tolerance, the run has converged by step k. */
  lemma ConvergesBy(g: Graph, teleport: Vec, d: real, tolerance: real, max: nat, rank: Vec, stats: Stats, k: nat)
    requires GraphOk(g) && Distribution(teleport, |g|) && 0.0 <= d <= 1.0
    requires Ran(g, teleport, d, tolerance, max, rank, stats)
    requires 1 <= k <= max && 2.0 * Pow(d, k - 1) < tolerance
    ensures stats.converged && stats.supersteps <= k
  {
    ResidualShrinks(g, teleport, d, k - 1);
    assert Residual(g, teleport, d, k) < tolerance;
    assert stats.supersteps == k ==> stats.residual == Residual(g, teleport, d, k);
  }

  // ----- seeds

  /** What each vertex gets: its count among the seeds over their number, or an equal part without seeds. */
  ghost function SeedVector(n: nat, seeds: seq<nat>): (r: Vec)
    ensures |r| == n
  {
    seq(n, u requires 0 <= u < n => if seeds == [] then 1.0 / n as real else multiset(seeds)[u] as real / |seeds| as real)
  }

  /** The restart vector spread over the seeds, or over everything when there are none. */
  method SeedTeleport(n: nat, seeds: seq<nat>) returns (t: Vec)
    requires forall i :: 0 <= i < |seeds| ==> seeds[i] < n
    ensures n > 0 ==> Distribution(t, n)
    ensures t == SeedVector(n, seeds)
    ensures forall u :: 0 <= u < n && |seeds| > 0 ==> t[u] == multiset(seeds)[u] as real / |seeds| as real && (t[u] > 0.0 <==> u in seeds)
    ensures forall u :: 0 <= u < n && |seeds| == 0 ==> t[u] == 1.0 / n as real
  {
    if n == 0 {
      return [];
    }
    if |seeds| == 0 {
      UniformIsDistribution(n);
      return seq(n, i => 1.0 / n as real);
    }
    var a := new real[n](i => 0.0);
    assert a[..] == Zeros(n);
    var share := 1.0 / |seeds| as real;
    Send(seeds, share, a);
    t := a[..];
    SeedsSpread(n, seeds, share);
  }

  /** Along the edges us, u receives a share for each time it is named. */
  lemma {:induction false} ReceivedCount(us: seq<nat>, u: nat, share: real)
    ensures Received(us, u, share) == Times(multiset(us)[u], share)
  {
    if us != [] {
      var n := |us| - 1;
      ReceivedCount(us[..n], u, share);
      assert us == us[..n] + [us[n]];
    }
  }

  lemma CountOver(c: nat, n: nat)
    requires n > 0
    ensures Times(c, 1.0 / n as real) == c as real / n as real
  {
    TimesIsProduct(c, 1.0 / n as real);
  }

  lemma {:induction false} ReceivedPositive(us: seq<nat>, u: nat, share: real)
    requires share > 0.0
    ensures Received(us, u, share) >= 0.0 && (Received(us, u, share) > 0.0 <==> u in us)
  {
    if us != [] {
      ReceivedPositive(us[..|us| - 1], u, share);
      assert us == us[..|us| - 1] + [us[|us| - 1]];
    }
  }

  lemma SeedsSpread(n: nat, seeds: seq<nat>, share: real)
    requires |seeds| > 0 && share == 1.0 / |seeds| as real && forall i :: 0 <= i < |seeds| ==> seeds[i] < n
    ensures Distribution(PushEdges(Zeros(n), seeds, share), n)
    ensures forall u :: 0 <= u < n ==> (PushEdges(Zeros(n), seeds, share)[u] > 0.0 <==> u in seeds)
    ensures PushEdges(Zeros(n), seeds, share) == SeedVector(n, seeds)
  {
    forall u | 0 <= u < n
      ensures PushEdges(Zeros(n), seeds, share)[u] >= 0.0 && (PushEdges(Zeros(n), seeds, share)[u] > 0.0 <==> u in seeds)
      ensures PushEdges(Zeros(n), seeds, share)[u] == SeedVector(n, seeds)[u]
    {
      ReceivedCount(seeds, u, share);
      CountOver(multiset(seeds)[u], |seeds|);
      PushEdgesAt(Zeros(n), seeds, share, u);
      ReceivedPositive(seeds, u, share);
    }
    PushEdgesSum(Zeros(n), seeds, share);
    SumZero(Zeros(n));
    UnitShares(|seeds|);
  }
}
