/** Rendezvous placement (control/rendezvous.go). The hash is a parameter. */
module Rendezvous {
  import opened Heaps
  import opened Ranking
  import opened Lexical
  import opened Sorting

  type Weight = (nat, string) -> nat

  /** Larger weight first, then the smaller id. */
  function Heavier(weight: Weight, shard: nat): (string, string) -> bool
  {
    (a, b) => weight(shard, a) > weight(shard, b) || (weight(shard, a) == weight(shard, b) && LexLess(a, b))
  }

  lemma HeavierTotal(weight: Weight, shard: nat)
    ensures StrictTotal(Heavier(weight, shard)) && WeakOrder(Heavier(weight, shard))
  {
    LexTotal();
    var h := Heavier(weight, shard);
    forall a, b, c | h(a, b) && h(b, c) ensures h(a, c) {}
    assert StrictTotal(h);
    TotalIsWeak(h);
  }

  lemma TotalIsWeak<T(!new)>(less: (T, T) -> bool)
    requires StrictTotal(less)
    ensures WeakOrder(less)
  {
  }

  /** The nodes that should hold the replicas of a shard. */
  ghost function Placed(weight: Weight, shard: nat, nodes: set<string>, replicas: int): seq<string>
  {
    HeavierTotal(weight, shard);
    TopK(nodes, replicas, Heavier(weight, shard))
  }

  /** out is the first `replicas` of the candidates, sorted. */
  ghost predicate IsPlacement(weight: Weight, shard: nat, candidates: seq<string>, replicas: int, out: seq<string>)
  {
    if replicas <= 0 then out == []
    else
      exists full {:trigger InOrder(full, Heavier(weight, shard))} ::
        && multiset(full) == multiset(candidates) && InOrder(full, Heavier(weight, shard))
        && out == if replicas < |full| then full[..replicas] else full
  }

  datatype Weighted = Weighted(node: string, w: nat)

  predicate Before(a: Weighted, b: Weighted)
  {
    a.w > b.w || (a.w == b.w && LexLess(a.node, b.node))
  }

  lemma BeforeIsWeakOrder()
    ensures WeakOrder(Before)
  {
    LexTotal();
    forall a, b, c | Before(a, b) && Before(b, c) ensures Before(a, c) {}
    assert StrictTotal(Before);
    TotalIsWeak(Before);
  }

  ghost function Weigh(weight: Weight, shard: nat, nodes: seq<string>): seq<Weighted>
  {
    seq(|nodes|, i requires 0 <= i < |nodes| => Weighted(nodes[i], weight(shard, nodes[i])))
  }

  function Nodes(ws: seq<Weighted>): seq<string>
  {
    seq(|ws|, i requires 0 <= i < |ws| => ws[i].node)
  }

  /** The nodes placed are heaviest first and heavier than the candidates passed over, ties going to the
      smaller id. */
  method Place(weight: Weight, shard: nat, candidates: seq<string>, replicas: int) returns (out: seq<string>)
    ensures IsPlacement(weight, shard, candidates, replicas, out)
    ensures |out| == if replicas <= 0 then 0 else if replicas < |candidates| then replicas else |candidates|
    ensures multiset(out) <= multiset(candidates)
    ensures forall i, j :: 0 <= i < j < |out| ==>
              weight(shard, out[i]) > weight(shard, out[j]) || (weight(shard, out[i]) == weight(shard, out[j]) && !LexLess(out[j], out[i]))
    ensures forall i, c :: 0 <= i < |out| && c in multiset(candidates) - multiset(out) ==>
              weight(shard, out[i]) > weight(shard, c) || (weight(shard, out[i]) == weight(shard, c) && !LexLess(c, out[i]))
  {
    out := Heaviest(weight, shard, candidates, replicas);
    PlacementOutweighs(weight, shard, candidates, replicas, out);
  }

  method Heaviest(weight: Weight, shard: nat, candidates: seq<string>, replicas: int) returns (out: seq<string>)
    ensures IsPlacement(weight, shard, candidates, replicas, out)
  {
    if |candidates| == 0 || replicas <= 0 {
      assert |candidates| == 0 ==> InOrder(candidates, Heavier(weight, shard));
      return [];
    }
    var ws := WeighAll(weight, shard, candidates);
    BeforeIsWeakOrder();
    var sorted := SortBy(ws, Before);
    SortedNodes(weight, shard, candidates, sorted);
    out := FirstNodes(sorted, if replicas < |sorted| then replicas else |sorted|);
  }

  method WeighAll(weight: Weight, shard: nat, candidates: seq<string>) returns (ws: seq<Weighted>)
    ensures ws == Weigh(weight, shard, candidates)
  {
    ws := [];
    for i := 0 to |candidates|
      invariant ws == Weigh(weight, shard, candidates[..i])
    {
      ws := ws + [Weighted(candidates[i], weight(shard, candidates[i]))];
    }
    assert candidates[..|candidates|] == candidates;
  }

  method FirstNodes(sorted: seq<Weighted>, n: nat) returns (out: seq<string>)
    requires n <= |sorted|
    ensures out == Nodes(sorted)[..n]
  {
    out := [];
    for i := 0 to n
      invariant out == Nodes(sorted)[..i]
    {
      out := out + [sorted[i].node];
    }
  }

  /** The first of the sorted candidates come before the rest. */
  lemma FirstOfSorted<T>(all: seq<T>, full: seq<T>, out: seq<T>, less: (T, T) -> bool)
    requires multiset(full) == multiset(all) && InOrder(full, less) && out <= full
    ensures |full| == |all| && multiset(out) <= multiset(all) && InOrder(out, less)
    ensures forall i, c :: 0 <= i < |out| && c in multiset(all) - multiset(out) ==> !less(c, out[i])
  {
    var n := |out|;
    assert |multiset(full)| == |multiset(all)|;
    assert full == out + full[n..];
    assert multiset(all) - multiset(out) == multiset(full[n..]);
    forall i, c | 0 <= i < n && c in multiset(full[n..]) ensures !less(c, out[i]) {
      var j :| 0 <= j < |full[n..]| && full[n..][j] == c;
      assert !less(full[n + j], full[i]);
    }
  }

  lemma NotHeavier(weight: Weight, shard: nat, a: string, b: string)
    requires !Heavier(weight, shard)(b, a)
    ensures weight(shard, a) > weight(shard, b) || (weight(shard, a) == weight(shard, b) && !LexLess(b, a))
  {
  }

  lemma PlacementOutweighs(weight: Weight, shard: nat, candidates: seq<string>, replicas: int, out: seq<string>)
    requires IsPlacement(weight, shard, candidates, replicas, out)
    ensures |out| == if replicas <= 0 then 0 else if replicas < |candidates| then replicas else |candidates|
    ensures multiset(out) <= multiset(candidates)
    ensures forall i, j :: 0 <= i < j < |out| ==>
              weight(shard, out[i]) > weight(shard, out[j]) || (weight(shard, out[i]) == weight(shard, out[j]) && !LexLess(out[j], out[i]))
    ensures forall i, c :: 0 <= i < |out| && c in multiset(candidates) - multiset(out) ==>
              weight(shard, out[i]) > weight(shard, c) || (weight(shard, out[i]) == weight(shard, c) && !LexLess(c, out[i]))
  {
    if replicas > 0 {
      var h := Heavier(weight, shard);
      var full :| multiset(full) == multiset(candidates) && InOrder(full, h) && out == if replicas < |full| then full[..replicas] else full;
      FirstOfSorted(candidates, full, out, h);
      forall i, j | 0 <= i < j < |out|
        ensures weight(shard, out[i]) > weight(shard, out[j]) || (weight(shard, out[i]) == weight(shard, out[j]) && !LexLess(out[j], out[i]))
      {
        NotHeavier(weight, shard, out[i], out[j]);
      }
      forall i, c | 0 <= i < |out| && c in multiset(candidates) - multiset(out)
        ensures weight(shard, out[i]) > weight(shard, c) || (weight(shard, out[i]) == weight(shard, c) && !LexLess(c, out[i]))
      {
        NotHeavier(weight, shard, out[i], c);
      }
    }
  }

  ghost predicate Weighs(weight: Weight, shard: nat, ws: seq<Weighted>)
  {
    forall i :: 0 <= i < |ws| ==> ws[i].w == weight(shard, ws[i].node)
  }

  lemma {:induction false} NodesCount(weight: Weight, shard: nat, ws: seq<Weighted>, x: string)
    requires Weighs(weight, shard, ws)
    ensures multiset(Nodes(ws))[x] == multiset(ws)[Weighted(x, weight(shard, x))]
  {
    if ws != [] {
      var n := |ws| - 1;
      NodesCount(weight, shard, ws[..n], x);
      assert ws == ws[..n] + [ws[n]];
      assert Nodes(ws) == Nodes(ws[..n]) + [ws[n].node];
    }
  }

  /** Sorting the weighted nodes sorts the nodes by weight. */
  lemma SortedNodes(weight: Weight, shard: nat, candidates: seq<string>, sorted: seq<Weighted>)
    requires multiset(sorted) == multiset(Weigh(weight, shard, candidates)) && InOrder(sorted, Before)
    ensures multiset(Nodes(sorted)) == multiset(candidates) && InOrder(Nodes(sorted), Heavier(weight, shard))
  {
    var ws := Weigh(weight, shard, candidates);
    forall i | 0 <= i < |sorted| ensures sorted[i].w == weight(shard, sorted[i].node) {
      assert sorted[i] in multiset(ws);
      assert sorted[i] in ws;
    }
    assert Nodes(ws) == candidates;
    forall x ensures multiset(Nodes(sorted))[x] == multiset(candidates)[x] {
      NodesCount(weight, shard, sorted, x);
      NodesCount(weight, shard, ws, x);
    }
    forall i, j | 0 <= i < j < |sorted| ensures !Heavier(weight, shard)(Nodes(sorted)[j], Nodes(sorted)[i]) {
      assert !Before(sorted[j], sorted[i]);
    }
  }

  // ----- properties

  /** Placement does not depend on the order of the candidates. */
  lemma PlacementIgnoresOrder(weight: Weight, shard: nat, a: seq<string>, b: seq<string>, replicas: int, x: seq<string>, y: seq<string>)
    requires IsPlacement(weight, shard, a, replicas, x) && IsPlacement(weight, shard, b, replicas, y)
    requires multiset(a) == multiset(b)
    ensures x == y
  {
    if replicas > 0 {
      HeavierTotal(weight, shard);
      var h := Heavier(weight, shard);
      var p :| multiset(p) == multiset(a) && InOrder(p, h) && x == if replicas < |p| then p[..replicas] else p;
      var q :| multiset(q) == multiset(b) && InOrder(q, h) && y == if replicas < |q| then q[..replicas] else q;
      SortIsUnique(p, q, h);
    }
  }

  /** On candidates without repeats, placement takes the best `replicas` of the set. */
  lemma PlacementIsPlaced(weight: Weight, shard: nat, candidates: seq<string>, nodes: set<string>, replicas: int, out: seq<string>)
    requires IsPlacement(weight, shard, candidates, replicas, out) && multiset(candidates) == multiset(nodes)
    ensures out == Placed(weight, shard, nodes, replicas)
  {
    if replicas > 0 {
      HeavierTotal(weight, shard);
      var h := Heavier(weight, shard);
      var p :| multiset(p) == multiset(candidates) && InOrder(p, h) && out == if replicas < |p| then p[..replicas] else p;
      SortedListingIsRank(p, nodes, h);
    }
  }

  /** Every node placed outweighs every node not placed, or ties with it and has the smaller id. */
  lemma PlacedOutweighs(weight: Weight, shard: nat, nodes: set<string>, replicas: int)
    ensures var out := Placed(weight, shard, nodes, replicas);
            && |out| == (if replicas <= 0 then 0 else if replicas < |nodes| then replicas else |nodes|)
            && (forall x :: x in out ==> x in nodes)
            && (forall i, j :: 0 <= i < j < |out| ==>
                  weight(shard, out[i]) > weight(shard, out[j]) || (weight(shard, out[i]) == weight(shard, out[j]) && LexLess(out[i], out[j])))
            && (forall i, x :: 0 <= i < |out| && x in nodes && x !in out ==>
                  weight(shard, out[i]) > weight(shard, x) || (weight(shard, out[i]) == weight(shard, x) && LexLess(out[i], x)))
  {
    HeavierTotal(weight, shard);
    var h := Heavier(weight, shard);
    TopKBeats(nodes, replicas, h);
    var out := Placed(weight, shard, nodes, replicas);
    forall i, j | 0 <= i < j < |out| ensures h(out[i], out[j]) {}
    forall i, x | 0 <= i < |out| && x in nodes && x !in out ensures h(out[i], x) {}
  }

  /** Removing a node leaves every shard it did not hold as it was; a shard it held loses only that
      node and gains at most one, at the end. */
  lemma RemovalIsMinimal(weight: Weight, shard: nat, nodes: set<string>, replicas: int, x: string)
    requires x in nodes
    ensures var before, after := Placed(weight, shard, nodes, replicas), Placed(weight, shard, nodes - {x}, replicas);
            && (x !in before <==> after == before)
            && (forall i :: 0 <= i < |before| && before[i] == x ==>
                  exists gain: seq<string> :: |gain| <= 1 && after == Without(before, i) + gain)
  {
    HeavierTotal(weight, shard);
    var h := Heavier(weight, shard);
    var before, after := Placed(weight, shard, nodes, replicas), Placed(weight, shard, nodes - {x}, replicas);
    if replicas > 0 {
      var i := TopKRemove(nodes, replicas, h, x);
      GoneFromTopK(nodes - {x}, replicas, h, x);
      if i < replicas {
        var gain := if replicas < |nodes| then [Rank(nodes, h)[replicas]] else [];
        assert |gain| <= 1 && after == Without(before, i) + gain;
      }
    }
  }

  lemma GoneFromTopK<T(!new)>(s: set<T>, k: nat, better: (T, T) -> bool, x: T)
    requires StrictTotal(better) && x !in s
    ensures x !in TopK(s, k, better)
  {
    RankSorts(s, better);
    assert x !in Elements(Rank(s, better));
  }
}
