/** The placement controller's target and its diff (control/placement.go, control/membership.go). */
module Placement {
  import opened Ranking
  import opened Lexical
  import opened Sorting
  import opened Store
  import opened RouteCodec
  import opened Routing
  import opened Rendezvous

  const NODE: string := "node/"

  /** Shards is the stable shard count, a uint32 range. */
  datatype Config = Config(shards: nat, replicas: int, weight: Weight)

  ghost predicate ConfigOk(c: Config)
  {
    c.shards <= SHARDS
  }

  // ----- membership

  ghost function MemberSet(kv: Kv): set<string>
  {
    set k | k in kv && NODE <= k :: k[|NODE|..]
  }

  /** The ids under the membership prefix, in whatever order the map yields them. */
  method NodeIds(kvs: Kv) returns (ids: seq<string>)
    requires forall k :: k in kvs ==> NODE <= k
    ensures multiset(ids) == multiset(NamesOf(kvs.Keys))
  {
    ids := [];
    var rest := kvs.Keys;
    ghost var done := {};
    while rest != {}
      invariant rest <= kvs.Keys && done == kvs.Keys - rest
      invariant multiset(ids) == multiset(NamesOf(done))
    {
      var k :| k in rest;
      NamesMore(done, k);
      ids := ids + [k[|NODE|..]];
      rest, done := rest - {k}, done + {k};
    }
  }

  /** The live nodes, sorted, so that every reader sees the same order. */
  method Members(store: MemStore) returns (out: seq<string>)
    ensures StrictTotal(LexLess) && out == Rank(MemberSet(store.kv), LexLess)
    ensures multiset(out) == multiset(MemberSet(store.kv))
    ensures forall n :: n in out <==> NODE + n in store.kv
    ensures forall i, j :: 0 <= i < j < |out| ==> LexLess(out[i], out[j])
  {
    LexTotal();
    var kvs := store.ListPrefix(NODE);
    var ids := NodeIds(kvs);
    assert NamesOf(kvs.Keys) == MemberSet(store.kv);
    TotalIsWeak(LexLess);
    out := SortBy(ids, LexLess);
    SortedListingIsRank(out, MemberSet(store.kv), LexLess);
    MembersAre(store.kv, out);
  }

  lemma MembersAre(kv: Kv, out: seq<string>)
    requires StrictTotal(LexLess) && out == Rank(MemberSet(kv), LexLess)
    ensures forall n :: n in out <==> NODE + n in kv
    ensures forall i, j :: 0 <= i < j < |out| ==> LexLess(out[i], out[j])
  {
    RankSorts(MemberSet(kv), LexLess);
    forall n ensures n in out <==> NODE + n in kv {
      assert n in out <==> n in Elements(out);
      assert (NODE + n)[|NODE|..] == n;
      if n in MemberSet(kv) {
        var k :| k in kv && NODE <= k && k[|NODE|..] == n;
        assert k == NODE + n;
      }
    }
  }

  ghost function NamesOf(keys: set<string>): set<string>
  {
    set k | k in keys && NODE <= k :: k[|NODE|..]
  }

  lemma NamesMore(keys: set<string>, k: string)
    requires NODE <= k && k !in keys && forall x :: x in keys ==> NODE <= x
    ensures NamesOf(keys + {k}) == NamesOf(keys) + {k[|NODE|..]} && k[|NODE|..] !in NamesOf(keys)
  {
    forall x | x in keys ensures x[|NODE|..] != k[|NODE|..] {
      assert x == NODE + x[|NODE|..] && k == NODE + k[|NODE|..];
    }
  }

  // ----- the target

  ghost function Desired(c: Config, members: set<string>, shard: nat): seq<string>
  {
    Placed(c.weight, shard, members, c.replicas)
  }

  method DesiredAssignment(c: Config, members: seq<string>, ghost nodes: set<string>) returns (a: Assignment)
    requires multiset(members) == multiset(nodes)
    ensures forall s: nat :: s in a <==> s < c.shards
    ensures forall s :: s in a ==> a[s] == Desired(c, nodes, s)
  {
    a := map[];
    for s := 0 to c.shards
      invariant forall n: nat :: n in a <==> n < s
      invariant forall n :: n in a ==> a[n] == Desired(c, nodes, n)
    {
      var nodesOf := DesiredNodes(c, s, members, nodes);
      a := a[s := nodesOf];
    }
  }

  method DesiredNodes(c: Config, shard: nat, members: seq<string>, ghost nodes: set<string>) returns (out: seq<string>)
    requires multiset(members) == multiset(nodes)
    ensures out == Desired(c, nodes, shard)
  {
    out := Place(c.weight, shard, members, c.replicas);
    PlacementIsPlaced(c.weight, shard, members, nodes, c.replicas, out);
  }

  /** What a map read from the store says of a shard; an absent shard reads as no nodes. */
  function NodesIn(a: Assignment, shard: nat): seq<string>
  {
    if shard in a then a[shard] else []
  }

  /** Every key of the shard holds these nodes; a shard without a key reads as no nodes. */
  ghost predicate Says(kv: Kv, shard: nat, nodes: seq<string>)
  {
    && (forall k :: k in kv && Names(k, shard) ==> DecodeNodes(kv[k]) == nodes)
    && (!Named(kv, shard) ==> nodes == [])
  }

  ghost predicate InSync(c: Config, kv: Kv, members: set<string>)
  {
    forall s: nat :: s < c.shards ==> Says(kv, s, Desired(c, members, s))
  }

  /** The shards whose nodes, as read, are not the desired ones. */
  ghost function Diff(c: Config, a: Assignment, members: set<string>): set<nat>
  {
    set s: nat | s < c.shards && NodesIn(a, s) != Desired(c, members, s)
  }

  lemma SaysIsRead(kv: Kv, a: Assignment, shard: nat, nodes: seq<string>)
    requires ReadsAt(kv, a, shard) && Says(kv, shard, nodes)
    ensures NodesIn(a, shard) == nodes
  {
  }

  lemma AnyReading(kv: Kv) returns (a: Assignment)
    ensures Reading(kv, a)
  {
    var shards := set k | k in kv && ParseRouteKey(k).Some? :: ParseRouteKey(k).value;
    forall m: nat ensures m in shards <==> Named(kv, m) {
      if k :| k in kv && ParseRouteKey(k).Some? && ParseRouteKey(k).value == m {
        assert Names(k, m);
      }
    }
    a := map m | m in shards :: DecodeNodes(kv[KeyOf(kv, m)]);
  }

  /** A scan may come upon any one key of a shard last. */
  lemma SomeReading(kv: Kv, key: string, n: nat) returns (a: Assignment)
    requires key in kv && Names(key, n)
    ensures Reading(kv, a) && NodesIn(a, n) == DecodeNodes(kv[key])
  {
    var b := AnyReading(kv);
    a := b[n := DecodeNodes(kv[key])];
    forall m: nat ensures ReadsAt(kv, a, m) {
      assert ReadsAt(kv, b, m);
    }
  }

  ghost function KeyOf(kv: Kv, n: nat): (k: string)
    requires Named(kv, n)
    ensures k in kv && Names(k, n)
  {
    var k :| k in kv && Names(k, n); k
  }

  // ----- names that survive the encoding

  ghost predicate Name(s: string)
  {
    s != "" && OneLine(s)
  }

  ghost predicate AllNames(ids: set<string>)
  {
    forall x :: x in ids ==> Name(x)
  }

  lemma DesiredRoundTrips(c: Config, members: set<string>, shard: nat)
    requires AllNames(members)
    ensures DecodeNodes(EncodeNodes(Desired(c, members, shard))) == Desired(c, members, shard)
  {
    HeavierTotal(c.weight, shard);
    var ns := Desired(c, members, shard);
    RankSorts(members, Heavier(c.weight, shard));
    forall i | 0 <= i < |ns| ensures Name(ns[i]) {
      assert ns[i] in Elements(Rank(members, Heavier(c.weight, shard)));
    }
    NodesRoundTripIff(ns);
  }

  /** A node's death concerns exactly the shards that held it. */
  lemma DeathTouchesOnlyItsShards(c: Config, kv: Kv, a: Assignment, members: set<string>, x: string)
    requires InSync(c, kv, members) && Reading(kv, a) && x in members
    ensures Diff(c, a, members - {x}) == set s: nat | s < c.shards && x in NodesIn(a, s)
  {
    forall s: nat | s < c.shards
      ensures NodesIn(a, s) != Desired(c, members - {x}, s) <==> x in NodesIn(a, s)
    {
      assert ReadsAt(kv, a, s);
      SaysIsRead(kv, a, s, Desired(c, members, s));
      RemovalIsMinimal(c.weight, s, members, c.replicas, x);
    }
  }

  // ----- publishing

  /** kv' is kv with the shards of a written. */
  ghost predicate Written(kv: Kv, a: Assignment, shards: set<nat>, kv': Kv)
    requires shards <= a.Keys
  {
    && (forall s :: s in shards ==> RouteKey(s) in kv' && kv'[RouteKey(s)] == EncodeNodes(a[s]))
    && (forall k :: k in kv ==> k in kv')
    && (forall k :: k in kv' && (forall s :: s in shards ==> k != RouteKey(s)) ==> k in kv && kv'[k] == kv[k])
  }

  lemma WrittenMore(kv: Kv, a: Assignment, shards: set<nat>, kv': Kv, s: nat)
    requires shards <= a.Keys && s in a && Written(kv, a, shards, kv')
    ensures Written(kv, a, shards + {s}, kv'[RouteKey(s) := EncodeNodes(a[s])])
  {
    var kv2 := kv'[RouteKey(s) := EncodeNodes(a[s])];
    forall n | n in shards + {s} ensures RouteKey(n) in kv2 && kv2[RouteKey(n)] == EncodeNodes(a[n]) {
      if RouteKey(n) == RouteKey(s) { RouteKeyInjective(n, s); }
    }
    forall k | k in kv2 && (forall n :: n in shards + {s} ==> k != RouteKey(n)) ensures k in kv && kv2[k] == kv[k] {
      assert s in shards + {s};
      assert forall n :: n in shards ==> n in shards + {s};
    }
  }

  /** The store after the shards are put, one after another. */
  ghost function Published(s: State, a: Assignment, order: seq<nat>): State
    requires Covers(a, order)
  {
    if order == [] then s
    else
      var n := |order| - 1;
      Put(Published(s, a, order[..n]), RouteKey(order[n]), EncodeNodes(a[order[n]]), 0)
  }

  ghost predicate Covers(a: Assignment, order: seq<nat>)
  {
    forall i :: 0 <= i < |order| ==> order[i] in a
  }

  /** Publishing attaches nothing to a lease. */
  lemma {:induction false} PublishedKeepsLeases(s: State, a: Assignment, order: seq<nat>)
    requires Covers(a, order)
    ensures var s' := Published(s, a, order); s'.leaseOf == s.leaseOf && s'.keysOf == s.keysOf
  {
    if order != [] { PublishedKeepsLeases(s, a, order[..|order| - 1]); }
  }

  lemma {:induction false} PublishedWrites(s: State, a: Assignment, order: seq<nat>)
    requires Covers(a, order)
    ensures Elements(order) <= a.Keys && Written(s.kv, a, Elements(order), Published(s, a, order).kv)
  {
    if order != [] {
      var n := |order| - 1;
      PublishedWrites(s, a, order[..n]);
      WrittenMore(s.kv, a, Elements(order[..n]), Published(s, a, order[..n]).kv, order[n]);
      SnocElements(order, n);
    }
  }

  lemma SnocElements(order: seq<nat>, n: nat)
    requires |order| == n + 1
    ensures Elements(order) == Elements(order[..n]) + {order[n]}
  {
    assert order == order[..n] + [order[n]];
  }

  /** Puts one key per shard, in whatever order the map yields them. */
  method Publish(store: MemStore, a: Assignment) returns (ghost order: seq<nat>)
    requires store.Valid()
    modifies store
    ensures store.Valid() && Elements(order) == a.Keys && |order| == |a| && Covers(a, order)
    ensures store.View() == Published(old(store.View()), a, order)
  {
    var rest := a.Keys;
    order := [];
    while rest != {}
      invariant store.Valid() && Ordering(a, rest, order)
      invariant store.View() == Published(old(store.View()), a, order)
    {
      var s :| s in rest;
      assert (order + [s])[..|order|] == order;
      OrderMore(a, rest, order, s);
      store.PutKey(RouteKey(s), EncodeNodes(a[s]), 0);
      rest, order := rest - {s}, order + [s];
    }
  }

  /** order lists the shards of a that are not in rest. */
  ghost predicate Ordering(a: Assignment, rest: set<nat>, order: seq<nat>)
  {
    rest <= a.Keys && Elements(order) == a.Keys - rest && |order| + |rest| == |a| && Covers(a, order)
  }

  lemma OrderMore(a: Assignment, rest: set<nat>, order: seq<nat>, s: nat)
    requires Ordering(a, rest, order) && s in rest
    ensures Ordering(a, rest - {s}, order + [s])
  {
    SnocElements(order + [s], |order|);
    assert (order + [s])[..|order|] == order;
  }

  lemma RouteIsNotNode(shard: nat)
    ensures !(NODE <= RouteKey(shard))
  {
    assert RouteKey(shard)[0] == 'r' && NODE[0] == 'n';
  }

  lemma WrittenKeepsMembers(kv: Kv, a: Assignment, kv': Kv)
    requires Written(kv, a, a.Keys, kv')
    ensures MemberSet(kv') == MemberSet(kv)
  {
    forall k | NODE <= k ensures k in kv <==> k in kv' {
      forall s | s in a ensures k != RouteKey(s) { RouteIsNotNode(s); }
    }
  }

  // ----- reconciling

  /** The new replica sets of the shards that differ. */
  ghost function Changes(c: Config, a: Assignment, members: set<string>): Assignment
  {
    map s | s in Diff(c, a, members) :: Desired(c, members, s)
  }

  /** The list reads back as it was written. */
  ghost predicate Survives(nodes: seq<string>)
  {
    nodes != [""] && forall i :: 0 <= i < |nodes| ==> OneLine(nodes[i])
  }

  /** What is about to be written for the shard survives the encoding, and every key of the shard that
      is not rewritten holds what is desired already. */
  ghost predicate SettlesAt(c: Config, kv: Kv, a: Assignment, members: set<string>, s: nat)
  {
    && (s in Diff(c, a, members) ==> Survives(Desired(c, members, s)))
    && (forall k :: k in kv && Names(k, s) && !(s in Diff(c, a, members) && k == RouteKey(s)) ==>
          DecodeNodes(kv[k]) == Desired(c, members, s))
  }

  ghost predicate Settles(c: Config, kv: Kv, a: Assignment, members: set<string>)
  {
    forall s: nat :: s < c.shards ==> SettlesAt(c, kv, a, members, s)
  }

  /** Reads the members and the table and publishes the shards that differ. Run without
      interference, it brings the table in line with the members exactly if the scan settles. */
  method Reconcile(c: Config, store: MemStore) returns (count: nat, ghost current: Assignment, ghost order: seq<nat>)
    requires ConfigOk(c) && store.Valid()
    modifies store
    ensures store.Valid() && MemberSet(store.kv) == old(MemberSet(store.kv))
    ensures store.leaseOf == old(store.leaseOf) && store.keysOf == old(store.keysOf)
    ensures Reading(old(store.kv), current)
    ensures count == |Diff(c, current, MemberSet(store.kv))| == |order|
    ensures Elements(order) == Diff(c, current, MemberSet(store.kv))
    ensures Covers(Changes(c, current, MemberSet(store.kv)), order)
    ensures store.View() == Published(old(store.View()), Changes(c, current, MemberSet(store.kv)), order)
    ensures InSync(c, store.kv, MemberSet(store.kv)) <==> Settles(c, old(store.kv), current, MemberSet(store.kv))
  {
    ghost var nodes := MemberSet(store.kv);
    var diff;
    diff, current := ComputeDiff(c, store);
    count, order := |diff|, [];
    assert |diff| == |diff.Keys| && diff.Keys == Diff(c, current, nodes);
    if count == 0 {
      ReconcileDone(c, old(store.View()), current, nodes, order);
      return;
    }
    order := Publish(store, diff);
    ReconcileDone(c, old(store.View()), current, nodes, order);
  }

  /** Reads the members and the table and compares. */
  method ComputeDiff(c: Config, store: MemStore) returns (diff: Assignment, ghost current: Assignment)
    requires ConfigOk(c)
    ensures Reading(store.kv, current) && diff == Changes(c, current, MemberSet(store.kv))
  {
    ghost var nodes := MemberSet(store.kv);
    var members := Members(store);
    var table := Load(store);
    var desired := DesiredAssignment(c, members, nodes);
    diff := Difference(c, table, desired, nodes);
    current := table;
  }

  /** The shards whose stored nodes are not the desired ones. */
  method Difference(c: Config, current: Assignment, desired: Assignment, ghost nodes: set<string>)
    returns (diff: Assignment)
    requires forall s: nat :: s in desired <==> s < c.shards
    requires forall s :: s in desired ==> desired[s] == Desired(c, nodes, s)
    ensures diff.Keys == Diff(c, current, nodes) && forall s :: s in diff ==> diff[s] == Desired(c, nodes, s)
  {
    diff := map[];
    var rest := desired.Keys;
    while rest != {}
      invariant rest <= desired.Keys
      invariant forall s: nat :: s in diff <==> s in Diff(c, current, nodes) && s !in rest
      invariant forall s :: s in diff ==> diff[s] == Desired(c, nodes, s)
    {
      var s :| s in rest;
      if NodesIn(current, s) != desired[s] {
        diff := diff[s := desired[s]];
      }
      rest := rest - {s};
    }
  }

  lemma SettledShard(c: Config, kv: Kv, a: Assignment, nodes: set<string>, kv': Kv, s: nat)
    requires ConfigOk(c) && ReadsAt(kv, a, s) && s < c.shards
    requires Written(kv, Changes(c, a, nodes), Diff(c, a, nodes), kv')
    ensures Says(kv', s, Desired(c, nodes, s)) <==> SettlesAt(c, kv, a, nodes, s)
  {
    ParseRouteKeyInverts(s);
    NodesRoundTripIff(Desired(c, nodes, s));
    forall k | Names(k, s) && !(s in Diff(c, a, nodes) && k == RouteKey(s))
      ensures k in kv <==> k in kv'
      ensures k in kv ==> kv'[k] == kv[k]
    {
      forall n | n in Diff(c, a, nodes) ensures k != RouteKey(n) { ParseRouteKeyInverts(n); }
    }
    if s in Diff(c, a, nodes) {
      assert Named(kv', s);
    } else {
      assert Named(kv', s) <==> Named(kv, s);
    }
  }

  lemma ReconcileDone(c: Config, s: State, a: Assignment, nodes: set<string>, order: seq<nat>)
    requires ConfigOk(c) && nodes == MemberSet(s.kv) && Reading(s.kv, a)
    requires Covers(Changes(c, a, nodes), order) && Elements(order) == Diff(c, a, nodes)
    ensures var s' := Published(s, Changes(c, a, nodes), order);
            && MemberSet(s'.kv) == nodes && s'.leaseOf == s.leaseOf && s'.keysOf == s.keysOf
            && (InSync(c, s'.kv, nodes) <==> Settles(c, s.kv, a, nodes))
  {
    var diff := Changes(c, a, nodes);
    PublishedKeepsLeases(s, diff, order);
    var kv' := Published(s, diff, order).kv;
    PublishedWrites(s, diff, order);
    WrittenKeepsMembers(s.kv, diff, kv');
    forall n: nat | n < c.shards
      ensures Says(kv', n, Desired(c, nodes, n)) <==> SettlesAt(c, s.kv, a, nodes, n)
    {
      assert ReadsAt(s.kv, a, n);
      SettledShard(c, s.kv, a, nodes, kv', n);
    }
  }

  /** Among proper names and with one key a shard, the scan settles exactly if no shard to rewrite is
      spelt in another way than it is written. */
  lemma SettlesIff(c: Config, kv: Kv, a: Assignment, members: set<string>)
    requires Reading(kv, a) && Unaliased(kv) && AllNames(members)
    ensures Settles(c, kv, a, members) <==> forall s :: s in Diff(c, a, members) ==> Plain(kv, s)
  {
    forall s: nat | s < c.shards
      ensures SettlesAt(c, kv, a, members, s) <==> (s in Diff(c, a, members) ==> Plain(kv, s))
    {
      assert ReadsAt(kv, a, s);
      DesiredRoundTrips(c, members, s);
      NodesRoundTripIff(Desired(c, members, s));
    }
    assert forall s :: s in Diff(c, a, members) ==> s < c.shards;
  }

  /** Every key of the shard is the one that is written for it. */
  ghost predicate Plain(kv: Kv, s: nat)
  {
    forall k :: k in kv && Names(k, s) ==> k == RouteKey(s)
  }

  /** In line exactly if no scan of the store finds anything to write. */
  lemma InSyncHasNoDiff(c: Config, kv: Kv, members: set<string>)
    ensures InSync(c, kv, members) <==> forall a :: Reading(kv, a) ==> Diff(c, a, members) == {}
  {
    if InSync(c, kv, members) {
      forall a | Reading(kv, a) ensures Diff(c, a, members) == {} {
        forall s: nat | s < c.shards ensures s !in Diff(c, a, members) {
          assert ReadsAt(kv, a, s);
          SaysIsRead(kv, a, s, Desired(c, members, s));
        }
      }
    } else {
      var s: nat :| s < c.shards && !Says(kv, s, Desired(c, members, s));
      var a := StaleReading(kv, s, Desired(c, members, s));
      assert s in Diff(c, a, members);
    }
  }

  lemma StaleReading(kv: Kv, s: nat, nodes: seq<string>) returns (a: Assignment)
    requires !Says(kv, s, nodes)
    ensures Reading(kv, a) && NodesIn(a, s) != nodes
  {
    if k :| k in kv && Names(k, s) && DecodeNodes(kv[k]) != nodes {
      a := SomeReading(kv, k, s);
    } else {
      a := AnyReading(kv);
      assert ReadsAt(kv, a, s);
    }
  }

  /** A single node with the empty name: what is written never reads back, so Reconcile never settles. */
  lemma EmptyNameNeverSettles(c: Config, kv: Kv)
    requires c.shards > 0 && c.replicas > 0
    ensures !InSync(c, kv[RouteKey(0) := EncodeNodes(Desired(c, {""}, 0))], {""})
  {
    ParseRouteKeyInverts(0);
    assert !Says(kv[RouteKey(0) := EncodeNodes(Desired(c, {""}, 0))], 0, Desired(c, {""}, 0));
  }
}
