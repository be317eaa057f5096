/** What every run of store operations keeps (control/store.go, control/election.go). */
module StoreRuns {
  import opened Store

  datatype Op =
    | OpPut(key: string, value: string, lease: nat)
    | OpCreate(key: string, value: string, lease: nat)
    | OpDelete(key: string)
    | OpGrant
    | OpExpire(lease: nat)
    | OpWatch(id: nat, prefix: string)
    | OpDrop(id: nat)
    | OpReceive(id: nat)

  function Next(s: State, op: Op): State
  {
    match op
    case OpPut(k, v, l) => Put(s, k, v, l)
    case OpCreate(k, v, l) => if k in s.kv then s else Put(s, k, v, l)
    case OpDelete(k) => Del(s, k)
    case OpGrant => Grant(s)
    case OpExpire(l) => Expire(s, l)
    case OpWatch(id, p) => s.(watchers := s.watchers + [Watcher(id, p, [])])
    case OpDrop(id) => s.(watchers := Drop(s.watchers, id))
    case OpReceive(id) => s.(watchers := Take(s.watchers, id))
  }

  function Run(s: State, ops: seq<Op>): State
    decreases |ops|
  {
    if ops == [] then s else Next(Run(s, ops[..|ops| - 1]), ops[|ops| - 1])
  }

  /** The lease an operation attaches to has been granted. */
  ghost predicate UsesGranted(s: State, op: Op)
  {
    match op
    case OpPut(_, _, l) => l < s.nextLid
    case OpCreate(_, _, l) => l < s.nextLid
    case _ => true
  }

  // ----- leases

  lemma {:induction false} RemoveFirstElements(ks: seq<string>, k: string)
    requires NoDuplicates(ks)
    ensures NoDuplicates(RemoveFirst(ks, k))
    ensures forall x :: x in RemoveFirst(ks, k) <==> x in ks && x != k
  {
    if ks != [] && ks[0] != k {
      RemoveFirstElements(ks[1..], k);
      var r := RemoveFirst(ks[1..], k);
      forall x ensures x in RemoveFirst(ks, k) <==> x in ks && x != k {
        assert x in RemoveFirst(ks, k) <==> x == ks[0] || x in r;
        assert x in ks <==> x == ks[0] || x in ks[1..];
      }
      assert ks[0] !in r;
      assert RemoveFirst(ks, k) == [ks[0]] + r;
    } else if ks != [] {
      forall x ensures x in ks[1..] <==> x in ks && x != k {
        assert x in ks <==> x == ks[0] || x in ks[1..];
      }
    }
  }

  /** Taking k off lease l's list touches no other pair. */
  lemma DetachPairs(keysOf: map<nat, seq<string>>, l: nat, k: string)
    requires forall m :: m in keysOf ==> NoDuplicates(keysOf[m])
    ensures forall m :: m in Detach(keysOf, l, k) ==> NoDuplicates(Detach(keysOf, l, k)[m])
    ensures Detach(keysOf, l, k).Keys == keysOf.Keys
    ensures forall x, m :: m in keysOf ==> (x in Detach(keysOf, l, k)[m] <==> x in keysOf[m] && !(m == l && x == k))
  {
    if k in Keys(keysOf, l) {
      RemoveFirstElements(keysOf[l], k);
    }
  }

  /** A put attaches to whatever lease it names, granted or not, and keeps the inverse. */
  lemma PutKeepsInverse(s: State, k: string, v: string, l: nat)
    requires Inverse(s)
    ensures Inverse(Put(s, k, v, l))
  {
    var s' := Put(s, k, v, l);
    if l != 0 {
      var keysOf := if k in s.leaseOf && s.leaseOf[k] != l then Detach(s.keysOf, s.leaseOf[k], k) else s.keysOf;
      DetachPairs(s.keysOf, LeaseOf(s.leaseOf, k), k);
      var ks := Keys(keysOf, l);
      assert forall x :: x in AppendUnique(ks, k) <==> x in ks || x == k;
      forall x, m ensures Attached(s', x, m) <==> x in s'.leaseOf && s'.leaseOf[x] == m {
        assert Attached(s, x, m) <==> x in s.leaseOf && s.leaseOf[x] == m;
        assert Attached(s, k, l) <==> k in s.leaseOf && s.leaseOf[k] == l;
      }
    } else {
      forall x, m ensures Attached(s', x, m) <==> x in s'.leaseOf && s'.leaseOf[x] == m {
        assert Attached(s, x, m) <==> x in s.leaseOf && s.leaseOf[x] == m;
      }
    }
  }

  /** Under a lease the key is afterwards on that lease and no other; every other key stays where it was.
      Without one nothing changes hands. */
  lemma PutMovesLease(s: State, k: string, v: string, l: nat)
    requires Inverse(s)
    ensures l == 0 ==> Put(s, k, v, l).leaseOf == s.leaseOf && Put(s, k, v, l).keysOf == s.keysOf
    ensures l != 0 ==> LeaseOf(Put(s, k, v, l).leaseOf, k) == l && forall m :: Attached(Put(s, k, v, l), k, m) <==> m == l
    ensures forall x :: x != k ==> LeaseOf(Put(s, k, v, l).leaseOf, x) == LeaseOf(s.leaseOf, x)
    ensures forall x, m :: x != k ==> (Attached(Put(s, k, v, l), x, m) <==> Attached(s, x, m))
  {
    PutKeepsInverse(s, k, v, l);
    var s' := Put(s, k, v, l);
    forall x, m ensures Attached(s', x, m) <==> x in s'.leaseOf && s'.leaseOf[x] == m {}
  }

  lemma DelKeepsInverse(s: State, k: string)
    requires Inverse(s)
    ensures Inverse(Del(s, k))
  {
    if k in s.kv {
      DetachPairs(s.keysOf, LeaseOf(s.leaseOf, k), k);
      var s' := Del(s, k);
      forall x, m ensures Attached(s', x, m) <==> x in s'.leaseOf && s'.leaseOf[x] == m {
        assert Attached(s, x, m) <==> x in s.leaseOf && s.leaseOf[x] == m;
      }
    }
  }

  function FanDeletes(ws: seq<Watcher>, ks: seq<string>): (r: seq<Watcher>)
    ensures |r| == |ws|
  {
    if ks == [] then ws else Fan(FanDeletes(ws, ks[..|ks| - 1]), EventDelete(ks[|ks| - 1]))
  }

  lemma {:induction false} DelAllIs(s: State, ks: seq<string>, l: nat)
    requires NoDuplicates(ks) && l !in s.keysOf
    requires forall k :: k in ks ==> k in s.kv && k in s.leaseOf && s.leaseOf[k] == l
    ensures DelAll(s, ks, l) == s.(kv := s.kv - Set(ks), leaseOf := s.leaseOf - Set(ks),
                                   watchers := FanDeletes(s.watchers, ks))
  {
    if ks == [] {
      assert s.kv - Set(ks) == s.kv && s.leaseOf - Set(ks) == s.leaseOf;
    } else {
      var n := |ks| - 1;
      DelAllIs(s, ks[..n], l);
      assert Set(ks) == Set(ks[..n]) + {ks[n]};
      assert ks[n] !in ks[..n];
      assert s.kv - Set(ks) == s.kv - Set(ks[..n]) - {ks[n]};
      assert s.leaseOf - Set(ks) == s.leaseOf - Set(ks[..n]) - {ks[n]};
    }
  }

  function Set(ks: seq<string>): set<string>
  {
    set k | k in ks
  }

  function AttachedTo(s: State, l: nat): set<string>
  {
    set k | k in s.leaseOf && s.leaseOf[k] == l
  }

  /** Expiring a lease deletes exactly the keys attached to it. */
  lemma ExpireTakesExactly(s: State, l: nat)
    requires Inverse(s)
    ensures Set(Keys(s.keysOf, l)) == AttachedTo(s, l)
    ensures Expire(s, l) == State(s.kv - AttachedTo(s, l), s.leaseOf - AttachedTo(s, l), s.keysOf - {l}, s.nextLid,
                                  FanDeletes(s.watchers, Keys(s.keysOf, l)))
  {
    var ks := Keys(s.keysOf, l);
    forall k ensures k in ks <==> k in AttachedTo(s, l) {
      assert Attached(s, k, l) <==> k in s.leaseOf && s.leaseOf[k] == l;
    }
    assert Set(ks) == AttachedTo(s, l);
    forall k | k in ks ensures k in s.kv {
      assert k in s.leaseOf.Keys;
    }
    DelAllIs(s.(keysOf := s.keysOf - {l}), ks, l);
  }

  lemma ExpireKeepsInverse(s: State, l: nat)
    requires Inverse(s)
    ensures Inverse(Expire(s, l))
  {
    ExpireTakesExactly(s, l);
    var s' := Expire(s, l);
    forall x, m ensures Attached(s', x, m) <==> x in s'.leaseOf && s'.leaseOf[x] == m {
      assert Attached(s, x, m) <==> x in s.leaseOf && s.leaseOf[x] == m;
      assert m in s'.keysOf <==> m in s.keysOf && m != l;
    }
  }

  /** Granting keeps the inverse exactly when no key already claims the new lease. */
  lemma GrantKeepsInverseIff(s: State)
    requires Inverse(s)
    ensures Inverse(Grant(s)) <==> AttachedTo(s, s.nextLid) == {}
  {
    var s' := Grant(s);
    if k :| k in AttachedTo(s, s.nextLid) {
      assert !Attached(s', k, s.nextLid);
    } else {
      forall x, m ensures Attached(s', x, m) <==> x in s'.leaseOf && s'.leaseOf[x] == m {
        assert Attached(s, x, m) <==> x in s.leaseOf && s.leaseOf[x] == m;
        assert x !in AttachedTo(s, s.nextLid);
      }
    }
  }

  lemma SameKeysKeepInverse(s: State, s': State)
    requires Inverse(s) && s'.kv == s.kv && s'.leaseOf == s.leaseOf && s'.keysOf == s.keysOf
    ensures Inverse(s')
  {
    forall x, m ensures Attached(s', x, m) <==> x in s'.leaseOf && s'.leaseOf[x] == m {
      assert Attached(s, x, m) <==> x in s.leaseOf && s.leaseOf[x] == m;
    }
  }

  lemma {:induction false} DelAllSpares(s: State, ks: seq<string>, l: nat, key: string)
    requires key in s.kv && LeaseOf(s.leaseOf, key) != l
    ensures key in DelAll(s, ks, l).kv && LeaseOf(DelAll(s, ks, l).leaseOf, key) == LeaseOf(s.leaseOf, key)
  {
    if ks != [] {
      DelAllSpares(s, ks[..|ks| - 1], l, key);
    }
  }

  /** A key put under a lease goes with the expiry of that lease and of no other. */
  lemma PutThenExpire(s: State, k: string, v: string, l: nat, m: nat)
    requires Inverse(s) && l != 0
    ensures k in Expire(Put(s, k, v, l), m).kv <==> m != l
  {
    PutKeepsInverse(s, k, v, l);
    ExpireTakesExactly(Put(s, k, v, l), m);
  }

  /** op neither deletes k, nor expires l, nor moves k to another lease. */
  ghost predicate Spares(op: Op, k: string, l: nat)
  {
    && op != OpDelete(k) && op != OpExpire(l)
    && (op.OpPut? && op.key == k ==> op.lease == 0 || op.lease == l)
  }

  lemma NextSpares(s: State, op: Op, k: string, l: nat)
    requires k in s.kv && LeaseOf(s.leaseOf, k) == l && Spares(op, k, l)
    ensures k in Next(s, op).kv && LeaseOf(Next(s, op).leaseOf, k) == l
  {
    if op.OpExpire? {
      DelAllSpares(s.(keysOf := s.keysOf - {op.lease}), Keys(s.keysOf, op.lease), op.lease, k);
    }
  }

  /** Over every run that does not touch it, a key put under a lease survives the expiry of every other
      lease, and it goes with the expiry of its own. */
  lemma {:induction false} PutLivesWithItsLease(s: State, k: string, v: string, l: nat, ops: seq<Op>)
    requires l != 0 && forall i :: 0 <= i < |ops| ==> Spares(ops[i], k, l)
    ensures var s' := Run(Put(s, k, v, l), ops);
            k in s'.kv && LeaseOf(s'.leaseOf, k) == l && (Inverse(s') ==> k !in Expire(s', l).kv)
    decreases |ops|
  {
    var s' := Run(Put(s, k, v, l), ops);
    if ops != [] {
      var n := |ops| - 1;
      assert forall i :: 0 <= i < n ==> ops[..n][i] == ops[i];
      PutLivesWithItsLease(s, k, v, l, ops[..n]);
      NextSpares(Run(Put(s, k, v, l), ops[..n]), ops[n], k, l);
    }
    if Inverse(s') { ExpireTakesExactly(s', l); }
  }

  /** The operation is not a grant of a lease that some key already claims. */
  ghost predicate GrantsUnclaimed(s: State, op: Op)
  {
    op.OpGrant? ==> AttachedTo(s, s.nextLid) == {}
  }

  /** Of all operations only a grant can break the inverse, and it does exactly if a key claims its lease. */
  lemma NextKeepsInverseIff(s: State, op: Op)
    requires Inverse(s)
    ensures Inverse(Next(s, op)) <==> GrantsUnclaimed(s, op)
  {
    match op
    case OpPut(k, v, l) => PutKeepsInverse(s, k, v, l);
    case OpCreate(k, v, l) => PutKeepsInverse(s, k, v, l);
    case OpDelete(k) => DelKeepsInverse(s, k);
    case OpGrant => GrantKeepsInverseIff(s);
    case OpExpire(l) => ExpireKeepsInverse(s, l);
    case _ => SameKeysKeepInverse(s, Next(s, op));
  }

  ghost predicate InverseAt(ops: seq<Op>, i: nat)
    requires i <= |ops|
  {
    Inverse(Run(Empty, ops[..i]))
  }

  ghost predicate UnclaimedAt(ops: seq<Op>, i: nat)
    requires i < |ops|
  {
    GrantsUnclaimed(Run(Empty, ops[..i]), ops[i])
  }

  lemma InverseStepIff(ops: seq<Op>, i: nat)
    requires i < |ops| && InverseAt(ops, i)
    ensures InverseAt(ops, i + 1) <==> UnclaimedAt(ops, i)
  {
    assert ops[..i + 1][..i] == ops[..i];
    NextKeepsInverseIff(Run(Empty, ops[..i]), ops[i]);
  }

  lemma {:induction false} UnclaimedIsInverse(ops: seq<Op>, i: nat)
    requires i <= |ops| && forall j :: 0 <= j < i ==> UnclaimedAt(ops, j)
    ensures InverseAt(ops, i)
  {
    if i > 0 {
      UnclaimedIsInverse(ops, i - 1);
      InverseStepIff(ops, i - 1);
    }
  }

  /** Over every run from the empty store: keys and leases are inverse to each other throughout if and
      only if no grant meets a key that claims its lease. */
  lemma RunIsInverseIff(ops: seq<Op>)
    ensures (forall i :: 0 <= i <= |ops| ==> InverseAt(ops, i)) <==> (forall i :: 0 <= i < |ops| ==> UnclaimedAt(ops, i))
  {
    if forall i :: 0 <= i < |ops| ==> UnclaimedAt(ops, i) {
      forall i | 0 <= i <= |ops| ensures InverseAt(ops, i) { UnclaimedIsInverse(ops, i); }
    }
    if forall i :: 0 <= i <= |ops| ==> InverseAt(ops, i) {
      forall i | 0 <= i < |ops| ensures UnclaimedAt(ops, i) {
        assert InverseAt(ops, i) && InverseAt(ops, i + 1);
        InverseStepIff(ops, i);
      }
    }
  }

  /** No key is attached to a lease yet to be granted. */
  ghost predicate AheadOfGrants(s: State)
  {
    forall k :: k in s.leaseOf ==> s.leaseOf[k] < s.nextLid
  }

  /** Every lease a run attaches to was granted before. */
  ghost predicate Lawful(ops: seq<Op>)
  {
    forall i {:trigger ops[..i]} :: 0 <= i < |ops| ==> UsesGranted(Run(Empty, ops[..i]), ops[i])
  }

  lemma {:induction false} DelAllAhead(s: State, ks: seq<string>, l: nat)
    requires AheadOfGrants(s)
    ensures AheadOfGrants(DelAll(s, ks, l)) && DelAll(s, ks, l).nextLid == s.nextLid
  {
    if ks != [] { DelAllAhead(s, ks[..|ks| - 1], l); }
  }

  lemma NextAhead(s: State, op: Op)
    requires AheadOfGrants(s) && UsesGranted(s, op)
    ensures AheadOfGrants(Next(s, op))
  {
    if op.OpExpire? { DelAllAhead(s.(keysOf := s.keysOf - {op.lease}), Keys(s.keysOf, op.lease), op.lease); }
  }

  /** Attaching only to granted leases is enough, though not needed. */
  lemma {:induction false} LawfulIsAhead(ops: seq<Op>, i: nat)
    requires Lawful(ops) && i <= |ops|
    ensures AheadOfGrants(Run(Empty, ops[..i]))
  {
    if i > 0 {
      LawfulIsAhead(ops, i - 1);
      assert ops[..i][..i - 1] == ops[..i - 1];
      NextAhead(Run(Empty, ops[..i - 1]), ops[i - 1]);
    }
  }

  lemma LawfulIsInverse(ops: seq<Op>)
    requires Lawful(ops)
    ensures forall i :: 0 <= i <= |ops| ==> InverseAt(ops, i)
  {
    forall i | 0 <= i < |ops| ensures UnclaimedAt(ops, i) { LawfulIsAhead(ops, i); }
    RunIsInverseIff(ops);
  }

  /** A run that attaches before the grant and keeps the inverse all the same. */
  lemma UnlawfulMayBeInverse()
    ensures var ops := [OpPut("k", "v", 1), OpDelete("k"), OpGrant];
            !Lawful(ops) && forall i :: 0 <= i <= |ops| ==> InverseAt(ops, i)
  {
    var a, b := OpPut("k", "v", 1), OpDelete("k");
    var ops := [a, b, OpGrant];
    assert ops[..0] == [] && ops[..1] == [a] && ops[..2] == [a, b];
    assert [a][..0] == [] && [a, b][..1] == [a];
    assert Run(Empty, []) == Empty;
    var s1 := Run(Empty, [a]);
    assert s1 == Put(Empty, "k", "v", 1);
    var s2 := Run(Empty, [a, b]);
    assert s2 == Del(s1, "k");
    assert "k" in s1.kv && s2.leaseOf == map[];
    assert !UsesGranted(Run(Empty, ops[..0]), ops[0]);
    forall i | 0 <= i < |ops| ensures UnclaimedAt(ops, i) {
      if i == 2 { assert AttachedTo(s2, s2.nextLid) == {}; }
    }
    RunIsInverseIff(ops);
  }

  /** A key attached to a lease before that lease is granted outlives its expiry. */
  lemma UngrantedLeaseLeaks()
    ensures var s := Run(Empty, [OpPut("k", "v", 1), OpGrant, OpExpire(1)]);
            "k" in s.kv && LeaseOf(s.leaseOf, "k") == 1 && 1 !in s.keysOf
  {
    var a := OpPut("k", "v", 1);
    assert [a, OpGrant, OpExpire(1)][..2] == [a, OpGrant];
    assert [a, OpGrant][..1] == [a];
    assert [a][..0] == [] && Run(Empty, []) == Empty;
    var s1 := Run(Empty, [a]);
    assert s1 == Put(Empty, "k", "v", 1);
    var s2 := Run(Empty, [a, OpGrant]);
    assert s2 == Grant(s1);
    assert Keys(s2.keysOf, 1) == [];
  }

  // ----- elections

  function LeaderKey(role: string): string
  {
    "leader/" + role
  }

  /** A key goes only by its own deletion or by the expiry of its lease. */
  lemma OnlyDeletionRemoves(s: State, op: Op, key: string)
    requires key in s.kv && key !in Next(s, op).kv
    ensures op == OpDelete(key) || op == OpExpire(LeaseOf(s.leaseOf, key))
  {
    if op.OpExpire? && LeaseOf(s.leaseOf, key) != op.lease {
      DelAllSpares(s.(keysOf := s.keysOf - {op.lease}), Keys(s.keysOf, op.lease), op.lease, key);
    }
  }

  /** The candidate won: it created the leader key. */
  ghost predicate Wins(s: State, ops: seq<Op>, i: nat, role: string)
  {
    i < |ops| && ops[i].OpCreate? && ops[i].key == LeaderKey(role) && LeaderKey(role) !in Run(s, ops[..i]).kv
  }

  /** Step m ends the leadership: a resignation, or the expiry of the leader's lease. */
  ghost predicate Ends(s: State, ops: seq<Op>, m: nat, role: string)
  {
    && m < |ops| && LeaderKey(role) in Run(s, ops[..m]).kv && LeaderKey(role) !in Run(s, ops[..m + 1]).kv
    && (ops[m] == OpDelete(LeaderKey(role)) || ops[m] == OpExpire(LeaseOf(Run(s, ops[..m]).leaseOf, LeaderKey(role))))
  }

  /** Two wins for one role are separated by the end of the first leadership. */
  lemma WinsAreSeparated(s: State, ops: seq<Op>, i: nat, j: nat, role: string)
    requires Wins(s, ops, i, role) && Wins(s, ops, j, role) && i < j
    ensures exists m :: i < m < j && Ends(s, ops, m, role)
  {
    assert ops[..i + 1][..i] == ops[..i];
    var m := LastHeld(s, ops, i + 1, j, role);
    assert ops[..m + 1][..m] == ops[..m];
    OnlyDeletionRemoves(Run(s, ops[..m]), ops[m], LeaderKey(role));
    assert Ends(s, ops, m, role);
  }

  ghost predicate Held(s: State, ops: seq<Op>, i: nat, role: string)
    requires i <= |ops|
  {
    LeaderKey(role) in Run(s, ops[..i]).kv
  }

  /** A point where the key, present at lo and absent at hi, disappears. */
  lemma LastHeld(s: State, ops: seq<Op>, lo: nat, hi: nat, role: string) returns (m: nat)
    requires lo <= hi <= |ops| && Held(s, ops, lo, role) && !Held(s, ops, hi, role)
    ensures lo <= m < hi && Held(s, ops, m, role) && !Held(s, ops, m + 1, role)
  {
    m := LastTrue(seq(|ops| + 1, i requires 0 <= i <= |ops| => Held(s, ops, i, role)), lo, hi);
  }

  lemma {:induction false} LastTrue(bs: seq<bool>, lo: nat, hi: nat) returns (m: nat)
    requires lo <= hi < |bs| && bs[lo] && !bs[hi]
    ensures lo <= m < hi && bs[m] && !bs[m + 1]
    decreases hi - lo
  {
    if bs[hi - 1] {
      m := hi - 1;
    } else {
      m := LastTrue(bs, lo, hi - 1);
    }
  }
}
