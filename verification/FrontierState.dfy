/** Host records, ready heap and URL accounts on values (crawler/frontier/frontier.go). */
module FrontierState {
  import opened Heaps

  const PRIORITIES: nat := 8

  datatype URL = URL(raw: string, host: string, priority: int, fingerprint: nat)

  datatype Host = Host(readyAt: int, crawlDelay: int, priority: int, busy: bool, queue: seq<URL>)

  type Hosts = map<string, Host>

  function Max(a: int, b: int): int { if a < b then b else a }

  function Min(a: int, b: int): int { if a < b then a else b }

  // ----- politeness

  datatype Politeness = Politeness(factor: int, min: int, max: int)

  function Gap(p: Politeness, lastFetch: int, crawlDelay: int): int
  {
    Max(Min(Max(p.factor * lastFetch, p.min), p.max), crawlDelay)
  }

  /** The gap honours the crawl delay and, apart from it, stays within the bounds. */
  lemma GapBounds(p: Politeness, lastFetch: int, crawlDelay: int)
    requires p.min <= p.max
    ensures Gap(p, lastFetch, crawlDelay) >= crawlDelay && Gap(p, lastFetch, crawlDelay) >= p.min
    ensures Gap(p, lastFetch, crawlDelay) > p.max ==> Gap(p, lastFetch, crawlDelay) == crawlDelay
    ensures var g, own := Gap(p, lastFetch, crawlDelay), p.factor * lastFetch;
            g == crawlDelay || (g > crawlDelay && (g == own || (g == p.min && own < p.min) || (g == p.max && own > p.max)))
  {
  }

  // ----- the heap of hosts

  const NOBODY: Host := Host(0, 0, 0, false, [])

  function At(hosts: Hosts, h: string): Host
  {
    if h in hosts then hosts[h] else NOBODY
  }

  /** Earlier readiness first, then higher priority. */
  function Less(hosts: Hosts): (string, string) -> bool
  {
    (a, b) => At(hosts, a).readyAt < At(hosts, b).readyAt
           || (At(hosts, a).readyAt == At(hosts, b).readyAt && At(hosts, a).priority > At(hosts, b).priority)
  }

  /** Readiness alone: a host's priority may rise while it is in the heap. */
  ghost function Earlier(hosts: Hosts): (string, string) -> bool
  {
    (a, b) => At(hosts, a).readyAt < At(hosts, b).readyAt
  }

  lemma LessRefines(hosts: Hosts)
    ensures WeakOrder(Earlier(hosts)) && Refines(Less(hosts), Earlier(hosts))
  {
  }

  /** The heap also breaks ties of readiness by priority. */
  ghost predicate Ranked(hosts: Hosts, ready: seq<string>)
  {
    IsHeap(ready, Less(hosts))
  }

  /** The order the heap keeps: the finer one while it is ranked. */
  ghost function KeptOrder(hosts: Hosts, ready: seq<string>): (string, string) -> bool
  {
    if Ranked(hosts, ready) then Less(hosts) else Earlier(hosts)
  }

  lemma KeptOrderRefined(hosts: Hosts, ready: seq<string>)
    requires IsHeap(ready, Earlier(hosts))
    ensures var base := KeptOrder(hosts, ready);
            WeakOrder(base) && Refines(Less(hosts), base) && Refines(base, Earlier(hosts)) && IsHeap(ready, base)
  {
  }

  lemma RefinedHeap(hosts: Hosts, ready: seq<string>, base: (string, string) -> bool)
    requires Refines(base, Earlier(hosts)) && IsHeap(ready, base)
    ensures IsHeap(ready, Earlier(hosts))
  {
  }

  ghost predicate NoRepeats(r: seq<string>)
  {
    forall i, j :: 0 <= i < j < |r| ==> r[i] != r[j]
  }

  /** The heap holds exactly the idle hosts with work, each once, the earliest at its root. */
  ghost predicate HeapOk(hosts: Hosts, ready: seq<string>)
  {
    && IsHeap(ready, Earlier(hosts)) && NoRepeats(ready)
    && forall h :: h in ready <==> h in hosts && !hosts[h].busy && hosts[h].queue != []
  }

  lemma PermutedNoRepeats(r: seq<string>, r': seq<string>, x: string)
    requires NoRepeats(r) && x !in r && multiset(r') == multiset(r) + multiset{x}
    ensures NoRepeats(r') && forall h :: h in r' <==> h in r || h == x
  {
    forall h ensures h in r' <==> h in r || h == x {
      assert h in multiset(r') <==> h in multiset(r) || h == x;
    }
    CountsNoRepeats(r');
    CountsNoRepeats(r);
    assert forall h :: multiset(r')[h] <= 1;
  }

  lemma PoppedNoRepeats(r: seq<string>, r': seq<string>, x: string)
    requires NoRepeats(r) && multiset(r') + multiset{x} == multiset(r)
    ensures NoRepeats(r') && x in r && forall h :: h in r' <==> h in r && h != x
  {
    CountsNoRepeats(r');
    CountsNoRepeats(r);
    forall h ensures (h in r' <==> h in r && h != x) && multiset(r')[h] <= 1 {
      assert h in multiset(r) <==> h in r;
      assert h in multiset(r') <==> h in r';
    }
    assert x in multiset(r);
  }

  /** No repeats means no count above one. */
  lemma CountsNoRepeats(r: seq<string>)
    ensures NoRepeats(r) <==> forall h :: multiset(r)[h] <= 1
  {
    if NoRepeats(r) {
      forall h ensures multiset(r)[h] <= 1 { CountOne(r, h); }
    } else {
      var i, j :| 0 <= i < j < |r| && r[i] == r[j];
      assert r == r[..j] + [r[j]] + r[j + 1..];
      assert r[..j][i] == r[j];
      assert r[j] in multiset(r[..j]);
      assert multiset(r)[r[j]] >= 2;
    }
  }

  lemma {:induction false} CountOne(r: seq<string>, h: string)
    requires NoRepeats(r)
    ensures multiset(r)[h] <= 1
  {
    if r != [] {
      var n := |r| - 1;
      assert r == r[..n] + [r[n]];
      CountOne(r[..n], h);
      if r[n] == h { assert h !in r[..n]; assert h !in multiset(r[..n]); }
    }
  }

  // ----- what the queues hold

  ghost function Held(hosts: Hosts, ks: set<string>): multiset<URL>
    requires ks <= hosts.Keys
    decreases |ks|
  {
    if ks == {} then multiset{}
    else
      var k :| k in ks;
      multiset(hosts[k].queue) + Held(hosts, ks - {k})
  }

  lemma {:induction false} HeldSplit(hosts: Hosts, ks: set<string>, k: string)
    requires ks <= hosts.Keys && k in ks
    ensures Held(hosts, ks) == multiset(hosts[k].queue) + Held(hosts, ks - {k})
    decreases |ks|
  {
    var c :| c in ks && Held(hosts, ks) == multiset(hosts[c].queue) + Held(hosts, ks - {c});
    if c != k {
      HeldSplit(hosts, ks - {c}, k);
      HeldSplit(hosts, ks - {k}, c);
      assert ks - {c} - {k} == ks - {k} - {c};
    }
  }

  lemma {:induction false} HeldSame(a: Hosts, b: Hosts, ks: set<string>)
    requires ks <= a.Keys && ks <= b.Keys && forall k :: k in ks ==> a[k].queue == b[k].queue
    ensures Held(a, ks) == Held(b, ks)
    decreases |ks|
  {
    if ks != {} {
      var k :| k in ks;
      HeldSplit(a, ks, k);
      HeldSplit(b, ks, k);
      HeldSame(a, b, ks - {k});
    }
  }

  ghost function HeldAll(hosts: Hosts): multiset<URL>
  {
    Held(hosts, hosts.Keys)
  }

  /** Replacing one host's record changes what is held by the change of its queue. */
  lemma HeldUpdate(hosts: Hosts, h: string, r: Host)
    ensures HeldAll(hosts[h := r]) + multiset(At(hosts, h).queue) == HeldAll(hosts) + multiset(r.queue)
  {
    var hosts' := hosts[h := r];
    HeldSplit(hosts', hosts'.Keys, h);
    HeldSame(hosts', hosts, hosts'.Keys - {h});
    if h in hosts {
      HeldSplit(hosts, hosts.Keys, h);
      assert hosts'.Keys - {h} == hosts.Keys - {h};
    } else {
      assert hosts'.Keys - {h} == hosts.Keys;
    }
  }

  ghost predicate QueuesOk(hosts: Hosts)
  {
    forall h, i :: h in hosts && 0 <= i < |hosts[h].queue| ==> hosts[h].queue[i].host == h
  }

  ghost predicate Core(hosts: Hosts, ready: seq<string>)
  {
    HeapOk(hosts, ready) && QueuesOk(hosts)
  }

  /** The same hosts with the same clocks; new ones are idle. */
  ghost predicate SameClocks(a: Hosts, b: Hosts)
  {
    && (forall h :: h in a ==> h in b && a[h].readyAt == b[h].readyAt && a[h].busy == b[h].busy && a[h].crawlDelay == b[h].crawlDelay)
    && (forall h :: h in b && h !in a ==> !b[h].busy)
  }

  lemma HeapKept(a: Hosts, b: Hosts, ready: seq<string>)
    requires IsHeap(ready, Earlier(a)) && forall h :: h in ready ==> At(a, h).readyAt == At(b, h).readyAt
    ensures IsHeap(ready, Earlier(b))
  {
    forall i | 0 < i < |ready| ensures !Earlier(b)(ready[i], ready[Parent(i)]) {
      assert !Earlier(a)(ready[i], ready[Parent(i)]);
      assert ready[i] in ready && ready[Parent(i)] in ready;
    }
  }

  /** The host's record, ready now on first sight. */
  function HostOf(hosts: Hosts, h: string, now: int): Host
  {
    if h in hosts then hosts[h] else Host(now, 0, 0, false, [])
  }

  method PushHost(hosts: Hosts, ready: seq<string>, h: string) returns (ready': seq<string>)
    requires IsHeap(ready, Earlier(hosts)) && NoRepeats(ready) && h !in ready
    ensures IsHeap(ready', Earlier(hosts)) && NoRepeats(ready') && forall x :: x in ready' <==> x in ready || x == h
    ensures Ranked(hosts, ready) ==> Ranked(hosts, ready')
  {
    KeptOrderRefined(hosts, ready);
    ready' := PushBy(ready, h, Less(hosts), KeptOrder(hosts, ready));
    RefinedHeap(hosts, ready', KeptOrder(hosts, ready));
    PermutedNoRepeats(ready, ready', h);
  }

  /** The hosts after u joins its back queue. */
  function Queued(hosts: Hosts, u: URL, now: int): Hosts
  {
    var hs := HostOf(hosts, u.host, now);
    hosts[u.host := hs.(queue := hs.queue + [u], priority := Max(hs.priority, u.priority))]
  }

  /** u raises the priority of a host that is in the heap, which is not sifted for it. */
  ghost predicate Raises(hosts: Hosts, u: URL)
  {
    Idle(hosts, u.host) && hosts[u.host].priority < u.priority
  }

  lemma QueuedKeepsRank(hosts: Hosts, ready: seq<string>, u: URL, now: int)
    requires HeapOk(hosts, ready) && Ranked(hosts, ready) && !Raises(hosts, u)
    ensures Ranked(Queued(hosts, u, now), ready)
  {
    RankKept(hosts, Queued(hosts, u, now), ready);
  }

  lemma RankKept(a: Hosts, b: Hosts, ready: seq<string>)
    requires Ranked(a, ready) && forall h :: h in ready ==> At(a, h).readyAt == At(b, h).readyAt && At(a, h).priority == At(b, h).priority
    ensures Ranked(b, ready)
  {
    forall i | 0 < i < |ready| ensures !Less(b)(ready[i], ready[Parent(i)]) {
      assert !Less(a)(ready[i], ready[Parent(i)]);
      assert ready[i] in ready && ready[Parent(i)] in ready;
    }
  }

  /** A raise leaves the heap ranked exactly if the raised host is not now before its parent. */
  lemma RaiseKeepsRankIff(hosts: Hosts, ready: seq<string>, u: URL, now: int, i: nat)
    requires HeapOk(hosts, ready) && Ranked(hosts, ready) && Raises(hosts, u) && i < |ready| && ready[i] == u.host
    ensures Ranked(Queued(hosts, u, now), ready) <==>
            i == 0 || hosts[ready[Parent(i)]].readyAt < hosts[u.host].readyAt || u.priority <= hosts[ready[Parent(i)]].priority
  {
    var b := Queued(hosts, u, now);
    assert forall j :: 0 <= j < |ready| && j != i ==> ready[j] in ready && ready[j] != u.host && At(b, ready[j]) == At(hosts, ready[j]);
    forall j | 0 < j < |ready| && j != i ensures !Less(b)(ready[j], ready[Parent(j)]) {
      assert !Less(hosts)(ready[j], ready[Parent(j)]);
    }
    assert i > 0 ==> !Less(hosts)(ready[i], ready[Parent(i)]);
    assert i > 0 ==> ready[Parent(i)] in ready;
  }

  lemma QueuedKeeps(hosts: Hosts, u: URL, now: int)
    requires QueuesOk(hosts)
    ensures QueuesOk(Queued(hosts, u, now)) && SameClocks(hosts, Queued(hosts, u, now))
    ensures HeldAll(Queued(hosts, u, now)) == HeldAll(hosts) + multiset{u}
  {
    var hs := HostOf(hosts, u.host, now);
    HeldUpdate(hosts, u.host, Queued(hosts, u, now)[u.host]);
    EnqueuedCount(HeldAll(hosts), HeldAll(Queued(hosts, u, now)), hs.queue, u);
  }

  /** Appends u to its host's back queue and readies the host if it was idle without work. */
  method Enqueue(hosts: Hosts, ready: seq<string>, u: URL, now: int) returns (hosts': Hosts, ready': seq<string>)
    requires Core(hosts, ready)
    ensures Core(hosts', ready') && hosts' == Queued(hosts, u, now)
    ensures Ranked(hosts, ready) && !Raises(hosts, u) ==> Ranked(hosts', ready')
  {
    var hs := HostOf(hosts, u.host, now);
    var wasEmpty := |hs.queue| == 0;
    QueuedKeeps(hosts, u, now);
    hosts' := Queued(hosts, u, now);
    ready' := Readied(hosts, hosts', ready, u, now, wasEmpty && !hs.busy);
  }

  method Readied(ghost hosts: Hosts, hosts': Hosts, ready: seq<string>, u: URL, ghost now: int, rises: bool) returns (ready': seq<string>)
    requires HeapOk(hosts, ready) && hosts' == Queued(hosts, u, now)
    requires rises <==> HostOf(hosts, u.host, now).queue == [] && !HostOf(hosts, u.host, now).busy
    ensures HeapOk(hosts', ready') && (Ranked(hosts, ready) && !Raises(hosts, u) ==> Ranked(hosts', ready'))
  {
    HeapKept(hosts, hosts', ready);
    if Ranked(hosts, ready) && !Raises(hosts, u) { QueuedKeepsRank(hosts, ready, u, now); }
    ready' := ready;
    if rises {
      ready' := PushHost(hosts', ready, u.host);
    }
  }

  /** The hosts after each of us in turn joins its back queue. */
  ghost function QueuedAll(hosts: Hosts, us: seq<URL>, now: int): Hosts
  {
    if us == [] then hosts else Queued(QueuedAll(hosts, us[..|us| - 1], now), us[|us| - 1], now)
  }

  lemma {:induction false} QueuedConcat(hosts: Hosts, us: seq<URL>, vs: seq<URL>, now: int)
    ensures QueuedAll(hosts, us + vs, now) == QueuedAll(QueuedAll(hosts, us, now), vs, now)
  {
    if vs == [] {
      assert us + vs == us;
    } else {
      var n := |vs| - 1;
      assert (us + vs)[..|us + vs| - 1] == us + vs[..n];
      QueuedConcat(hosts, us, vs[..n], now);
    }
  }

  /** None of us raises the priority of a host in the heap. */
  ghost predicate Steady(hosts: Hosts, us: seq<URL>, now: int)
  {
    us == [] || (Steady(hosts, us[..|us| - 1], now) && !Raises(QueuedAll(hosts, us[..|us| - 1], now), us[|us| - 1]))
  }

  lemma {:induction false} SteadyConcat(hosts: Hosts, us: seq<URL>, vs: seq<URL>, now: int)
    requires Steady(hosts, us + vs, now)
    ensures Steady(hosts, us, now) && Steady(QueuedAll(hosts, us, now), vs, now)
  {
    if vs == [] {
      assert us + vs == us;
    } else {
      var n := |vs| - 1;
      assert (us + vs)[..|us + vs| - 1] == us + vs[..n];
      SteadyConcat(hosts, us, vs[..n], now);
      QueuedConcat(hosts, us, vs[..n], now);
    }
  }

  method EnqueueAll(hosts: Hosts, ready: seq<string>, us: seq<URL>, now: int) returns (hosts': Hosts, ready': seq<string>)
    requires Core(hosts, ready)
    ensures Assigned(hosts, ready, us, now, hosts', ready')
  {
    hosts', ready' := hosts, ready;
    for i := 0 to |us|
      invariant Assigned(hosts, ready, us[..i], now, hosts', ready')
    {
      assert us[..i + 1][..i] == us[..i];
      hosts', ready' := Enqueue(hosts', ready', us[i], now);
    }
    assert us[..|us|] == us;
  }

  lemma EnqueuedCount(before: multiset<URL>, after: multiset<URL>, q: seq<URL>, u: URL)
    requires after + multiset(q) == before + multiset(q + [u])
    ensures after == before + multiset{u}
  {
    assert multiset(q + [u]) == multiset(q) + multiset{u};
    assert after + multiset(q) == (before + multiset{u}) + multiset(q);
    Cancel(after, before + multiset{u}, multiset(q));
  }

  lemma Cancel(a: multiset<URL>, b: multiset<URL>, c: multiset<URL>)
    requires a + c == b + c
    ensures a == b
  {
    forall x ensures a[x] == b[x] {
      assert (a + c)[x] == (b + c)[x];
    }
  }

  lemma AdmitCount(admitted: seq<URL>, u: URL, held: multiset<URL>, held': multiset<URL>, handed: seq<URL>, pending: int, seen: set<nat>)
    requires Accounts(admitted, held, handed, pending, seen) && held' == held + multiset{u} && u.fingerprint !in seen
    ensures Accounts(admitted + [u], held', handed, pending + 1, seen + {u.fingerprint})
  {
    assert held' + multiset(handed) == (held + multiset(handed)) + multiset{u};
  }

  ghost predicate DistinctPrints(us: seq<URL>)
  {
    forall i, j :: 0 <= i < j < |us| ==> us[i].fingerprint != us[j].fingerprint
  }

  /** Every admitted URL is held or was handed out, and no fingerprint was admitted twice. */
  ghost predicate Accounts(admitted: seq<URL>, held: multiset<URL>, handed: seq<URL>, pending: int, seen: set<nat>)
  {
    && multiset(admitted) == held + multiset(handed) && pending == |held|
    && DistinctPrints(admitted) && (forall i :: 0 <= i < |admitted| ==> admitted[i].fingerprint in seen)
  }

  /** A host waits for its last Done plus the gap, and is busy exactly while checked out. */
  ghost predicate Clocks(hosts: Hosts, due: map<string, int>, out: set<string>)
  {
    && (forall h :: h in due ==> h in hosts && hosts[h].readyAt == due[h])
    && (forall h :: h in out <==> h in hosts && hosts[h].busy)
  }

  lemma AdmitAccounts(hosts: Hosts, hosts': Hosts, u: URL, admitted: seq<URL>, handed: seq<URL>, pending: int, seen: set<nat>,
                      due: map<string, int>, out: set<string>)
    requires Accounts(admitted, HeldAll(hosts), handed, pending, seen) && Clocks(hosts, due, out)
    requires SameClocks(hosts, hosts') && HeldAll(hosts') == HeldAll(hosts) + multiset{u} && u.fingerprint !in seen
    ensures Accounts(admitted + [u], HeldAll(hosts'), handed, pending + 1, seen + {u.fingerprint}) && Clocks(hosts', due, out)
  {
    AdmitCount(admitted, u, HeldAll(hosts), HeldAll(hosts'), handed, pending, seen);
  }

  ghost predicate Drained(front: seq<seq<URL>>)
  {
    |front| == PRIORITIES && forall p :: 0 <= p < PRIORITIES ==> front[p] == []
  }

  /** What the front queues from p up hold, in the order they are drained. */
  ghost function DrainOrder(front: seq<seq<URL>>, p: nat): seq<URL>
    requires p <= |front|
    decreases |front| - p
  {
    if p == |front| then [] else DrainOrder(front, p + 1) + front[p]
  }

  lemma {:induction false} DrainNone(front: seq<seq<URL>>, p: nat)
    requires p <= |front| && forall k :: p <= k < |front| ==> front[k] == []
    ensures DrainOrder(front, p) == []
    decreases |front| - p
  {
    if p < |front| { DrainNone(front, p + 1); }
  }

  lemma {:induction false} DrainOne(front: seq<seq<URL>>, p: nat, q: nat, u: URL)
    requires q <= p < |front| && front[p] == [u] && forall k :: 0 <= k < |front| && k != p ==> front[k] == []
    ensures DrainOrder(front, q) == [u]
    decreases p - q
  {
    if q == p { DrainNone(front, p + 1); } else { DrainOne(front, p, q + 1, u); }
  }

  /** The front queues above p are drained into the back queues; those up to p are as they were. */
  ghost predicate DrainedTo(front: seq<seq<URL>>, front': seq<seq<URL>>, p: int)
  {
    && |front| == |front'| == PRIORITIES && -1 <= p < PRIORITIES
    && (forall k :: p < k < PRIORITIES ==> front'[k] == []) && (forall k :: 0 <= k <= p ==> front'[k] == front[k])
  }

  ghost predicate Assigned(hosts: Hosts, ready: seq<string>, us: seq<URL>, now: int, hosts': Hosts, ready': seq<string>)
  {
    && Core(hosts', ready') && hosts' == QueuedAll(hosts, us, now)
    && (Ranked(hosts, ready) && Steady(hosts, us, now) ==> Ranked(hosts', ready'))
  }

  lemma AssignedConcat(a: Hosts, ra: seq<string>, us: seq<URL>, vs: seq<URL>, now: int, b: Hosts, rb: seq<string>, c: Hosts, rc: seq<string>)
    requires Assigned(a, ra, us, now, b, rb) && Assigned(b, rb, vs, now, c, rc)
    ensures Assigned(a, ra, us + vs, now, c, rc)
  {
    QueuedConcat(a, us, vs, now);
    if Steady(a, us + vs, now) { SteadyConcat(a, us, vs, now); }
  }

  /** Drains the front queues, highest priority first. */
  method AssignAll(hosts: Hosts, ready: seq<string>, front: seq<seq<URL>>, now: int)
    returns (hosts': Hosts, ready': seq<string>, front': seq<seq<URL>>)
    requires Core(hosts, ready) && |front| == PRIORITIES
    ensures Drained(front') && Assigned(hosts, ready, DrainOrder(front, 0), now, hosts', ready')
  {
    hosts', ready', front' := hosts, ready, front;
    var p: int := PRIORITIES - 1;
    while p >= 0
      invariant DrainedTo(front, front', p) && Assigned(hosts, ready, DrainOrder(front, p + 1), now, hosts', ready')
      decreases p
    {
      var hs, r := EnqueueAll(hosts', ready', front'[p], now);
      AssignedConcat(hosts, ready, DrainOrder(front, p + 1), front[p], now, hosts', ready', hs, r);
      hosts', ready', front' := hs, r, front'[p := []];
      p := p - 1;
    }
  }

  /** Puts u into its front queue and drains them all. */
  method AdmitURL(hosts: Hosts, ready: seq<string>, front: seq<seq<URL>>, u: URL, now: int)
    returns (hosts': Hosts, ready': seq<string>, front': seq<seq<URL>>)
    requires Core(hosts, ready) && Drained(front)
    ensures Core(hosts', ready') && Drained(front') && hosts' == Queued(hosts, u, now)
    ensures Ranked(hosts, ready) && !Raises(hosts, u) ==> Ranked(hosts', ready')
  {
    var p := Min(Max(u.priority, 0), PRIORITIES - 1);
    var f := front[p := front[p] + [u]];
    DrainOne(f, p, 0, u);
    hosts', ready', front' := AssignAll(hosts, ready, f, now);
    QueuedOne(hosts, u, now);
  }

  lemma QueuedOne(hosts: Hosts, u: URL, now: int)
    ensures QueuedAll(hosts, [u], now) == Queued(hosts, u, now) && (Steady(hosts, [u], now) <==> !Raises(hosts, u))
  {
    assert [u][..0] == [];
  }

  /** A host becomes idle, to be fetched again from readyAt. */
  method Freed(hosts: Hosts, ready: seq<string>, h: string, readyAt: int) returns (hosts': Hosts, ready': seq<string>)
    requires Core(hosts, ready) && h in hosts && !Idle(hosts, h)
    ensures Core(hosts', ready') && HeldAll(hosts') == HeldAll(hosts)
    ensures hosts' == hosts[h := hosts[h].(busy := false, readyAt := readyAt)]
    ensures Ranked(hosts, ready) ==> Ranked(hosts', ready')
  {
    var hs := hosts[h].(busy := false, readyAt := readyAt);
    HeldUpdate(hosts, h, hs);
    hosts' := hosts[h := hs];
    Cancel(HeldAll(hosts'), HeldAll(hosts), multiset(hs.queue));
    HeapKept(hosts, hosts', ready);
    if Ranked(hosts, ready) { RankKept(hosts, hosts', ready); }
    ready' := ready;
    if |hs.queue| > 0 {
      ready' := PushHost(hosts', ready, h);
    }
  }

  /** Freeing a host pushes it onto the heap if it has work. That keeps the heap right exactly if the
      host was not idle with work already: it would then be in the heap twice. */
  lemma FreeingKeepsHeapIff(hosts: Hosts, ready: seq<string>, h: string, readyAt: int, ready': seq<string>)
    requires HeapOk(hosts, ready) && h in hosts
    requires IsHeap(ready', Earlier(hosts[h := hosts[h].(busy := false, readyAt := readyAt)]))
    requires multiset(ready') == multiset(ready) + if hosts[h].queue != [] then multiset{h} else multiset{}
    ensures HeapOk(hosts[h := hosts[h].(busy := false, readyAt := readyAt)], ready') <==> !Idle(hosts, h)
  {
    if Idle(hosts, h) {
      assert h in multiset(ready);
      assert multiset(ready')[h] >= 2;
      CountsNoRepeats(ready');
    } else if hosts[h].queue != [] {
      PermutedNoRepeats(ready, ready', h);
    } else {
      CountsNoRepeats(ready);
      CountsNoRepeats(ready');
      assert forall x :: x in ready' <==> x in multiset(ready');
      assert forall x :: x in ready <==> x in multiset(ready);
    }
  }

  /** A host with a queued URL, idle and ready, reported as done: whatever way it is pushed, the heap
      holds it twice. */
  lemma DoneTwice(u: URL, readyAt: int, ready': seq<string>)
    requires u.host == "h" && multiset(ready') == multiset{"h", "h"}
    ensures var hosts: Hosts := map["h" := Host(0, 0, 0, false, [u])];
            HeapOk(hosts, ["h"]) && !HeapOk(hosts["h" := hosts["h"].(busy := false, readyAt := readyAt)], ready')
  {
    CountsNoRepeats(ready');
    assert multiset(ready')["h"] == 2;
  }

  ghost predicate Idle(hosts: Hosts, h: string)
  {
    h in hosts && !hosts[h].busy && hosts[h].queue != []
  }

  ghost predicate Eligible(hosts: Hosts, h: string, now: int)
  {
    Idle(hosts, h) && hosts[h].readyAt <= now
  }

  ghost predicate AnyEligible(hosts: Hosts, now: int)
  {
    exists h :: Eligible(hosts, h, now)
  }

  /** No idle host with work is ready before h. */
  ghost predicate Earliest(hosts: Hosts, h: string)
  {
    h in hosts && forall x :: Idle(hosts, x) ==> hosts[h].readyAt <= hosts[x].readyAt
  }

  lemma RootIsEarliest(hosts: Hosts, ready: seq<string>)
    requires HeapOk(hosts, ready) && |ready| > 0
    ensures Idle(hosts, ready[0]) && Earliest(hosts, ready[0])
  {
    assert ready[0] in ready;
    forall h | Idle(hosts, h) ensures hosts[ready[0]].readyAt <= hosts[h].readyAt {
      assert h in ready;
      var i :| 0 <= i < |ready| && ready[i] == h;
      LessRefines(hosts);
      RootIsLeast(ready, Earlier(hosts), i);
    }
  }

  /** Whether Next finds something. */
  lemma RootDecides(hosts: Hosts, ready: seq<string>, now: int)
    requires HeapOk(hosts, ready)
    ensures |ready| > 0 ==> Idle(hosts, ready[0]) && Earliest(hosts, ready[0])
    ensures (exists h :: Eligible(hosts, h, now)) <==> |ready| > 0 && ready[0] in hosts && hosts[ready[0]].readyAt <= now
  {
    if |ready| > 0 {
      RootIsEarliest(hosts, ready);
      assert hosts[ready[0]].readyAt <= now ==> Eligible(hosts, ready[0], now);
    } else {
      forall h ensures !Eligible(hosts, h, now) { assert h !in ready; }
    }
  }

  /** The root of a ranked heap has the highest priority among the earliest hosts. */
  lemma RootIsPreferred(hosts: Hosts, ready: seq<string>, h: string)
    requires HeapOk(hosts, ready) && Ranked(hosts, ready) && Idle(hosts, h)
    ensures |ready| > 0 && Idle(hosts, ready[0])
    ensures hosts[ready[0]].readyAt == hosts[h].readyAt ==> hosts[ready[0]].priority >= hosts[h].priority
  {
    assert h in ready;
    var i :| 0 <= i < |ready| && ready[i] == h;
    assert ready[0] in ready;
    RootIsLeast(ready, Less(hosts), i);
  }

  /** Of two hosts level in readiness and priority, the one behind is raised: the heap still serves the other. */
  lemma RaisedIsPassedOver(u: URL, v: URL, w: URL)
    requires u.host == "a" && v.host == w.host == "b" && 0 < w.priority
    ensures var hosts: Hosts := map["a" := Host(0, 0, 0, false, [u]), "b" := Host(0, 0, 0, false, [v])];
            var hosts' := Queued(hosts, w, 0);
            && HeapOk(hosts, ["a", "b"]) && Ranked(hosts, ["a", "b"]) && Raises(hosts, w)
            && HeapOk(hosts', ["a", "b"]) && !Ranked(hosts', ["a", "b"])
            && hosts'["b"].priority > hosts'["a"].priority && hosts'["b"].readyAt == hosts'["a"].readyAt
  {
    var hosts: Hosts := map["a" := Host(0, 0, 0, false, [u]), "b" := Host(0, 0, 0, false, [v])];
    assert Less(Queued(hosts, w, 0))(["a", "b"][1], ["a", "b"][Parent(1)]);
  }

  lemma ClocksTaken(hosts: Hosts, due: map<string, int>, out: set<string>, h: string, q: seq<URL>, now: int)
    requires Clocks(hosts, due, out) && Eligible(hosts, h, now)
    ensures Clocks(hosts[h := hosts[h].(queue := q, busy := true)], due, out + {h})
    ensures h !in out && (h in due ==> due[h] <= now)
  {
  }

  /** The root leaves the heap when its host becomes busy. */
  method PopHost(ghost before: Hosts, hosts: Hosts, ready: seq<string>) returns (ready': seq<string>)
    requires HeapOk(before, ready) && |ready| > 0 && ready[0] in before
    requires exists q :: hosts == before[ready[0] := before[ready[0]].(queue := q, busy := true)]
    ensures HeapOk(hosts, ready') && (Ranked(before, ready) ==> Ranked(hosts, ready'))
  {
    HeapKept(before, hosts, ready);
    if Ranked(before, ready) { RankKept(before, hosts, ready); }
    KeptOrderRefined(hosts, ready);
    var top;
    top, ready' := PopBy(ready, Less(hosts), KeptOrder(hosts, ready));
    RefinedHeap(hosts, ready', KeptOrder(hosts, ready));
    PoppedNoRepeats(ready, ready', top);
  }

  /** u was at the head of the earliest eligible host, which is now busy. */
  ghost predicate Taken(hosts: Hosts, hosts': Hosts, u: URL, now: int)
  {
    && Eligible(hosts, u.host, now) && Earliest(hosts, u.host) && hosts[u.host].queue[0] == u
    && hosts' == hosts[u.host := hosts[u.host].(queue := hosts[u.host].queue[1..], busy := true)]
  }

  /** No idle host with work is level with h in readiness and above it in priority. */
  ghost predicate Preferred(hosts: Hosts, h: string)
  {
    h in hosts && forall x :: Idle(hosts, x) && hosts[x].readyAt == hosts[h].readyAt ==> hosts[x].priority <= hosts[h].priority
  }

  method TakeTop(hosts: Hosts, ready: seq<string>, now: int) returns (u: URL, ok: bool, hosts': Hosts, ready': seq<string>)
    requires Core(hosts, ready)
    ensures ok <==> AnyEligible(hosts, now)
    ensures !ok ==> hosts' == hosts && ready' == ready
    ensures ok ==> Taken(hosts, hosts', u, now) && HeapOk(hosts', ready')
    ensures Ranked(hosts, ready) ==> Ranked(hosts', ready') && (ok ==> Preferred(hosts, u.host))
  {
    u, ok, hosts', ready' := URL("", "", 0, 0), false, hosts, ready;
    RootDecides(hosts, ready, now);
    if |ready| == 0 {
      return;
    }
    var top := ready[0];
    if hosts[top].busy || hosts[top].readyAt > now {
      return;
    }
    u, ok := hosts[top].queue[0], true;
    assert Ranked(hosts, ready) ==> Preferred(hosts, top) by {
      if Ranked(hosts, ready) { forall x | Idle(hosts, x) { RootIsPreferred(hosts, ready, x); } }
    }
    hosts' := hosts[top := hosts[top].(queue := hosts[top].queue[1..], busy := true)];
    ready' := PopHost(hosts, hosts', ready);
  }

  /** Drains the front queues and takes the top of the heap. */
  method AssignAndTake(hosts: Hosts, ready: seq<string>, front: seq<seq<URL>>, now: int)
    returns (u: URL, ok: bool, hosts': Hosts, ready': seq<string>, front': seq<seq<URL>>)
    requires Core(hosts, ready) && Drained(front)
    ensures Drained(front') && (ok <==> AnyEligible(hosts, now))
    ensures !ok ==> hosts' == hosts && HeapOk(hosts', ready')
    ensures ok ==> Taken(hosts, hosts', u, now) && HeapOk(hosts', ready')
    ensures Ranked(hosts, ready) ==> Ranked(hosts', ready') && (ok ==> Preferred(hosts, u.host))
  {
    DrainNone(front, 0);
    var hs, r, f := AssignAll(hosts, ready, front, now);
    u, ok, hosts', ready' := TakeTop(hs, r, now);
    front' := f;
  }

  lemma TakenAccounts(hosts: Hosts, hosts': Hosts, u: URL, now: int, admitted: seq<URL>, handed: seq<URL>, pending: int,
                      seen: set<nat>, due: map<string, int>, out: set<string>)
    requires Taken(hosts, hosts', u, now) && QueuesOk(hosts)
    requires Accounts(admitted, HeldAll(hosts), handed, pending, seen) && Clocks(hosts, due, out)
    ensures Accounts(admitted, HeldAll(hosts'), handed + [u], pending - 1, seen) && QueuesOk(hosts') && DistinctPrints(handed + [u])
    ensures Clocks(hosts', due, out + {u.host}) && u.host !in out && (u.host in due ==> due[u.host] <= now)
  {
    HandOut(hosts, u.host, u, admitted, handed, pending, seen);
    ClocksTaken(hosts, due, out, u.host, hosts[u.host].queue[1..], now);
  }

  lemma HandOut(hosts: Hosts, top: string, u: URL, admitted: seq<URL>, handed: seq<URL>, pending: int, seen: set<nat>)
    requires top in hosts && |hosts[top].queue| > 0 && hosts[top].queue[0] == u && QueuesOk(hosts)
    requires Accounts(admitted, HeldAll(hosts), handed, pending, seen)
    ensures var hosts' := hosts[top := hosts[top].(queue := hosts[top].queue[1..], busy := true)];
            Accounts(admitted, HeldAll(hosts'), handed + [u], pending - 1, seen) && QueuesOk(hosts') && DistinctPrints(handed + [u])
  {
    var q := hosts[top].queue;
    var r := hosts[top].(queue := q[1..], busy := true);
    HeldUpdate(hosts, top, r);
    assert q == [u] + q[1..];
    assert multiset(q) == multiset{u} + multiset(q[1..]);
    TakenCount(HeldAll(hosts), HeldAll(hosts[top := r]), u, multiset(q[1..]), handed);
    SubPrints(admitted, handed + [u]);
  }

  lemma TakenCount(held: multiset<URL>, held': multiset<URL>, u: URL, rest: multiset<URL>, handed: seq<URL>)
    requires held' + (multiset{u} + rest) == held + rest
    ensures held == held' + multiset{u}
    ensures held + multiset(handed) == held' + multiset(handed + [u])
  {
    assert held' + (multiset{u} + rest) == (held' + multiset{u}) + rest;
    Cancel(held' + multiset{u}, held, rest);
    assert multiset(handed + [u]) == multiset(handed) + multiset{u};
    assert (held' + multiset{u}) + multiset(handed) == held' + (multiset(handed) + multiset{u});
  }

  /** What is drawn from URLs with distinct fingerprints has distinct fingerprints. */
  lemma SubPrints(all: seq<URL>, some: seq<URL>)
    requires DistinctPrints(all) && multiset(some) <= multiset(all)
    ensures DistinctPrints(some)
  {
    forall i, j | 0 <= i < j < |some| ensures some[i].fingerprint != some[j].fingerprint {
      assert some[i] in multiset(some) && some[j] in multiset(some);
      assert some[i] in multiset(all) && some[j] in multiset(all);
      var a :| 0 <= a < |all| && all[a] == some[i];
      var b :| 0 <= b < |all| && all[b] == some[j];
      if a == b {
        TwiceShows(some, i, j);
        PrintCount(all, a);
      }
    }
  }

  lemma TwiceShows(some: seq<URL>, i: nat, j: nat)
    requires i < j < |some| && some[i] == some[j]
    ensures multiset(some)[some[i]] >= 2
  {
    assert some == some[..j] + [some[j]] + some[j + 1..];
    assert some[..j][i] == some[j];
    assert some[j] in multiset(some[..j]);
  }

  lemma PrintCount(all: seq<URL>, a: nat)
    requires DistinctPrints(all) && a < |all|
    ensures multiset(all)[all[a]] == 1
  {
    assert all == all[..a] + [all[a]] + all[a + 1..];
    assert all[a] !in all[..a] && all[a] !in all[a + 1..];
    assert all[a] !in multiset(all[..a]) && all[a] !in multiset(all[a + 1..]);
  }

  // ----- each host is served first in, first out

  /** The URLs of host h among us, in order. */
  ghost function OfHost(us: seq<URL>, h: string): seq<URL>
  {
    if us == [] then []
    else
      var n := |us| - 1;
      OfHost(us[..n], h) + if us[n].host == h then [us[n]] else []
  }

  lemma OfHostMore(us: seq<URL>, u: URL, h: string)
    ensures OfHost(us + [u], h) == OfHost(us, h) + if u.host == h then [u] else []
  {
    assert (us + [u])[..|us|] == us;
  }

  /** What was admitted for a host is, in order, what was handed out of it and then what it queues. */
  ghost predicate InOrder(hosts: Hosts, admitted: seq<URL>, handed: seq<URL>)
  {
    forall h {:trigger OfHost(admitted, h)} :: OfHost(admitted, h) == OfHost(handed, h) + At(hosts, h).queue
  }

  lemma AdmitInOrder(hosts: Hosts, admitted: seq<URL>, handed: seq<URL>, u: URL, now: int)
    requires InOrder(hosts, admitted, handed)
    ensures InOrder(Queued(hosts, u, now), admitted + [u], handed)
  {
    forall h ensures OfHost(admitted + [u], h) == OfHost(handed, h) + At(Queued(hosts, u, now), h).queue {
      OfHostMore(admitted, u, h);
    }
  }

  lemma TakenInOrder(hosts: Hosts, hosts': Hosts, admitted: seq<URL>, handed: seq<URL>, u: URL, now: int)
    requires InOrder(hosts, admitted, handed) && Taken(hosts, hosts', u, now)
    ensures InOrder(hosts', admitted, handed + [u])
  {
    forall h ensures OfHost(admitted, h) == OfHost(handed + [u], h) + At(hosts', h).queue {
      OfHostMore(handed, u, h);
      if h == u.host { assert hosts[h].queue == [u] + hosts'[h].queue; }
    }
  }

  lemma SameQueuesInOrder(hosts: Hosts, hosts': Hosts, admitted: seq<URL>, handed: seq<URL>)
    requires InOrder(hosts, admitted, handed) && forall h :: At(hosts, h).queue == At(hosts', h).queue
    ensures InOrder(hosts', admitted, handed)
  {
  }

  // ----- the books between calls

  /** The heap is right, the front queues are drained, every admitted URL is queued or was handed out,
      each fingerprint was admitted once, the hosts keep their clocks, and each is served in order. */
  ghost predicate Books(hosts: Hosts, ready: seq<string>, front: seq<seq<URL>>, admitted: seq<URL>, handed: seq<URL>, pending: int,
                        seen: set<nat>, due: map<string, int>, out: set<string>)
  {
    && Core(hosts, ready) && Drained(front)
    && Accounts(admitted, HeldAll(hosts), handed, pending, seen) && Clocks(hosts, due, out) && InOrder(hosts, admitted, handed)
  }

  lemma AdmitBooks(hosts: Hosts, ready: seq<string>, front: seq<seq<URL>>, admitted: seq<URL>, handed: seq<URL>, pending: int,
                   seen: set<nat>, due: map<string, int>, out: set<string>, u: URL, now: int, ready': seq<string>, front': seq<seq<URL>>)
    requires Books(hosts, ready, front, admitted, handed, pending, seen, due, out) && u.fingerprint !in seen
    requires Core(Queued(hosts, u, now), ready') && Drained(front')
    ensures Books(Queued(hosts, u, now), ready', front', admitted + [u], handed, pending + 1, seen + {u.fingerprint}, due, out)
  {
    QueuedKeeps(hosts, u, now);
    AdmitAccounts(hosts, Queued(hosts, u, now), u, admitted, handed, pending, seen, due, out);
    AdmitInOrder(hosts, admitted, handed, u, now);
  }

  /** What u does to the hosts. */
  ghost predicate Joined(hosts: Hosts, hosts': Hosts, u: URL, now: int)
  {
    && hosts'.Keys == hosts.Keys + {u.host} && (forall h :: h in hosts && h != u.host ==> hosts'[h] == hosts[h])
    && (u.host in hosts ==>
          var before, after := hosts[u.host], hosts'[u.host];
          && after.queue == before.queue + [u] && after.priority == Max(before.priority, u.priority)
          && after.readyAt == before.readyAt && after.crawlDelay == before.crawlDelay && after.busy == before.busy)
    && (u.host !in hosts ==> hosts'[u.host] == Host(now, 0, Max(0, u.priority), false, [u]))
  }

  /** Admits u, which has a host, unless its fingerprint was seen, and keeps the books. */
  method Admit(hosts: Hosts, ready: seq<string>, front: seq<seq<URL>>, ghost admitted: seq<URL>, ghost handed: seq<URL>, pending: int,
               seen: set<nat>, ghost due: map<string, int>, ghost out: set<string>, u: URL, now: int)
    returns (ok: bool, hosts': Hosts, ready': seq<string>, front': seq<seq<URL>>, ghost admitted': seq<URL>, pending': int, seen': set<nat>)
    requires Books(hosts, ready, front, admitted, handed, pending, seen, due, out)
    ensures Books(hosts', ready', front', admitted', handed, pending', seen', due, out)
    ensures ok <==> u.fingerprint !in seen
    ensures !ok ==> hosts' == hosts && ready' == ready && admitted' == admitted && pending' == pending
    ensures ok ==> Joined(hosts, hosts', u, now) && admitted' == admitted + [u] && pending' == pending + 1
    ensures seen' == seen + {u.fingerprint}
    ensures Ranked(hosts, ready) && !Raises(hosts, u) ==> Ranked(hosts', ready')
  {
    ok, hosts', ready', front' := u.fingerprint !in seen, hosts, ready, front;
    admitted', pending', seen' := admitted, pending, seen + {u.fingerprint};
    if ok {
      hosts', ready', front' := AdmitURL(hosts, ready, front, u, now);
      AdmitBooks(hosts, ready, front, admitted, handed, pending, seen, due, out, u, now, ready', front');
      admitted', pending' := admitted + [u], pending + 1;
    }
    assert !ok ==> seen' == seen;
  }

  lemma TakenBooks(hosts: Hosts, ready: seq<string>, front: seq<seq<URL>>, admitted: seq<URL>, handed: seq<URL>, pending: int,
                   seen: set<nat>, due: map<string, int>, out: set<string>, u: URL, now: int, hosts': Hosts, ready': seq<string>, front': seq<seq<URL>>)
    requires Books(hosts, ready, front, admitted, handed, pending, seen, due, out) && Taken(hosts, hosts', u, now)
    requires HeapOk(hosts', ready') && Drained(front')
    ensures Books(hosts', ready', front', admitted, handed + [u], pending - 1, seen, due, out + {u.host})
    ensures DistinctPrints(handed + [u]) && u.host !in out && (u.host in due ==> due[u.host] <= now)
  {
    TakenAccounts(hosts, hosts', u, now, admitted, handed, pending, seen, due, out);
    TakenInOrder(hosts, hosts', admitted, handed, u, now);
  }

  lemma KeptBooks(hosts: Hosts, ready: seq<string>, front: seq<seq<URL>>, admitted: seq<URL>, handed: seq<URL>, pending: int,
                  seen: set<nat>, due: map<string, int>, out: set<string>, ready': seq<string>, front': seq<seq<URL>>)
    requires Books(hosts, ready, front, admitted, handed, pending, seen, due, out) && HeapOk(hosts, ready') && Drained(front')
    ensures Books(hosts, ready', front', admitted, handed, pending, seen, due, out)
  {
  }

  /** Drains the front queues, takes the top of the heap and keeps the books. */
  method HandTop(hosts: Hosts, ready: seq<string>, front: seq<seq<URL>>, ghost admitted: seq<URL>, ghost handed: seq<URL>, pending: int,
                 ghost seen: set<nat>, ghost due: map<string, int>, ghost out: set<string>, now: int)
    returns (u: URL, ok: bool, hosts': Hosts, ready': seq<string>, front': seq<seq<URL>>, ghost handed': seq<URL>, pending': int, ghost out': set<string>)
    requires Books(hosts, ready, front, admitted, handed, pending, seen, due, out)
    ensures Books(hosts', ready', front', admitted, handed', pending', seen, due, out') && InOrder(hosts', admitted, handed')
    ensures ok <==> AnyEligible(hosts, now)
    ensures !ok ==> hosts' == hosts && handed' == handed && pending' == pending && out' == out
    ensures ok ==>
      && Taken(hosts, hosts', u, now)
      && handed' == handed + [u] && pending' == pending - 1 && DistinctPrints(handed')
      && u.host !in out && out' == out + {u.host} && (u.host in due ==> due[u.host] <= now)
    ensures Ranked(hosts, ready) ==> Ranked(hosts', ready') && (ok ==> Preferred(hosts, u.host))
  {
    u, ok, hosts', ready', front' := AssignAndTake(hosts, ready, front, now);
    handed', pending', out' := handed, pending, out;
    if ok {
      handed', pending', out' := handed + [u], pending - 1, out + {u.host};
      TakenBooks(hosts, ready, front, admitted, handed, pending, seen, due, out, u, now, hosts', ready', front');
    } else {
      KeptBooks(hosts, ready, front, admitted, handed, pending, seen, due, out, ready', front');
    }
  }

  lemma FreedBooks(hosts: Hosts, ready: seq<string>, front: seq<seq<URL>>, admitted: seq<URL>, handed: seq<URL>, pending: int,
                   seen: set<nat>, due: map<string, int>, out: set<string>, h: string, at: int, hosts': Hosts, ready': seq<string>)
    requires Books(hosts, ready, front, admitted, handed, pending, seen, due, out) && h in hosts
    requires hosts' == hosts[h := hosts[h].(busy := false, readyAt := at)] && Core(hosts', ready') && HeldAll(hosts') == HeldAll(hosts)
    ensures Books(hosts', ready', front, admitted, handed, pending, seen, due[h := at], out - {h})
  {
    SameQueuesInOrder(hosts, hosts', admitted, handed);
  }

  /** Frees a known host until `at` and keeps the books. */
  method Free(hosts: Hosts, ready: seq<string>, ghost front: seq<seq<URL>>, ghost admitted: seq<URL>, ghost handed: seq<URL>, ghost pending: int,
              ghost seen: set<nat>, ghost due: map<string, int>, ghost out: set<string>, h: string, at: int)
    returns (hosts': Hosts, ready': seq<string>, ghost due': map<string, int>, ghost out': set<string>)
    requires Books(hosts, ready, front, admitted, handed, pending, seen, due, out) && h in hosts && !Idle(hosts, h)
    ensures Books(hosts', ready', front, admitted, handed, pending, seen, due', out')
    ensures hosts' == hosts[h := hosts[h].(busy := false, readyAt := at)] && due' == due[h := at] && out' == out - {h}
    ensures Ranked(hosts, ready) ==> Ranked(hosts', ready')
  {
    hosts', ready' := Freed(hosts, ready, h, at);
    due', out' := due[h := at], out - {h};
    FreedBooks(hosts, ready, front, admitted, handed, pending, seen, due, out, h, at, hosts', ready');
  }

  lemma DelayKeeps(hosts: Hosts, ready: seq<string>, h: string, d: int, now: int)
    requires Core(hosts, ready)
    ensures var hosts' := hosts[h := HostOf(hosts, h, now).(crawlDelay := d)];
            Core(hosts', ready) && HeldAll(hosts') == HeldAll(hosts) && forall x :: At(hosts', x).queue == At(hosts, x).queue
  {
    var hs := HostOf(hosts, h, now).(crawlDelay := d);
    var hosts' := hosts[h := hs];
    HeldUpdate(hosts, h, hs);
    Cancel(HeldAll(hosts'), HeldAll(hosts), multiset(hs.queue));
    HeapKept(hosts, hosts', ready);
  }

  lemma DelayClocks(hosts: Hosts, due: map<string, int>, out: set<string>, h: string, d: int, now: int)
    requires Clocks(hosts, due, out)
    ensures Clocks(hosts[h := HostOf(hosts, h, now).(crawlDelay := d)], due, out)
  {
  }

  lemma DelayBooks(hosts: Hosts, ready: seq<string>, front: seq<seq<URL>>, admitted: seq<URL>, handed: seq<URL>, pending: int,
                   seen: set<nat>, due: map<string, int>, out: set<string>, h: string, d: int, now: int)
    requires Books(hosts, ready, front, admitted, handed, pending, seen, due, out)
    ensures Books(hosts[h := HostOf(hosts, h, now).(crawlDelay := d)], ready, front, admitted, handed, pending, seen, due, out)
  {
    DelayKeeps(hosts, ready, h, d, now);
    DelayClocks(hosts, due, out, h, d, now);
    SameQueuesInOrder(hosts, hosts[h := HostOf(hosts, h, now).(crawlDelay := d)], admitted, handed);
  }
}
