/** The routing table in the store and the routers that follow it (control/routing.go). */
module Routing {
  import opened Options
  import opened Store
  import opened StoreRuns
  import opened Watching
  import opened RouteCodec

  type Kv = map<string, string>

  type Assignment = map<nat, seq<string>>

  /** The key names the shard, whatever its spelling. */
  ghost predicate Names(k: string, n: nat)
  {
    ParseRouteKey(k) == Some(n)
  }

  ghost predicate Named(kv: Kv, n: nat)
  {
    exists k :: k in kv && Names(k, n)
  }

  /** Some stored key for the shard holds these nodes. */
  ghost predicate Holds(kv: Kv, n: nat, nodes: seq<string>)
  {
    exists k :: k in kv && Names(k, n) && DecodeNodes(kv[k]) == nodes
  }

  /** The map has the shard exactly if a key names it, with what one of those keys holds. */
  ghost predicate ReadsAt(kv: Kv, a: Assignment, n: nat)
  {
    (n in a <==> Named(kv, n)) && (n in a ==> Holds(kv, n, a[n]))
  }

  /** A map that a scan of the store can give. */
  ghost predicate Reading(kv: Kv, a: Assignment)
  {
    forall n: nat :: ReadsAt(kv, a, n)
  }

  /** No two keys name one shard. */
  ghost predicate Unaliased(kv: Kv)
  {
    forall k, k', n :: k in kv && k' in kv && Names(k, n) && Names(k', n) ==> k == k'
  }

  /** Without aliases every scan gives the same map. */
  lemma ReadingIsUnique(kv: Kv, a: Assignment, b: Assignment)
    requires Unaliased(kv) && Reading(kv, a) && Reading(kv, b)
    ensures a == b
  {
    forall n: nat ensures (n in a <==> n in b) && (n in a ==> a[n] == b[n]) {
      assert ReadsAt(kv, a, n) && ReadsAt(kv, b, n);
    }
  }

  /** Reads the whole table, in whatever order the store lists the keys. */
  method Load(store: MemStore) returns (a: Assignment)
    ensures Reading(store.kv, a)
  {
    var kvs := store.ListPrefix(ROUTE);
    a := map[];
    var rest := kvs.Keys;
    while rest != {}
      invariant rest <= kvs.Keys
      invariant Reading(kvs - rest, a)
    {
      var k :| k in rest;
      var shard := ParseRouteKey(k);
      LoadStep(kvs, rest, a, k);
      if shard.Some? {
        a := a[shard.value := DecodeNodes(kvs[k])];
      }
      rest := rest - {k};
    }
    assert kvs - rest == kvs;
    LoadDone(store.kv, kvs, a);
  }

  lemma LoadStep(kvs: Kv, rest: set<string>, a: Assignment, k: string)
    requires Reading(kvs - rest, a) && k in rest && rest <= kvs.Keys
    ensures Reading(kvs - (rest - {k}), Folded(a, EventPut(k, kvs[k])))
  {
    var e := EventPut(k, kvs[k]);
    assert kvs - (rest - {k}) == Applied(kvs - rest, e);
    forall n: nat ensures ReadsAt(Applied(kvs - rest, e), Folded(a, e), n) {
      assert ReadsAt(kvs - rest, a, n);
      FoldsOneAt(kvs - rest, e, a, n);
    }
  }

  lemma LoadDone(kv: Kv, kvs: Kv, a: Assignment)
    requires kvs == (map k | k in kv && ROUTE <= k :: kv[k]) && Reading(kvs, a)
    ensures Reading(kv, a)
  {
    forall n: nat ensures ReadsAt(kv, a, n) {
      assert ReadsAt(kvs, a, n);
      assert forall k :: k in kv && Names(k, n) ==> k in kvs;
    }
  }

  // ----- routers

  /** One event folded into a router's map. */
  function Folded(a: Assignment, e: Event): Assignment
  {
    var shard := ParseRouteKey(e.key);
    if shard.None? then a
    else
      match e
      case EventPut(_, v) => a[shard.value := DecodeNodes(v)]
      case EventDelete(_) => a - {shard.value}
  }

  function FoldedAll(a: Assignment, es: seq<Event>): Assignment
  {
    if es == [] then a else Folded(FoldedAll(a, es[..|es| - 1]), es[|es| - 1])
  }

  class Router {
    var current: Assignment

    constructor (seed: Assignment)
      ensures current == seed
    {
      current := seed;
    }

    function Lookup(shard: nat): (r: Option<seq<string>>)
      reads this
      ensures r.Some? <==> shard in current
      ensures r.Some? ==> r.value == current[shard]
    {
      if shard in current then Some(current[shard]) else None
    }

    method Apply(e: Event)
      modifies this
      ensures current == Folded(old(current), e)
      ensures forall n: nat :: ParseRouteKey(e.key) != Some(n) ==>
                (n in current <==> n in old(current)) && (n in current ==> current[n] == old(current)[n])
      ensures forall n: nat :: ParseRouteKey(e.key) == Some(n) ==>
                (n in current <==> e.EventPut?) && (e.EventPut? ==> current[n] == DecodeNodes(e.value))
    {
      var shard := ParseRouteKey(e.key);
      if shard.None? {
        return;
      }
      match e
      case EventPut(_, v) => current := current[shard.value := DecodeNodes(v)];
      case EventDelete(_) => current := current - {shard.value};
    }
  }

  // ----- what a fold of events keeps

  /** The last of the events whose key names the shard. */
  function LastOn(es: seq<Event>, n: nat): Option<Event>
  {
    if es == [] then None
    else
      var e := es[|es| - 1];
      if ParseRouteKey(e.key) == Some(n) then Some(e) else LastOn(es[..|es| - 1], n)
  }

  /** When the folded map agrees with the store on a shard: always after a put; after a deletion if
      no other key names the shard; if nothing happened to the shard, as before. */
  ghost predicate AgreesWhen(last: Option<Event>, before: bool, named: bool)
  {
    match last
    case None => before
    case Some(EventPut(_, _)) => true
    case Some(EventDelete(_)) => !named
  }

  lemma FoldsOneAt(kv: Kv, e: Event, a: Assignment, n: nat)
    ensures ReadsAt(Applied(kv, e), Folded(a, e), n) <==>
              AgreesWhen(LastOn([e], n), ReadsAt(kv, a, n), Named(Applied(kv, e), n))
    ensures !Names(e.key, n) ==> (Named(Applied(kv, e), n) <==> Named(kv, n))
  {
    var kv', a' := Applied(kv, e), Folded(a, e);
    assert [e][..0] == [];
    if !Names(e.key, n) {
      forall k | Names(k, n) ensures k in kv' <==> k in kv {}
      assert Named(kv', n) <==> Named(kv, n);
      assert (n in a' <==> n in a) && (n in a ==> a'[n] == a[n] && (Holds(kv', n, a[n]) <==> Holds(kv, n, a[n])));
    } else if e.EventPut? {
      assert e.key in kv' && Names(e.key, n) && DecodeNodes(kv'[e.key]) == a'[n];
    }
  }

  /** Over any events, the map agrees with the store on a shard exactly if the last event on it was a
      put, or was a deletion and no key names it any more, or there was none and it agreed before. */
  lemma {:induction false} FoldsAtIff(kv: Kv, es: seq<Event>, a: Assignment, n: nat)
    ensures ReadsAt(AppliedAll(kv, es), FoldedAll(a, es), n) <==>
              AgreesWhen(LastOn(es, n), ReadsAt(kv, a, n), Named(AppliedAll(kv, es), n))
  {
    if es != [] {
      var m := |es| - 1;
      FoldsAtIff(kv, es[..m], a, n);
      FoldsOneAt(AppliedAll(kv, es[..m]), es[m], FoldedAll(a, es[..m]), n);
      LastOnSnoc(es, n);
    }
  }

  lemma LastOnSnoc(es: seq<Event>, n: nat)
    requires es != []
    ensures var e := es[|es| - 1]; LastOn(es, n) == if Names(e.key, n) then LastOn([e], n) else LastOn(es[..|es| - 1], n)
    ensures var e := es[|es| - 1]; LastOn([e], n) == if Names(e.key, n) then Some(e) else None
  {
    assert [es[|es| - 1]][..0] == [];
  }

  /** Deleting a key keeps the router right about its shard exactly if no other stored key names it. */
  lemma DeletionAgreesIff(kv: Kv, key: string, a: Assignment, n: nat)
    requires Names(key, n)
    ensures ReadsAt(Applied(kv, EventDelete(key)), Folded(a, EventDelete(key)), n) <==>
              forall k :: k in kv && Names(k, n) ==> k == key
  {
    FoldsOneAt(kv, EventDelete(key), a, n);
    LastOnSnoc([EventDelete(key)], n);
    var kv' := Applied(kv, EventDelete(key));
    assert forall k :: k in kv' <==> k in kv && k != key;
  }

  /** While no two keys name one shard, a map read from the store stays one under every event. */
  lemma ReadingFollows(kv: Kv, e: Event, a: Assignment)
    requires Unaliased(kv) && Reading(kv, a) && (e.EventDelete? ==> e.key in kv)
    ensures Reading(Applied(kv, e), Folded(a, e))
  {
    forall n: nat ensures ReadsAt(Applied(kv, e), Folded(a, e), n) {
      assert ReadsAt(kv, a, n);
      FoldsOneAt(kv, e, a, n);
      LastOnSnoc([e], n);
    }
  }

  /** Events outside the watched prefix do not matter to a router. */
  lemma {:induction false} FoldMatching(a: Assignment, es: seq<Event>)
    ensures FoldedAll(a, Matching(ROUTE, es)) == FoldedAll(a, es)
  {
    if es != [] {
      var n := |es| - 1;
      FoldMatching(a, es[..n]);
      var ms := Matching(ROUTE, es[..n]);
      if ROUTE <= es[n].key {
        assert (ms + [es[n]])[..|ms|] == ms;
      } else {
        assert ms + [] == ms;
      }
    }
  }

  lemma {:induction false} FoldConcat(a: Assignment, es: seq<Event>, fs: seq<Event>)
    ensures FoldedAll(a, es + fs) == FoldedAll(FoldedAll(a, es), fs)
  {
    if fs == [] {
      assert es + fs == es;
    } else {
      var n := |fs| - 1;
      FoldConcat(a, es, fs[..n]);
      assert (es + fs)[..|es + fs| - 1] == es + fs[..n];
    }
  }

  /** The router's watch on the routing prefix. */
  ghost predicate Watches(s: State, id: nat)
  {
    && Find(s.watchers, id).Some?
    && Find(s.watchers, id).value.prefix == ROUTE && |Find(s.watchers, id).value.queue| <= QUEUE_CAP
  }

  /** The operation's events all fit into the watcher's queue. */
  ghost predicate Fits(s: State, op: Op, id: nat)
    requires Find(s.watchers, id).Some?
  {
    var w := Find(s.watchers, id).value;
    |w.queue| + |Matching(w.prefix, Events(s, op))| <= QUEUE_CAP
  }

  // ----- whole runs

  datatype RouterStep = StoreOp(op: Op) | Deliver

  datatype Fleet = Fleet(store: State, current: Assignment)

  function Moved(f: Fleet, id: nat, step: RouterStep): Fleet
  {
    match step
    case StoreOp(op) => f.(store := Next(f.store, op))
    case Deliver =>
      var w := Find(f.store.watchers, id);
      if w.Some? && w.value.queue != [] then
        Fleet(Next(f.store, OpReceive(id)), Folded(f.current, w.value.queue[0]))
      else f
  }

  function MovedAll(f: Fleet, id: nat, steps: seq<RouterStep>): Fleet
    decreases |steps|
  {
    if steps == [] then f else MovedAll(Moved(f, id, steps[0]), id, steps[1..])
  }

  function StepEvents(f: Fleet, step: RouterStep): seq<Event>
  {
    if step.StoreOp? then Events(f.store, step.op) else []
  }

  /** All events of a run, in order. */
  function History(f: Fleet, id: nat, steps: seq<RouterStep>): seq<Event>
    decreases |steps|
  {
    if steps == [] then [] else StepEvents(f, steps[0]) + History(Moved(f, id, steps[0]), id, steps[1..])
  }

  /** The router's queue drops nothing and nobody else reads or closes its watch. */
  ghost predicate NoDrop(f: Fleet, id: nat, step: RouterStep)
  {
    step.StoreOp? ==>
      !Disturbs(step.op, id) && (Find(f.store.watchers, id).Some? ==> Fits(f.store, step.op, id))
  }

  ghost predicate NoDrops(f: Fleet, id: nat, steps: seq<RouterStep>)
    decreases |steps|
  {
    steps != [] ==> NoDrop(f, id, steps[0]) && NoDrops(Moved(f, id, steps[0]), id, steps[1..])
  }

  /** The router's map with what waits in its queue folded in. */
  ghost function View(f: Fleet, id: nat): Assignment
    requires Watches(f.store, id)
  {
    FoldedAll(f.current, Find(f.store.watchers, id).value.queue)
  }

  lemma StoreOpMoves(f: Fleet, id: nat, op: Op)
    requires Watches(f.store, id) && NoDrop(f, id, StoreOp(op))
    ensures var g := f.(store := Next(f.store, op));
            && Watches(g.store, id)
            && g.store.kv == AppliedAll(f.store.kv, Events(f.store, op))
            && View(g, id) == FoldedAll(View(f, id), Events(f.store, op))
  {
    var w, es := Find(f.store.watchers, id).value, Events(f.store, op);
    NextKv(f.store, op);
    NextQueue(f.store, op, id);
    QueueAfter(w, es);
    FoldConcat(f.current, w.queue, Matching(ROUTE, es));
    FoldMatching(View(f, id), es);
  }

  lemma DeliverMoves(f: Fleet, id: nat)
    requires Watches(f.store, id)
    ensures var g := Moved(f, id, Deliver); Watches(g.store, id) && g.store.kv == f.store.kv && View(g, id) == View(f, id)
  {
    var q := Find(f.store.watchers, id).value.queue;
    if q != [] {
      FindTake(f.store.watchers, id, id);
      FoldConcat(f.current, [q[0]], q[1..]);
      assert [q[0]] + q[1..] == q;
      assert [q[0]][..0] == [];
      assert FoldedAll(f.current, [q[0]]) == Folded(f.current, q[0]);
    }
  }

  lemma {:induction false} AppliedConcat(kv: Kv, es: seq<Event>, fs: seq<Event>)
    ensures AppliedAll(kv, es + fs) == AppliedAll(AppliedAll(kv, es), fs)
  {
    if fs == [] {
      assert es + fs == es;
    } else {
      var n := |fs| - 1;
      AppliedConcat(kv, es, fs[..n]);
      assert (es + fs)[..|es + fs| - 1] == es + fs[..n];
    }
  }

  /** A run is its events: they are folded into the keys and, in time, into the router's map. */
  lemma {:induction false} RunIsHistory(f: Fleet, id: nat, steps: seq<RouterStep>)
    requires Watches(f.store, id) && NoDrops(f, id, steps)
    ensures var g, h := MovedAll(f, id, steps), History(f, id, steps);
            && Watches(g.store, id)
            && g.store.kv == AppliedAll(f.store.kv, h)
            && View(g, id) == FoldedAll(View(f, id), h)
    decreases |steps|
  {
    if steps != [] {
      var g, es := Moved(f, id, steps[0]), StepEvents(f, steps[0]);
      if steps[0].StoreOp? {
        StoreOpMoves(f, id, steps[0].op);
      } else {
        DeliverMoves(f, id);
      }
      RunIsHistory(g, id, steps[1..]);
      AppliedConcat(f.store.kv, es, History(g, id, steps[1..]));
      FoldConcat(View(f, id), es, History(g, id, steps[1..]));
    }
  }

  /** Over every run without a dropped event, whatever keys and leases it uses and whatever the router
      was seeded with: the router, once it has drained its queue, is right about a shard if and only if
      the last event on the shard was a put, or was a deletion and no key names the shard any more, or
      there was none and it was right at the start. */
  lemma RouterFollowsRun(f: Fleet, id: nat, steps: seq<RouterStep>, n: nat)
    requires Watches(f.store, id) && NoDrops(f, id, steps)
    ensures var g := MovedAll(f, id, steps);
            && Watches(g.store, id)
            && (ReadsAt(g.store.kv, View(g, id), n) <==>
                  AgreesWhen(LastOn(History(f, id, steps), n), ReadsAt(f.store.kv, View(f, id), n), Named(g.store.kv, n)))
            && (Find(g.store.watchers, id).value.queue == [] ==> View(g, id) == g.current)
  {
    RunIsHistory(f, id, steps);
    FoldsAtIff(f.store.kv, History(f, id, steps), View(f, id), n);
  }

  // ----- runs with dropped events

  /** The events of an operation that the watcher's queue takes: the matching ones that fit. */
  function Accepted(s: State, op: Op, id: nat): seq<Event>
    requires Find(s.watchers, id).Some?
  {
    var w := Find(s.watchers, id).value;
    var es := Matching(w.prefix, Events(s, op));
    var room := if |w.queue| < QUEUE_CAP then QUEUE_CAP - |w.queue| else 0;
    if |es| <= room then es else es[..room]
  }

  ghost function Received(f: Fleet, id: nat, steps: seq<RouterStep>): seq<Event>
    decreases |steps|
  {
    if steps == [] then []
    else
      (if steps[0].StoreOp? && Find(f.store.watchers, id).Some? then Accepted(f.store, steps[0].op, id) else [])
      + Received(Moved(f, id, steps[0]), id, steps[1..])
  }

  ghost predicate Undisturbed(id: nat, steps: seq<RouterStep>)
  {
    forall i :: 0 <= i < |steps| && steps[i].StoreOp? ==> !Disturbs(steps[i].op, id)
  }

  lemma StoreOpReceives(f: Fleet, id: nat, op: Op)
    requires Watches(f.store, id) && !Disturbs(op, id)
    ensures var g := f.(store := Next(f.store, op));
            Watches(g.store, id) && View(g, id) == FoldedAll(View(f, id), Accepted(f.store, op, id))
  {
    var w, es := Find(f.store.watchers, id).value, Events(f.store, op);
    var ms := Matching(w.prefix, es);
    NextQueue(f.store, op, id);
    QueueAfter(w, es);
    TakeAcross(w.queue, ms, QUEUE_CAP);
    FoldConcat(f.current, w.queue, Accepted(f.store, op, id));
  }

  lemma TakeAcross(q: seq<Event>, es: seq<Event>, cap: nat)
    requires |q| <= cap
    ensures |q + es| > cap ==> (q + es)[..cap] == q + es[..cap - |q|]
  {
  }

  lemma {:induction false} RunIsReceived(f: Fleet, id: nat, steps: seq<RouterStep>)
    requires Watches(f.store, id) && Undisturbed(id, steps)
    ensures var g := MovedAll(f, id, steps);
            Watches(g.store, id) && View(g, id) == FoldedAll(View(f, id), Received(f, id, steps))
    decreases |steps|
  {
    if steps != [] {
      var g := Moved(f, id, steps[0]);
      var es := if steps[0].StoreOp? then Accepted(f.store, steps[0].op, id) else [];
      if steps[0].StoreOp? {
        StoreOpReceives(f, id, steps[0].op);
      } else {
        DeliverMoves(f, id);
      }
      assert Undisturbed(id, steps[1..]) by {
        assert forall i :: 0 <= i < |steps[1..]| ==> steps[1..][i] == steps[i + 1];
      }
      RunIsReceived(g, id, steps[1..]);
      FoldConcat(View(f, id), es, Received(g, id, steps[1..]));
    }
  }

  /** The folded map on one shard is decided by the last event on it. */
  lemma {:induction false} FoldedAt(a: Assignment, es: seq<Event>, n: nat)
    ensures var b := FoldedAll(a, es);
            match LastOn(es, n)
            case None => (n in b <==> n in a) && (n in a ==> b[n] == a[n])
            case Some(EventPut(_, v)) => n in b && b[n] == DecodeNodes(v)
            case Some(EventDelete(_)) => n !in b
  {
    if es != [] { FoldedAt(a, es[..|es| - 1], n); }
  }

  /** What the last event received on a shard makes the router hold is in the store. */
  ghost predicate RightAfter(last: Option<Event>, kv: Kv, seed: Assignment, n: nat)
  {
    match last
    case None => ReadsAt(kv, seed, n)
    case Some(EventPut(_, v)) => Holds(kv, n, DecodeNodes(v))
    case Some(EventDelete(_)) => !Named(kv, n)
  }

  /** Over every run, dropped events included: the router, once drained, is right about a shard if and
      only if the last event it received on it still holds, or it received none and its seed does. */
  lemma RouterRightIff(f: Fleet, id: nat, steps: seq<RouterStep>, n: nat)
    requires Watches(f.store, id) && Undisturbed(id, steps)
    ensures var g := MovedAll(f, id, steps);
            && Watches(g.store, id)
            && (ReadsAt(g.store.kv, View(g, id), n) <==>
                  RightAfter(LastOn(Received(f, id, steps), n), g.store.kv, View(f, id), n))
  {
    RunIsReceived(f, id, steps);
    FoldedAt(View(f, id), Received(f, id, steps), n);
  }

  // ----- runs in which no two keys name one shard

  /** What the last event on a shard leaves of it; without one, what was there. */
  ghost function Leaves(last: Option<Event>, before: Assignment, n: nat): Option<seq<string>>
  {
    match last
    case None => if n in before then Some(before[n]) else None
    case Some(EventPut(_, v)) => Some(DecodeNodes(v))
    case Some(EventDelete(_)) => None
  }

  ghost predicate UnaliasedRun(f: Fleet, id: nat, steps: seq<RouterStep>)
    decreases |steps|
  {
    Unaliased(f.store.kv) && (steps != [] ==> UnaliasedRun(Moved(f, id, steps[0]), id, steps[1..]))
  }

  /** Expiring a lease deletes keys one by one, and the map follows each. */
  lemma {:induction false} ReadingFollowsExpiry(s: State, ks: seq<string>, l: nat, a: Assignment)
    requires Unaliased(s.kv) && Reading(s.kv, a)
    ensures Unaliased(DelAll(s, ks, l).kv)
    ensures Reading(DelAll(s, ks, l).kv, FoldedAll(a, Deletes(Expired(s, ks, l))))
  {
    if ks != [] {
      var n := |ks| - 1;
      var s', gone := DelAll(s, ks[..n], l), Expired(s, ks[..n], l);
      ReadingFollowsExpiry(s, ks[..n], l, a);
      if LeaseOf(s'.leaseOf, ks[n]) == l && ks[n] in s'.kv {
        DeletesSnoc(gone, ks[n]);
        ReadingFollows(s'.kv, EventDelete(ks[n]), FoldedAll(a, Deletes(gone)));
      } else {
        assert gone + [] == gone;
      }
    }
  }

  lemma ReadingFollowsOp(s: State, op: Op, a: Assignment)
    requires Unaliased(s.kv) && Reading(s.kv, a)
    ensures Reading(Next(s, op).kv, FoldedAll(a, Events(s, op)))
  {
    if op.OpExpire? {
      ReadingFollowsExpiry(s.(keysOf := s.keysOf - {op.lease}), Keys(s.keysOf, op.lease), op.lease, a);
    } else if Events(s, op) != [] {
      var e := Events(s, op)[0];
      assert Events(s, op) == [e] && [e][..0] == [];
      ReadingFollows(s.kv, e, a);
    }
  }

  /** While no two stored keys name one shard, a router seeded from the store and drained serves
      exactly the table, over every run without a dropped event. */
  lemma {:induction false} RouterServesTable(f: Fleet, id: nat, steps: seq<RouterStep>)
    requires Watches(f.store, id) && NoDrops(f, id, steps)
    requires UnaliasedRun(f, id, steps) && Reading(f.store.kv, View(f, id))
    ensures var g := MovedAll(f, id, steps);
            && Watches(g.store, id) && Unaliased(g.store.kv)
            && forall a :: Reading(g.store.kv, a) <==> a == View(g, id)
    decreases |steps|
  {
    if steps == [] {
      forall a | Reading(f.store.kv, a) ensures a == View(f, id) { ReadingIsUnique(f.store.kv, a, View(f, id)); }
    } else {
      if steps[0].StoreOp? {
        StoreOpMoves(f, id, steps[0].op);
        ReadingFollowsOp(f.store, steps[0].op, View(f, id));
      } else {
        DeliverMoves(f, id);
      }
      RouterServesTable(Moved(f, id, steps[0]), id, steps[1..]);
    }
  }

  /** The store follows the run's events, received or not. */
  lemma {:induction false} StoreFollowsHistory(f: Fleet, id: nat, steps: seq<RouterStep>, a: Assignment)
    requires UnaliasedRun(f, id, steps) && Reading(f.store.kv, a)
    ensures var g := MovedAll(f, id, steps);
            Unaliased(g.store.kv) && Reading(g.store.kv, FoldedAll(a, History(f, id, steps)))
    decreases |steps|
  {
    if steps != [] {
      var g, es := Moved(f, id, steps[0]), StepEvents(f, steps[0]);
      if steps[0].StoreOp? { ReadingFollowsOp(f.store, steps[0].op, a); }
      StoreFollowsHistory(g, id, steps[1..], FoldedAll(a, es));
      FoldConcat(a, es, History(g, id, steps[1..]));
    }
  }

  lemma AgreesIff(kv: Kv, a: Assignment, b: Assignment, n: nat)
    requires Unaliased(kv) && ReadsAt(kv, b, n)
    ensures ReadsAt(kv, a, n) <==> (n in a <==> n in b) && (n in a ==> a[n] == b[n])
  {
  }

  /** While no two keys name one shard, dropped events matter exactly if they leave the shard other than
      the events received do: a drained router is right about a shard if and only if the last event on
      it, received or dropped, leaves what the last one received leaves. */
  lemma DropsMatterIff(f: Fleet, id: nat, steps: seq<RouterStep>, a: Assignment, n: nat)
    requires Watches(f.store, id) && Undisturbed(id, steps) && UnaliasedRun(f, id, steps) && Reading(f.store.kv, a)
    ensures var g := MovedAll(f, id, steps);
            && Watches(g.store, id)
            && (ReadsAt(g.store.kv, View(g, id), n) <==>
                  Leaves(LastOn(History(f, id, steps), n), a, n) == Leaves(LastOn(Received(f, id, steps), n), View(f, id), n))
  {
    var g, h, got := MovedAll(f, id, steps), History(f, id, steps), Received(f, id, steps);
    RunIsReceived(f, id, steps);
    StoreFollowsHistory(f, id, steps, a);
    FoldedAt(a, h, n);
    FoldedAt(View(f, id), got, n);
    assert ReadsAt(g.store.kv, FoldedAll(a, h), n);
    AgreesIff(g.store.kv, View(g, id), FoldedAll(a, h), n);
  }

  /** With two spellings of one shard in the store, a router loses the shard that remains. */
  lemma AliasLosesShard()
    ensures var kv: Kv := map["route/1" := "a", "route/01" := "a"];
            var a: Assignment, e := map[1 := ["a"]], EventDelete("route/01");
            && Reading(kv, a) && Reading(Applied(kv, e), a) && Folded(a, e) == map[]
  {
    var kv: Kv := map["route/1" := "a", "route/01" := "a"];
    var a: Assignment, e := map[1 := ["a"]], EventDelete("route/01");
    TwoSpellings();
    SplitLine("a", "");
    forall n: nat ensures ReadsAt(kv, a, n) && ReadsAt(Applied(kv, e), a, n) {
      assert "route/1" in kv && "route/1" in Applied(kv, e);
    }
  }

  lemma TwoSpellings()
    ensures Names("route/1", 1) && Names("route/01", 1)
  {
    assert Format(1) == "1";
    ParseRouteKeyInverts(1);
    assert RouteKey(1) == "route/1";
    var s := "route/01"[|ROUTE|..];
    assert s == "01" && s[..1] == "0" && s[..1][..0] == "";
    assert Value("0") == Some(0);
    assert Value(s) == Some(1);
  }
}
