/** Store operations as events, and what reaches a bounded watch queue (control/store.go). */
module Watching {
  import opened Options
  import opened Store
  import opened StoreRuns

  function Find(ws: seq<Watcher>, id: nat): Option<Watcher>
  {
    if ws == [] then None else if ws[0].id == id then Some(ws[0]) else Find(ws[1..], id)
  }

  function Deletes(ks: seq<string>): (es: seq<Event>)
    ensures |es| == |ks|
  {
    seq(|ks|, i requires 0 <= i < |ks| => EventDelete(ks[i]))
  }

  /** The keys DelAll deletes, in order: those still present and under the lease when their turn comes. */
  function Expired(s: State, ks: seq<string>, l: nat): seq<string>
  {
    if ks == [] then []
    else
      var n := |ks| - 1;
      var s' := DelAll(s, ks[..n], l);
      Expired(s, ks[..n], l) + if LeaseOf(s'.leaseOf, ks[n]) == l && ks[n] in s'.kv then [ks[n]] else []
  }

  function ExpiredBy(s: State, l: nat): seq<string>
  {
    Expired(s.(keysOf := s.keysOf - {l}), Keys(s.keysOf, l), l)
  }

  /** The events an operation emits, in order. */
  function Events(s: State, op: Op): seq<Event>
  {
    match op
    case OpPut(k, v, _) => [EventPut(k, v)]
    case OpCreate(k, v, _) => if k in s.kv then [] else [EventPut(k, v)]
    case OpDelete(k) => if k in s.kv then [EventDelete(k)] else []
    case OpExpire(l) => Deletes(ExpiredBy(s, l))
    case _ => []
  }

  function Applied(kv: map<string, string>, e: Event): map<string, string>
  {
    match e
    case EventPut(k, v) => kv[k := v]
    case EventDelete(k) => kv - {k}
  }

  function AppliedAll(kv: map<string, string>, es: seq<Event>): map<string, string>
  {
    if es == [] then kv else Applied(AppliedAll(kv, es[..|es| - 1]), es[|es| - 1])
  }

  function OfferAll(w: Watcher, es: seq<Event>): Watcher
  {
    if es == [] then w else Offer(OfferAll(w, es[..|es| - 1]), es[|es| - 1])
  }

  function Matching(prefix: string, es: seq<Event>): seq<Event>
  {
    if es == [] then []
    else
      var n := |es| - 1;
      Matching(prefix, es[..n]) + if prefix <= es[n].key then [es[n]] else []
  }

  /** What a queue holds after events arrive: those that fit. */
  lemma {:induction false} QueueAfter(w: Watcher, es: seq<Event>)
    requires |w.queue| <= QUEUE_CAP
    ensures var all := w.queue + Matching(w.prefix, es);
            OfferAll(w, es) == w.(queue := if |all| <= QUEUE_CAP then all else all[..QUEUE_CAP])
  {
    if es != [] {
      QueueAfter(w, es[..|es| - 1]);
    }
  }

  // ----- one watcher among many

  lemma {:induction false} FindFan(ws: seq<Watcher>, id: nat, e: Event)
    requires Find(ws, id).Some?
    ensures Find(Fan(ws, e), id) == Some(Offer(Find(ws, id).value, e))
  {
    if ws[0].id != id {
      FindFan(ws[1..], id, e);
      assert Fan(ws, e)[1..] == Fan(ws[1..], e);
    }
  }

  lemma {:induction false} FindFanDeletes(ws: seq<Watcher>, id: nat, ks: seq<string>)
    requires Find(ws, id).Some?
    ensures Find(FanDeletes(ws, ks), id) == Some(OfferAll(Find(ws, id).value, Deletes(ks)))
  {
    if ks != [] {
      var n := |ks| - 1;
      FindFanDeletes(ws, id, ks[..n]);
      assert Deletes(ks)[..n] == Deletes(ks[..n]);
      FindFan(FanDeletes(ws, ks[..n]), id, EventDelete(ks[n]));
    }
  }

  lemma {:induction false} FindAppend(ws: seq<Watcher>, id: nat, w: Watcher)
    requires Find(ws, id).Some?
    ensures Find(ws + [w], id) == Find(ws, id)
  {
    if ws[0].id != id {
      assert (ws + [w])[1..] == ws[1..] + [w];
      FindAppend(ws[1..], id, w);
    }
  }

  lemma {:induction false} FindDrop(ws: seq<Watcher>, id: nat, other: nat)
    requires other != id
    ensures Find(Drop(ws, other), id) == Find(ws, id)
  {
    if ws != [] {
      FindDrop(ws[1..], id, other);
    }
  }

  lemma {:induction false} FindTake(ws: seq<Watcher>, id: nat, other: nat)
    requires Find(ws, id).Some?
    ensures other != id ==> Find(Take(ws, other), id) == Find(ws, id)
    ensures other == id && Find(ws, id).value.queue != [] ==>
              Find(Take(ws, id), id) == Some(Find(ws, id).value.(queue := Find(ws, id).value.queue[1..]))
  {
    if ws[0].id != id {
      FindTake(ws[1..], id, other);
      assert Take(ws, other)[1..] == Take(ws[1..], other);
    }
  }

  // ----- an operation is its events

  lemma DeletesSnoc(ks: seq<string>, k: string)
    ensures Deletes(ks + [k])[..|ks|] == Deletes(ks) && Deletes(ks + [k])[|ks|] == EventDelete(k)
  {
  }

  /** What DelAll does to the keys and to the watchers is what its deletions do. */
  lemma {:induction false} DelAllIsDeletes(s: State, ks: seq<string>, l: nat)
    ensures DelAll(s, ks, l).kv == AppliedAll(s.kv, Deletes(Expired(s, ks, l)))
    ensures DelAll(s, ks, l).watchers == FanDeletes(s.watchers, Expired(s, ks, l))
  {
    if ks != [] {
      var n := |ks| - 1;
      DelAllIsDeletes(s, ks[..n], l);
      var gone := Expired(s, ks[..n], l);
      DeletesSnoc(gone, ks[n]);
      assert (gone + [ks[n]])[..|gone|] == gone;
      assert gone + [] == gone;
    }
  }

  lemma OneEvent(kv: map<string, string>, w: Watcher, e: Event)
    ensures AppliedAll(kv, [e]) == Applied(kv, e) && OfferAll(w, [e]) == Offer(w, e)
  {
    assert [e][..0] == [];
  }

  ghost predicate Disturbs(op: Op, id: nat)
  {
    op == OpDrop(id) || op == OpReceive(id)
  }

  /** The key space is the fold of the operation's events. */
  lemma NextKv(s: State, op: Op)
    ensures Next(s, op).kv == AppliedAll(s.kv, Events(s, op))
  {
    var w := Watcher(0, "", []);
    match op
    case OpPut(k, v, _) => OneEvent(s.kv, w, EventPut(k, v));
    case OpCreate(k, v, _) => OneEvent(s.kv, w, EventPut(k, v));
    case OpDelete(k) => OneEvent(s.kv, w, EventDelete(k));
    case OpExpire(l) =>
      DelAllIsDeletes(s.(keysOf := s.keysOf - {l}), Keys(s.keysOf, l), l);
    case _ =>
  }

  /** A watcher is offered exactly the operation's events. */
  lemma NextQueue(s: State, op: Op, id: nat)
    requires Find(s.watchers, id).Some? && !Disturbs(op, id)
    ensures Find(Next(s, op).watchers, id) == Some(OfferAll(Find(s.watchers, id).value, Events(s, op)))
  {
    var w := Find(s.watchers, id).value;
    match op
    case OpPut(k, v, _) => OneEvent(s.kv, w, EventPut(k, v)); FindFan(s.watchers, id, EventPut(k, v));
    case OpCreate(k, v, _) => OneEvent(s.kv, w, EventPut(k, v)); FindFan(s.watchers, id, EventPut(k, v));
    case OpDelete(k) => OneEvent(s.kv, w, EventDelete(k)); FindFan(s.watchers, id, EventDelete(k));
    case OpExpire(l) =>
      DelAllIsDeletes(s.(keysOf := s.keysOf - {l}), Keys(s.keysOf, l), l);
      FindFanDeletes(s.watchers, id, ExpiredBy(s, l));
    case OpGrant =>
    case OpWatch(other, p) => FindAppend(s.watchers, id, Watcher(other, p, []));
    case OpDrop(other) => FindDrop(s.watchers, id, other);
    case OpReceive(other) => FindTake(s.watchers, id, other);
  }

  ghost predicate Unused(ws: seq<Watcher>, id: nat)
  {
    forall i :: 0 <= i < |ws| ==> ws[i].id != id
  }

  lemma {:induction false} FindFresh(ws: seq<Watcher>, w: Watcher)
    requires Unused(ws, w.id)
    ensures Find(ws + [w], w.id) == Some(w)
  {
    if ws != [] {
      assert (ws + [w])[1..] == ws[1..] + [w];
      FindFresh(ws[1..], w);
    }
  }

  lemma {:induction false} FanDeletesUnused(ws: seq<Watcher>, ks: seq<string>, id: nat)
    requires Unused(ws, id)
    ensures Unused(FanDeletes(ws, ks), id)
  {
    if ks != [] { FanDeletesUnused(ws, ks[..|ks| - 1], id); }
  }

  lemma {:induction false} DropUnused(ws: seq<Watcher>, other: nat, id: nat)
    requires Unused(ws, id)
    ensures Unused(Drop(ws, other), id)
  {
    if ws != [] { DropUnused(ws[1..], other, id); }
  }

  lemma NextUnused(s: State, op: Op, id: nat)
    requires Unused(s.watchers, id) && !(op.OpWatch? && op.id == id)
    ensures Unused(Next(s, op).watchers, id)
  {
    match op
    case OpExpire(l) =>
      DelAllIsDeletes(s.(keysOf := s.keysOf - {l}), Keys(s.keysOf, l), l);
      FanDeletesUnused(s.watchers, ExpiredBy(s, l), id);
    case OpDrop(other) => DropUnused(s.watchers, other, id);
    case _ =>
  }
}
