/** The coordination store (control/store.go): keys, leases and bounded watch queues. */
module Store {
  const QUEUE_CAP: nat := 64

  datatype Event = EventPut(key: string, value: string) | EventDelete(key: string)

  datatype Watcher = Watcher(id: nat, prefix: string, queue: seq<Event>)

  datatype State = State(
    kv: map<string, string>,
    leaseOf: map<string, nat>,
    keysOf: map<nat, seq<string>>,
    nextLid: nat,
    watchers: seq<Watcher>)

  const Empty: State := State(map[], map[], map[], 1, [])

  // ----- watch queues

  /** A watcher with a full buffer drops the event. */
  function Offer(w: Watcher, e: Event): Watcher
  {
    if w.prefix <= e.key && |w.queue| < QUEUE_CAP then w.(queue := w.queue + [e]) else w
  }

  function Fan(ws: seq<Watcher>, e: Event): (r: seq<Watcher>)
    ensures |r| == |ws|
  {
    seq(|ws|, i requires 0 <= i < |ws| => Offer(ws[i], e))
  }

  // ----- leases

  ghost predicate Attached(s: State, k: string, l: nat)
  {
    l in s.keysOf && k in s.keysOf[l]
  }

  ghost predicate NoDuplicates(ks: seq<string>)
  {
    forall i, j :: 0 <= i < j < |ks| ==> ks[i] != ks[j]
  }

  /** keysOf and leaseOf are inverse to each other, over live keys only. */
  ghost predicate Inverse(s: State)
  {
    && s.leaseOf.Keys <= s.kv.Keys
    && (forall l :: l in s.keysOf ==> NoDuplicates(s.keysOf[l]))
    && (forall k, l :: Attached(s, k, l) <==> k in s.leaseOf && s.leaseOf[k] == l)
  }

  function Keys(keysOf: map<nat, seq<string>>, l: nat): seq<string>
  {
    if l in keysOf then keysOf[l] else []
  }

  function LeaseOf(leaseOf: map<string, nat>, k: string): nat
  {
    if k in leaseOf then leaseOf[k] else 0
  }

  function AppendUnique(ks: seq<string>, k: string): seq<string>
  {
    if k in ks then ks else ks + [k]
  }

  function RemoveFirst(ks: seq<string>, k: string): seq<string>
  {
    if ks == [] then [] else if ks[0] == k then ks[1..] else [ks[0]] + RemoveFirst(ks[1..], k)
  }

  function Detach(keysOf: map<nat, seq<string>>, l: nat, k: string): map<nat, seq<string>>
  {
    if k in Keys(keysOf, l) then keysOf[l := RemoveFirst(Keys(keysOf, l), k)] else keysOf
  }

  // ----- the operations

  function Attach(s: State, k: string, l: nat): State
  {
    if l == 0 then s
    else
      var keysOf := if k in s.leaseOf && s.leaseOf[k] != l then Detach(s.keysOf, s.leaseOf[k], k) else s.keysOf;
      s.(leaseOf := s.leaseOf[k := l], keysOf := keysOf[l := AppendUnique(Keys(keysOf, l), k)])
  }

  function Put(s: State, k: string, v: string, l: nat): State
  {
    Attach(s, k, l).(kv := s.kv[k := v], watchers := Fan(s.watchers, EventPut(k, v)))
  }

  function Del(s: State, k: string): State
  {
    if k !in s.kv then s
    else
      s.(kv := s.kv - {k},
         leaseOf := s.leaseOf - {k},
         keysOf := if k in s.leaseOf then Detach(s.keysOf, s.leaseOf[k], k) else s.keysOf,
         watchers := Fan(s.watchers, EventDelete(k)))
  }

  /** Deletes, in order, the keys still attached to lease l. */
  function DelAll(s: State, ks: seq<string>, l: nat): State
  {
    if ks == [] then s
    else
      var n := |ks| - 1;
      var s' := DelAll(s, ks[..n], l);
      if LeaseOf(s'.leaseOf, ks[n]) == l then Del(s', ks[n]) else s'
  }

  function Expire(s: State, l: nat): State
  {
    DelAll(s.(keysOf := s.keysOf - {l}), Keys(s.keysOf, l), l)
  }

  function Grant(s: State): State
  {
    s.(nextLid := s.nextLid + 1, keysOf := s.keysOf[s.nextLid := []])
  }

  /** The watcher's channel is closed and dropped. */
  function Drop(ws: seq<Watcher>, id: nat): seq<Watcher>
  {
    if ws == [] then [] else if ws[0].id == id then ws[1..] else [ws[0]] + Drop(ws[1..], id)
  }

  /** The watcher's client takes one event. */
  function Take(ws: seq<Watcher>, id: nat): (r: seq<Watcher>)
    ensures |r| == |ws|
  {
    seq(|ws|, i requires 0 <= i < |ws| =>
      if ws[i].id == id && ws[i].queue != [] then ws[i].(queue := ws[i].queue[1..]) else ws[i])
  }

  function List(s: State, prefix: string): map<string, string>
  {
    map k | k in s.kv && prefix <= k :: s.kv[k]
  }

  ghost predicate WatchersOk(ws: seq<Watcher>, next: nat)
  {
    && (forall i :: 0 <= i < |ws| ==> ws[i].id < next && |ws[i].queue| <= QUEUE_CAP)
    && (forall i, j :: 0 <= i < j < |ws| ==> ws[i].id != ws[j].id)
  }

  lemma DropKeepsOk(ws: seq<Watcher>, i: nat, next: nat)
    requires i < |ws| && WatchersOk(ws, next)
    ensures WatchersOk(ws[..i] + ws[i + 1..], next)
  {
    var r := ws[..i] + ws[i + 1..];
    assert forall j :: 0 <= j < |r| ==> r[j] == ws[if j < i then j else j + 1];
  }

  // ----- the class

  class MemStore {
    var kv: map<string, string>
    var leaseOf: map<string, nat>
    var keysOf: map<nat, seq<string>>
    var nextLid: nat
    var watchers: seq<Watcher>
    var nextWatcher: nat

    constructor ()
      ensures View() == Empty && nextWatcher == 0
    {
      kv, leaseOf, keysOf, nextLid, watchers, nextWatcher := map[], map[], map[], 1, [], 0;
    }

    function View(): State
      reads this
    {
      State(kv, leaseOf, keysOf, nextLid, watchers)
    }

    /** Watchers are told apart by identity, and only live keys are attached to a lease. */
    ghost predicate Valid()
      reads this
    {
      && WatchersOk(watchers, nextWatcher)
      && leaseOf.Keys <= kv.Keys
    }

    function Get(key: string): (r: (string, bool))
      reads this
      ensures r.1 <==> key in kv
      ensures r.1 ==> r.0 == kv[key]
    {
      if key in kv then (kv[key], true) else ("", false)
    }

    method PutKey(key: string, value: string, lease: nat)
      requires Valid()
      modifies this
      ensures Valid() && View() == Put(old(View()), key, value, lease)
      ensures kv == old(kv)[key := value] && nextLid == old(nextLid)
      ensures lease == 0 ==> leaseOf == old(leaseOf) && keysOf == old(keysOf)
      ensures lease != 0 ==> leaseOf == old(leaseOf)[key := lease] && lease in keysOf && key in keysOf[lease]
    {
      kv := kv[key := value];
      if lease != 0 {
        if key in leaseOf && leaseOf[key] != lease {
          DetachKey(leaseOf[key], key);
        }
        leaseOf := leaseOf[key := lease];
        keysOf := keysOf[lease := AppendUnique(Keys(keysOf, lease), key)];
      }
      FanOut(EventPut(key, value));
    }

    method Create(key: string, value: string, lease: nat) returns (ok: bool)
      requires Valid()
      modifies this
      ensures Valid() && (ok <==> key !in old(kv))
      ensures View() == if ok then Put(old(View()), key, value, lease) else old(View())
      ensures ok ==> kv == old(kv)[key := value]
    {
      if key in kv {
        return false;
      }
      kv := kv[key := value];
      if lease != 0 {
        leaseOf := leaseOf[key := lease];
        keysOf := keysOf[lease := AppendUnique(Keys(keysOf, lease), key)];
      }
      FanOut(EventPut(key, value));
      return true;
    }

    method Delete(key: string)
      requires Valid()
      modifies this
      ensures Valid() && View() == Del(old(View()), key)
      ensures kv == old(kv) - {key} && leaseOf == old(leaseOf) - {key} && nextLid == old(nextLid)
    {
      if key !in kv {
        return;
      }
      kv := kv - {key};
      if key in leaseOf {
        DetachKey(leaseOf[key], key);
        leaseOf := leaseOf - {key};
      }
      FanOut(EventDelete(key));
    }

    method DetachKey(lease: nat, key: string)
      modifies this`keysOf
      ensures keysOf == Detach(old(keysOf), lease, key)
    {
      var ks := Keys(keysOf, lease);
      for i := 0 to |ks|
        invariant key !in ks[..i]
        invariant keysOf == old(keysOf)
      {
        if ks[i] == key {
          keysOf := keysOf[lease := ks[..i] + ks[i + 1..]];
          RemoveFirstIs(ks, key, i);
          return;
        }
      }
      assert ks[..|ks|] == ks;
    }

    method FanOut(e: Event)
      requires Valid()
      modifies this`watchers
      ensures Valid() && watchers == Fan(old(watchers), e)
      ensures forall i :: 0 <= i < |watchers| ==> watchers[i].id == old(watchers)[i].id && watchers[i].prefix == old(watchers)[i].prefix
      ensures forall i :: 0 <= i < |watchers| ==>
                watchers[i].queue == old(watchers)[i].queue + if watchers[i].prefix <= e.key && |old(watchers)[i].queue| < QUEUE_CAP then [e] else []
    {
      for i := 0 to |watchers|
        invariant |watchers| == |old(watchers)|
        invariant forall j :: 0 <= j < i ==> watchers[j] == Offer(old(watchers)[j], e)
        invariant forall j :: i <= j < |watchers| ==> watchers[j] == old(watchers)[j]
      {
        var w := watchers[i];
        if w.prefix <= e.key && |w.queue| < QUEUE_CAP {
          watchers := watchers[i := w.(queue := w.queue + [e])];
        }
      }
    }

    /** Deletes the lease's keys, the path both Revoke and a lease timeout take. */
    method ExpireLease(lease: nat)
      requires Valid()
      modifies this
      ensures Valid() && View() == Expire(old(View()), lease)
    {
      var keys := Keys(keysOf, lease);
      keysOf := keysOf - {lease};
      ghost var start := View();
      for i := 0 to |keys|
        invariant Valid() && View() == DelAll(start, keys[..i], lease)
      {
        assert keys[..i + 1][..i] == keys[..i];
        if LeaseOf(leaseOf, keys[i]) == lease {
          Delete(keys[i]);
        }
      }
      assert keys[..|keys|] == keys;
    }

    method GrantLease() returns (id: nat)
      requires Valid()
      modifies this
      ensures Valid() && id == old(nextLid) && View() == Grant(old(View()))
      ensures nextLid == id + 1 && kv == old(kv) && leaseOf == old(leaseOf) && keysOf == old(keysOf)[id := []]
    {
      id := nextLid;
      nextLid := nextLid + 1;
      keysOf := keysOf[id := []];
    }

    method ListPrefix(prefix: string) returns (out: map<string, string>)
      ensures out == List(View(), prefix) && forall k :: k in out <==> k in kv && prefix <= k
      ensures forall k :: k in out ==> out[k] == kv[k]
    {
      out := map[];
      var rest := kv.Keys;
      while rest != {}
        invariant rest <= kv.Keys
        invariant out == map k | k in kv && k !in rest && prefix <= k :: kv[k]
      {
        var k :| k in rest;
        if prefix <= k {
          out := out[k := kv[k]];
        }
        rest := rest - {k};
      }
    }

    method Watch(prefix: string) returns (id: nat)
      requires Valid()
      modifies this
      ensures Valid() && id == old(nextWatcher)
      ensures View() == old(View()).(watchers := old(watchers) + [Watcher(id, prefix, [])])
    {
      id := nextWatcher;
      nextWatcher := nextWatcher + 1;
      watchers := watchers + [Watcher(id, prefix, [])];
    }

    method DropWatcher(id: nat)
      requires Valid()
      modifies this`watchers
      ensures Valid() && watchers == Drop(old(watchers), id)
    {
      for i := 0 to |watchers|
        invariant watchers == old(watchers)
        invariant forall j :: 0 <= j < i ==> watchers[j].id != id
      {
        if watchers[i].id == id {
          DropIs(watchers, id, i);
          DropKeepsOk(watchers, i, nextWatcher);
          watchers := watchers[..i] + watchers[i + 1..];
          return;
        }
      }
      DropNone(watchers, id);
    }

    /** A client receives from its channel, if there is something in it. */
    method Receive(id: nat) returns (e: Event, ok: bool)
      requires Valid()
      modifies this`watchers
      ensures Valid() && watchers == Take(old(watchers), id)
      ensures ok <==> exists i :: 0 <= i < |old(watchers)| && old(watchers)[i].id == id && old(watchers)[i].queue != []
      ensures ok ==> exists i :: 0 <= i < |old(watchers)| && old(watchers)[i].id == id && [e] <= old(watchers)[i].queue
    {
      e, ok := EventDelete(""), false;
      for i := 0 to |watchers|
        invariant watchers == old(watchers) && !ok
        invariant forall j :: 0 <= j < i ==> watchers[j].id != id || watchers[j].queue == []
      {
        var w := watchers[i];
        if w.id == id && w.queue != [] {
          e, ok := w.queue[0], true;
          watchers := watchers[i := w.(queue := w.queue[1..])];
          return;
        }
      }
    }
  }

  lemma {:induction false} DropIs(ws: seq<Watcher>, id: nat, i: nat)
    requires i < |ws| && ws[i].id == id && forall j :: 0 <= j < i ==> ws[j].id != id
    ensures Drop(ws, id) == ws[..i] + ws[i + 1..]
  {
    if i > 0 {
      DropIs(ws[1..], id, i - 1);
    }
  }

  lemma {:induction false} DropNone(ws: seq<Watcher>, id: nat)
    requires forall j :: 0 <= j < |ws| ==> ws[j].id != id
    ensures Drop(ws, id) == ws
  {
    if ws != [] {
      DropNone(ws[1..], id);
    }
  }

  lemma {:induction false} RemoveFirstIs(ks: seq<string>, k: string, i: nat)
    requires i < |ks| && ks[i] == k && k !in ks[..i]
    ensures RemoveFirst(ks, k) == ks[..i] + ks[i + 1..]
  {
    if i > 0 {
      assert ks[0] in ks[..i];
      assert forall x :: x in ks[1..][..i - 1] ==> x in ks[..i];
      RemoveFirstIs(ks[1..], k, i - 1);
    }
  }
}
