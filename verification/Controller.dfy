/** The controller's Run loop as a protocol interleaved with everyone else (control/placement.go). */
module Controller {
  import opened Options
  import opened Store
  import opened StoreRuns
  import opened Watching
  import opened RouteCodec
  import opened Routing
  import opened Rendezvous
  import opened Ranking
  import opened Placement

  /** Where the controller is: about to read the members, holding the members it read, writing the
      shards that differed, done before its watch exists, or waiting on its watch. */
  datatype Phase =
    | Waking
    | Read(members: set<string>)
    | Writing(members: set<string>, todo: set<nat>)
    | Unwatched
    | Idle

  /** `last` is the membership of the last finished reconcile. */
  datatype System = System(store: State, phase: Phase, last: set<string>, registered: bool)

  datatype Action = Env(op: Op) | Wake | ReadMembers | Compare(current: Assignment) | Write(shard: nat) | Finish | Register

  ghost function Queue(y: System, id: nat): seq<Event>
  {
    if Find(y.store.watchers, id).Some? then Find(y.store.watchers, id).value.queue else []
  }

  /** Other parties: they use node names that survive the encoding, and leave the controller's shards
      and its watch alone. */
  ghost predicate Others(c: Config, s: State, op: Op, id: nat)
  {
    && !Disturbs(op, id) && !(op.OpWatch? && op.id == id)
    && (forall i :: 0 <= i < |Events(s, op)| ==> EventOk(c, Events(s, op)[i]))
  }

  ghost predicate EventOk(c: Config, e: Event)
  {
    && (forall s: nat :: s < c.shards ==> !Names(e.key, s))
    && (e.EventPut? && NODE <= e.key ==> Name(e.key[|NODE|..]))
  }

  ghost predicate Enabled(c: Config, y: System, id: nat, a: Action)
  {
    match a
    case Env(op) => Others(c, y.store, op, id)
    case Wake => y.phase.Idle? && Queue(y, id) != []
    case ReadMembers => y.phase.Waking?
    case Compare(current) => y.phase.Read? && Reading(y.store.kv, current)
    case Write(s) => y.phase.Writing? && s in y.phase.todo
    case Finish => y.phase.Writing? && y.phase.todo == {}
    case Register => y.phase.Unwatched?
  }

  ghost function After(c: Config, y: System, id: nat, a: Action): System
    requires Enabled(c, y, id, a)
  {
    match a
    case Env(op) => y.(store := Next(y.store, op))
    case Wake => y.(store := Next(y.store, OpReceive(id)), phase := Waking)
    case ReadMembers => y.(phase := Read(MemberSet(y.store.kv)))
    case Compare(current) => y.(phase := Writing(y.phase.members, Diff(c, current, y.phase.members)))
    case Write(s) =>
      y.(store := Next(y.store, OpPut(RouteKey(s), EncodeNodes(Desired(c, y.phase.members, s)), 0)),
         phase := y.phase.(todo := y.phase.todo - {s}))
    case Finish => y.(phase := if y.registered then Idle else Unwatched, last := y.phase.members)
    case Register => y.(store := Next(y.store, OpWatch(id, NODE)), phase := Idle, registered := true)
  }

  // ----- the invariants

  ghost predicate StoreOk(c: Config, y: System, id: nat)
  {
    && (forall s: nat :: s < c.shards ==> Plain(y.store.kv, s)) && AllNames(MemberSet(y.store.kv))
    && (if y.registered then WatchOk(y.store.watchers, id) else Unused(y.store.watchers, id))
  }

  ghost predicate WatchOk(ws: seq<Watcher>, id: nat)
  {
    Find(ws, id).Some? && Find(ws, id).value.prefix == NODE && |Find(ws, id).value.queue| <= QUEUE_CAP
  }

  ghost predicate PhaseOk(c: Config, y: System)
  {
    match y.phase
    case Waking => y.registered ==> InSync(c, y.store.kv, y.last)
    case Read(ms) => AllNames(ms) && (y.registered ==> InSync(c, y.store.kv, y.last))
    case Writing(ms, todo) =>
      && AllNames(ms) && (forall s :: s in todo ==> s < c.shards)
      && forall s: nat :: s < c.shards && s !in todo ==> Says(y.store.kv, s, Desired(c, ms, s))
    case Unwatched => !y.registered && InSync(c, y.store.kv, y.last)
    case Idle => y.registered && InSync(c, y.store.kv, y.last)
  }

  /** The table is what the last finished reconcile called for, as far as it is not being rewritten. */
  ghost predicate Inv(c: Config, y: System, id: nat)
  {
    ConfigOk(c) && StoreOk(c, y, id) && PhaseOk(c, y)
  }

  /** The members the controller works with or has worked with last. */
  ghost function Seen(y: System): set<string>
  {
    match y.phase
    case Read(ms) => ms
    case Writing(ms, _) => ms
    case _ => y.last
  }

  /** The membership is the one the controller has seen, or it is about to look, or will be told to. */
  ghost predicate Fresh(y: System, id: nat)
  {
    y.registered && (y.phase.Waking? || MemberSet(y.store.kv) == Seen(y) || Queue(y, id) != [])
  }

  // ----- what others do

  lemma TableStays(c: Config, kv: Kv, e: Event, s: nat, nodes: seq<string>)
    requires EventOk(c, e) && s < c.shards
    ensures Says(Applied(kv, e), s, nodes) <==> Says(kv, s, nodes)
    ensures Plain(Applied(kv, e), s) <==> Plain(kv, s)
  {
    assert !Names(e.key, s);
    var kv' := Applied(kv, e);
    assert forall k :: Names(k, s) ==> (k in kv' <==> k in kv) && (k in kv ==> kv'[k] == kv[k]);
    assert Named(kv', s) <==> Named(kv, s);
  }

  lemma {:induction false} TableStaysAll(c: Config, kv: Kv, es: seq<Event>, s: nat, nodes: seq<string>)
    requires s < c.shards && forall i :: 0 <= i < |es| ==> EventOk(c, es[i])
    ensures Says(AppliedAll(kv, es), s, nodes) <==> Says(kv, s, nodes)
    ensures Plain(AppliedAll(kv, es), s) <==> Plain(kv, s)
  {
    if es != [] {
      var n := |es| - 1;
      TableStaysAll(c, kv, es[..n], s, nodes);
      TableStays(c, AppliedAll(kv, es[..n]), es[n], s, nodes);
    }
  }

  /** Only an event under the membership prefix changes the members. */
  lemma MembersChange(c: Config, kv: Kv, e: Event)
    requires EventOk(c, e) && AllNames(MemberSet(kv))
    ensures AllNames(MemberSet(Applied(kv, e)))
    ensures !(NODE <= e.key) ==> MemberSet(Applied(kv, e)) == MemberSet(kv)
  {
  }

  lemma {:induction false} MembersChangeAll(c: Config, kv: Kv, es: seq<Event>)
    requires forall i :: 0 <= i < |es| ==> EventOk(c, es[i])
    requires AllNames(MemberSet(kv))
    ensures AllNames(MemberSet(AppliedAll(kv, es)))
    ensures Matching(NODE, es) == [] ==> MemberSet(AppliedAll(kv, es)) == MemberSet(kv)
  {
    if es != [] {
      var n := |es| - 1;
      MembersChangeAll(c, kv, es[..n]);
      MembersChange(c, AppliedAll(kv, es[..n]), es[n]);
    }
  }

  /** A membership change leaves the controller's queue non-empty, even if it was full. */
  lemma OthersKeep(c: Config, y: System, id: nat, op: Op)
    requires StoreOk(c, y, id) && Others(c, y.store, op, id)
    ensures var y' := After(c, y, id, Env(op));
            && StoreOk(c, y', id)
            && (y.registered && Queue(y', id) == [] ==> Queue(y, id) == [] && MemberSet(y'.store.kv) == MemberSet(y.store.kv))
            && (forall s: nat, ns :: s < c.shards ==> (Says(y'.store.kv, s, ns) <==> Says(y.store.kv, s, ns)))
  {
    var es := Events(y.store, op);
    NextKv(y.store, op);
    MembersChangeAll(c, y.store.kv, es);
    forall s: nat, ns | s < c.shards ensures Says(AppliedAll(y.store.kv, es), s, ns) <==> Says(y.store.kv, s, ns) {
      TableStaysAll(c, y.store.kv, es, s, ns);
    }
    forall s: nat | s < c.shards ensures Plain(AppliedAll(y.store.kv, es), s) {
      TableStaysAll(c, y.store.kv, es, s, []);
    }
    if y.registered {
      NextQueue(y.store, op, id);
      QueueAfter(Find(y.store.watchers, id).value, es);
    } else {
      NextUnused(y.store, op, id);
      UnusedIsAbsent(y.store.watchers, id);
    }
  }

  lemma {:induction false} UnusedIsAbsent(ws: seq<Watcher>, id: nat)
    requires Unused(ws, id)
    ensures Find(ws, id) == None
  {
    if ws != [] { UnusedIsAbsent(ws[1..], id); }
  }

  // ----- what the controller does

  /** Writing a shard that is spelt in no other way settles it and touches no other shard. */
  lemma WriteSays(kv: Kv, s: nat, nodes: seq<string>)
    requires s < SHARDS && Plain(kv, s) && Survives(nodes)
    ensures var kv' := kv[RouteKey(s) := EncodeNodes(nodes)];
            && Says(kv', s, nodes) && Plain(kv', s) && MemberSet(kv') == MemberSet(kv)
            && (forall n: nat, ns :: n != s ==> (Says(kv', n, ns) <==> Says(kv, n, ns)))
            && (forall n: nat :: n != s ==> (Plain(kv', n) <==> Plain(kv, n)))
  {
    var kv' := kv[RouteKey(s) := EncodeNodes(nodes)];
    ParseRouteKeyInverts(s);
    NodesRoundTripIff(nodes);
    RouteIsNotNode(s);
    assert Names(RouteKey(s), s) && RouteKey(s) in kv';
    forall n: nat, ns | n != s ensures Says(kv', n, ns) <==> Says(kv, n, ns) {
      OtherShard(kv, s, EncodeNodes(nodes), n, ns);
    }
    forall n: nat | n != s ensures Plain(kv', n) <==> Plain(kv, n) {
      OtherShard(kv, s, EncodeNodes(nodes), n, []);
    }
  }

  lemma OtherShard(kv: Kv, s: nat, v: string, n: nat, nodes: seq<string>)
    requires s < SHARDS && n != s
    ensures var kv' := kv[RouteKey(s) := v];
            (Says(kv', n, nodes) <==> Says(kv, n, nodes)) && (Plain(kv', n) <==> Plain(kv, n))
  {
    var kv' := kv[RouteKey(s) := v];
    ParseRouteKeyInverts(s);
    forall k | Names(k, n) ensures (k in kv' <==> k in kv) && (k in kv ==> kv'[k] == kv[k]) {}
    assert Named(kv', n) <==> Named(kv, n);
  }

  lemma WriteKeepsWatch(y: System, id: nat, k: string, v: string)
    requires !(NODE <= k) && if y.registered then WatchOk(y.store.watchers, id) else Unused(y.store.watchers, id)
    ensures var y' := y.(store := Next(y.store, OpPut(k, v, 0)));
            && Queue(y', id) == Queue(y, id)
            && if y.registered then WatchOk(y'.store.watchers, id) else Unused(y'.store.watchers, id)
  {
    if y.registered {
      FindFan(y.store.watchers, id, EventPut(k, v));
    } else {
      NextUnused(y.store, OpPut(k, v, 0), id);
      UnusedIsAbsent(y.store.watchers, id);
      UnusedIsAbsent(Next(y.store, OpPut(k, v, 0)).watchers, id);
    }
  }

  lemma WriteKeeps(c: Config, y: System, id: nat, s: nat)
    requires Inv(c, y, id) && Enabled(c, y, id, Write(s))
    ensures var y' := After(c, y, id, Write(s));
            Inv(c, y', id) && Queue(y', id) == Queue(y, id) && MemberSet(y'.store.kv) == MemberSet(y.store.kv)
  {
    var ns := Desired(c, y.phase.members, s);
    DesiredRoundTrips(c, y.phase.members, s);
    NodesRoundTripIff(ns);
    WriteSays(y.store.kv, s, ns);
    RouteIsNotNode(s);
    WriteKeepsWatch(y, id, RouteKey(s), EncodeNodes(ns));
    var y' := After(c, y, id, Write(s));
    assert forall n: nat :: n < c.shards ==> Plain(y'.store.kv, n);
  }

  lemma WakeKeeps(c: Config, y: System, id: nat)
    requires StoreOk(c, y, id) && Enabled(c, y, id, Wake) && y.registered
    ensures StoreOk(c, After(c, y, id, Wake), id)
  {
    FindTake(y.store.watchers, id, id);
  }

  lemma RegisterKeeps(c: Config, y: System, id: nat)
    requires StoreOk(c, y, id) && Enabled(c, y, id, Register) && !y.registered
    ensures StoreOk(c, After(c, y, id, Register), id) && Queue(After(c, y, id, Register), id) == []
  {
    FindFresh(y.store.watchers, Watcher(id, NODE, []));
  }

  /** The shards outside the difference hold what is desired. */
  lemma CompareKeeps(c: Config, y: System, id: nat, current: Assignment)
    requires Inv(c, y, id) && Enabled(c, y, id, Compare(current))
    ensures Inv(c, After(c, y, id, Compare(current)), id)
  {
    var ms := y.phase.members;
    forall s: nat | s < c.shards && s !in Diff(c, current, ms) ensures Says(y.store.kv, s, Desired(c, ms, s)) {
      assert ReadsAt(y.store.kv, current, s) && Plain(y.store.kv, s);
    }
  }

  lemma OthersKeepInv(c: Config, y: System, id: nat, op: Op)
    requires Inv(c, y, id) && Enabled(c, y, id, Env(op))
    ensures Inv(c, After(c, y, id, Env(op)), id)
  {
    OthersKeep(c, y, id, op);
  }

  /** Steps that write nothing. */
  lemma QuietKeeps(c: Config, y: System, id: nat, a: Action)
    requires Inv(c, y, id) && Enabled(c, y, id, a) && (a.Wake? || a.Register? || a.ReadMembers? || a.Finish?)
    ensures Inv(c, After(c, y, id, a), id)
  {
    if a.Wake? {
      WakeKeeps(c, y, id);
    } else if a.Register? {
      RegisterKeeps(c, y, id);
    } else {
      assert After(c, y, id, a).store == y.store;
    }
  }

  /** Every step of the controller and of everyone else keeps the invariant. */
  lemma StepKeepsInv(c: Config, y: System, id: nat, a: Action)
    requires Inv(c, y, id) && Enabled(c, y, id, a)
    ensures Inv(c, After(c, y, id, a), id)
  {
    match a
    case Env(op) => OthersKeepInv(c, y, id, op);
    case Write(s) => WriteKeeps(c, y, id, s);
    case Compare(current) => CompareKeeps(c, y, id, current);
    case _ => QuietKeeps(c, y, id, a);
  }

  /** Once the watch exists no membership change escapes the controller, however many events are
      dropped. */
  lemma StepKeepsFresh(c: Config, y: System, id: nat, a: Action)
    requires Inv(c, y, id) && Enabled(c, y, id, a) && Fresh(y, id)
    ensures Fresh(After(c, y, id, a), id)
  {
    match a
    case Env(op) => OthersKeep(c, y, id, op);
    case Write(s) => WriteKeeps(c, y, id, s);
    case _ =>
  }

  // ----- whole runs

  ghost predicate IsRun(c: Config, id: nat, run: seq<System>)
  {
    && run != []
    && forall i :: 0 < i < |run| ==> StepAt(c, id, run, i)
  }

  ghost predicate StepAt(c: Config, id: nat, run: seq<System>, i: nat)
    requires 0 < i < |run|
  {
    Step(c, id, run[i - 1], run[i])
  }

  ghost predicate Step(c: Config, id: nat, y: System, y': System)
  {
    exists a :: Enabled(c, y, id, a) && y' == After(c, y, id, a)
  }

  /** The controller starts on a store where its watch id is unused. */
  ghost predicate Starts(c: Config, y: System, id: nat)
  {
    ConfigOk(c) && StoreOk(c, y, id) && y.phase == Waking && !y.registered
  }

  lemma Steps(c: Config, id: nat, y: System, y': System)
    requires Inv(c, y, id) && Step(c, id, y, y')
    ensures Inv(c, y', id)
    ensures Fresh(y, id) ==> Fresh(y', id)
    ensures y.registered ==> y'.registered
  {
    var a :| Enabled(c, y, id, a) && y' == After(c, y, id, a);
    StepKeepsInv(c, y, id, a);
    if Fresh(y, id) { StepKeepsFresh(c, y, id, a); }
  }

  lemma Waits(c: Config, id: nat, y: System, y': System)
    requires Inv(c, y, id) && Step(c, id, y, y') && y.phase.Idle? && !y'.phase.Waking?
    ensures y'.phase.Idle? && y'.last == y.last
    ensures Queue(y', id) == [] ==> Queue(y, id) == [] && MemberSet(y'.store.kv) == MemberSet(y.store.kv)
  {
    var a :| Enabled(c, y, id, a) && y' == After(c, y, id, a);
    OthersKeep(c, y, id, a.op);
  }

  lemma BeginsToWait(c: Config, id: nat, y: System, y': System)
    requires Step(c, id, y, y') && !y.registered && y'.registered
    ensures y'.phase.Idle? && y'.last == y.last && y'.store.kv == y.store.kv
  {
  }

  /** Every state of a run satisfies the invariant. */
  lemma {:induction false} RunKeepsInv(c: Config, id: nat, run: seq<System>, i: nat)
    requires IsRun(c, id, run) && Starts(c, run[0], id) && i < |run|
    ensures Inv(c, run[i], id)
    decreases i
  {
    if i > 0 {
      RunKeepsInv(c, id, run, i - 1);
      assert StepAt(c, id, run, i);
      Steps(c, id, run[i - 1], run[i]);
    }
  }

  /** Both memberships place every shard alike. */
  ghost predicate SameTarget(c: Config, ms: set<string>, ns: set<string>)
  {
    forall s: nat :: s < c.shards ==> Desired(c, ms, s) == Desired(c, ns, s)
  }

  lemma InSyncWithBoth(c: Config, kv: Kv, ms: set<string>, ns: set<string>)
    requires InSync(c, kv, ms)
    ensures InSync(c, kv, ns) <==> SameTarget(c, ms, ns)
  {
    forall s: nat | s < c.shards ensures Says(kv, s, Desired(c, ns, s)) <==> Desired(c, ms, s) == Desired(c, ns, s) {
      assert Says(kv, s, Desired(c, ms, s));
    }
  }

  /** In every waiting state of every run, the table is right exactly if the current members place the
      shards as those of the last reconcile did. */
  lemma IdleInSyncIff(c: Config, id: nat, run: seq<System>, i: nat)
    requires IsRun(c, id, run) && Starts(c, run[0], id) && i < |run| && run[i].phase.Idle?
    ensures var y := run[i];
            InSync(c, y.store.kv, MemberSet(y.store.kv)) <==> SameTarget(c, y.last, MemberSet(y.store.kv))
  {
    RunKeepsInv(c, id, run, i);
    InSyncWithBoth(c, run[i].store.kv, run[i].last, MemberSet(run[i].store.kv));
  }

  /** The step at r registers the watch. */
  ghost predicate Registers(run: seq<System>, r: nat)
  {
    r + 1 < |run| && !run[r].registered && run[r + 1].registered
  }

  /** A waiting controller has registered its watch. */
  lemma {:induction false} RegisteredBefore(c: Config, id: nat, run: seq<System>, i: nat)
    requires IsRun(c, id, run) && Starts(c, run[0], id) && i < |run| && run[i].registered
    ensures exists r: nat :: r < i && Registers(run, r)
    decreases i
  {
    if run[i - 1].registered {
      RegisteredBefore(c, id, run, i - 1);
    } else {
      assert Registers(run, i - 1);
    }
  }

  lemma {:induction false} StaysFresh(c: Config, id: nat, run: seq<System>, j: nat, i: nat)
    requires IsRun(c, id, run) && Starts(c, run[0], id) && j <= i < |run| && Fresh(run[j], id)
    ensures Fresh(run[i], id)
    decreases i
  {
    if j < i {
      StaysFresh(c, id, run, j, i - 1);
      RunKeepsInv(c, id, run, i - 1);
      assert StepAt(c, id, run, i);
      Steps(c, id, run[i - 1], run[i]);
    }
  }

  lemma {:induction false} StaysRegistered(c: Config, id: nat, run: seq<System>, j: nat, i: nat)
    requires IsRun(c, id, run) && Starts(c, run[0], id) && j <= i < |run| && run[j].registered
    ensures run[i].registered
    decreases i
  {
    if j < i {
      StaysRegistered(c, id, run, j, i - 1);
      RunKeepsInv(c, id, run, i - 1);
      assert StepAt(c, id, run, i);
      Steps(c, id, run[i - 1], run[i]);
    }
  }

  /** The controller was woken after the step at r. */
  ghost predicate Woken(run: seq<System>, r: nat, i: nat)
    requires i < |run|
  {
    exists j :: r < j <= i && run[j].phase.Waking?
  }

  /** Until it is first woken the controller waits, and the members are those at registration or it is
      about to be woken. */
  lemma {:induction false} WaitsSince(c: Config, id: nat, run: seq<System>, r: nat, i: nat)
    requires IsRun(c, id, run) && Starts(c, run[0], id) && Registers(run, r) && r < i < |run| && !Woken(run, r, i)
    ensures run[i].phase.Idle? && run[i].last == run[r].last
    ensures MemberSet(run[i].store.kv) == MemberSet(run[r].store.kv) || Queue(run[i], id) != []
    decreases i
  {
    assert StepAt(c, id, run, i);
    if i > r + 1 {
      assert forall j :: r < j <= i - 1 && run[j].phase.Waking? ==> r < j <= i;
      WaitsSince(c, id, run, r, i - 1);
      RunKeepsInv(c, id, run, i - 1);
      assert !run[i].phase.Waking?;
      Waits(c, id, run[i - 1], run[i]);
    } else {
      BeginsToWait(c, id, run[r], run[i]);
    }
  }

  lemma SeesAllOnceWoken(c: Config, id: nat, run: seq<System>, r: nat, j: nat, i: nat)
    requires IsRun(c, id, run) && Starts(c, run[0], id) && Registers(run, r) && r < j <= i < |run| && run[j].phase.Waking?
    requires run[i].phase.Idle? && Queue(run[i], id) == []
    ensures MemberSet(run[i].store.kv) == run[i].last
  {
    StaysRegistered(c, id, run, r + 1, j);
    StaysFresh(c, id, run, j, i);
  }

  /** When the controller waits on an empty queue, the table is what the current members call for if and
      only if it was woken since it registered its watch, or the members at that moment place the
      shards as those it had read before; however the steps were interleaved and events dropped. */
  lemma QuiescentIff(c: Config, id: nat, run: seq<System>, i: nat)
    requires IsRun(c, id, run) && Starts(c, run[0], id) && i < |run| && run[i].phase.Idle? && Queue(run[i], id) == []
    ensures exists r: nat ::
              && r < i && Registers(run, r)
              && (InSync(c, run[i].store.kv, MemberSet(run[i].store.kv)) <==>
                    Woken(run, r, i) || SameTarget(c, run[r].last, MemberSet(run[r].store.kv)))
  {
    RunKeepsInv(c, id, run, i);
    RegisteredBefore(c, id, run, i);
    var r: nat :| r < i && Registers(run, r);
    QuiescentSince(c, id, run, r, i);
  }

  lemma QuiescentSince(c: Config, id: nat, run: seq<System>, r: nat, i: nat)
    requires IsRun(c, id, run) && Starts(c, run[0], id) && Registers(run, r) && r < i < |run|
    requires run[i].phase.Idle? && Queue(run[i], id) == []
    ensures InSync(c, run[i].store.kv, MemberSet(run[i].store.kv)) <==>
              Woken(run, r, i) || SameTarget(c, run[r].last, MemberSet(run[r].store.kv))
  {
    IdleInSyncIff(c, id, run, i);
    if Woken(run, r, i) {
      var j :| r < j <= i && run[j].phase.Waking?;
      SeesAllOnceWoken(c, id, run, r, j, i);
    } else {
      WaitsSince(c, id, run, r, i);
    }
  }

  // ----- the window before the watch

  lemma OneNode(c: Config, kv: Kv)
    requires c.shards == 1 && c.replicas == 1 && kv == map["node/a" := "a"]
    ensures MemberSet(kv) == {"a"} && Desired(c, {"a"}, 0) == ["a"] && Desired(c, {}, 0) == []
    ensures Reading(kv, map[]) && Diff(c, map[], {"a"}) == {0} && Plain(kv, 0)
  {
    assert "node/a"[|NODE|..] == "a";
    assert MemberSet(kv) == {"a"};
    HeavierTotal(c.weight, 0);
    assert {"a"} - {"a"} == {};
    assert Rank({"a"}, Heavier(c.weight, 0)) == ["a"];
    assert ROUTE[0] != "node/a"[0];
    assert forall n: nat :: !Named(kv, n);
    assert 0 in Diff(c, map[], {"a"});
  }

  lemma NoNode(kv: Kv)
    requires kv == map[RouteKey(0) := "a"]
    ensures MemberSet(kv) == {} && !Says(kv, 0, [])
  {
    RouteIsNotNode(0);
    ParseRouteKeyInverts(0);
    assert Names(RouteKey(0), 0) && RouteKey(0) in kv;
    SplitLine("a", "");
  }

  /** The store once shard 0 is published for node a and the node is gone. */
  lemma AfterLoss(s0: State)
    requires s0 == State(map["node/a" := "a"], map[], map[], 1, [])
    ensures var s := Next(Next(s0, OpPut(RouteKey(0), "a", 0)), OpDelete("node/a"));
            s.kv == map[RouteKey(0) := "a"] && s.watchers == []
  {
    RouteIsNotNode(0);
    assert RouteKey(0) != "node/a";
    assert s0.kv[RouteKey(0) := "a"] - {"node/a"} == map[RouteKey(0) := "a"];
  }

  ghost function At(s: State, phase: Phase, last: set<string>): System
  {
    System(s, phase, last, false)
  }

  lemma StartsWithOneNode(c: Config, id: nat, s0: State)
    requires c.shards == 1 && c.replicas == 1
    requires s0 == State(map["node/a" := "a"], map[], map[], 1, [])
    ensures Starts(c, At(s0, Waking, {}), id)
  {
    OneNode(c, s0.kv);
  }

  lemma FirstReconcile(c: Config, id: nat, s0: State)
    requires c.shards == 1 && c.replicas == 1
    requires s0 == State(map["node/a" := "a"], map[], map[], 1, [])
    ensures Step(c, id, At(s0, Waking, {}), At(s0, Read({"a"}), {}))
    ensures Step(c, id, At(s0, Read({"a"}), {}), At(s0, Writing({"a"}, {0}), {}))
    ensures var s1 := Next(s0, OpPut(RouteKey(0), "a", 0));
            && Step(c, id, At(s0, Writing({"a"}, {0}), {}), At(s1, Writing({"a"}, {}), {}))
            && Step(c, id, At(s1, Writing({"a"}, {}), {}), At(s1, Unwatched, {"a"}))
  {
    OneNode(c, s0.kv);
    var s1 := Next(s0, OpPut(RouteKey(0), "a", 0));
    var y0, y1, y2 := At(s0, Waking, {}), At(s0, Read({"a"}), {}), At(s0, Writing({"a"}, {0}), {});
    var y3, y4 := At(s1, Writing({"a"}, {}), {}), At(s1, Unwatched, {"a"});
    assert Enabled(c, y0, id, ReadMembers) && y1 == After(c, y0, id, ReadMembers);
    assert Enabled(c, y1, id, Compare(map[])) && y2 == After(c, y1, id, Compare(map[]));
    assert Enabled(c, y2, id, Write(0)) && y3 == After(c, y2, id, Write(0)) by {
      assert {0} - {0} == {};
      assert EncodeNodes(["a"]) == "a";
    }
    assert Enabled(c, y3, id, Finish) && y4 == After(c, y3, id, Finish);
  }

  lemma LossAndWatch(c: Config, id: nat, s1: State) returns (y5: System, y6: System)
    requires c.shards == 1 && c.replicas == 1 && s1.kv["node/a" := "a"] == s1.kv && s1.watchers == []
    requires s1.kv - {"node/a"} == map[RouteKey(0) := "a"]
    ensures Step(c, id, At(s1, Unwatched, {"a"}), y5) && Step(c, id, y5, y6)
    ensures y6.phase.Idle? && Queue(y6, id) == [] && !InSync(c, y6.store.kv, MemberSet(y6.store.kv))
  {
    var y4, lose := At(s1, Unwatched, {"a"}), Env(OpDelete("node/a"));
    assert ROUTE[0] != "node/a"[0];
    assert Enabled(c, y4, id, lose);
    y5 := After(c, y4, id, lose);
    assert Enabled(c, y5, id, Register);
    y6 := After(c, y5, id, Register);
    FindFresh([], Watcher(id, NODE, []));
    NoNode(y6.store.kv);
    OneNode(c, map["node/a" := "a"]);
    assert !Says(y6.store.kv, 0, Desired(c, {}, 0));
  }

  /** The controller reconciles before it registers its watch. A node lost in between is not noticed:
      the run ends waiting on an empty queue with a table that names the lost node. */
  lemma WindowLosesChange(c: Config, id: nat, s0: State)
    requires c.shards == 1 && c.replicas == 1
    requires s0 == State(map["node/a" := "a"], map[], map[], 1, [])
    ensures exists run: seq<System> ::
              && IsRun(c, id, run) && Starts(c, run[0], id) && run[0].store == s0
              && run[|run| - 1].phase.Idle? && Queue(run[|run| - 1], id) == []
              && !InSync(c, run[|run| - 1].store.kv, MemberSet(run[|run| - 1].store.kv))
  {
    StartsWithOneNode(c, id, s0);
    AfterLoss(s0);
    FirstReconcile(c, id, s0);
    var s1 := Next(s0, OpPut(RouteKey(0), "a", 0));
    var y5, y6 := LossAndWatch(c, id, s1);
    var run := [At(s0, Waking, {})];
    assert IsRun(c, id, run);
    run := RunMore(c, id, run, At(s0, Read({"a"}), {}));
    run := RunMore(c, id, run, At(s0, Writing({"a"}, {0}), {}));
    run := RunMore(c, id, run, At(s1, Writing({"a"}, {}), {}));
    run := RunMore(c, id, run, At(s1, Unwatched, {"a"}));
    run := RunMore(c, id, run, y5);
    run := RunMore(c, id, run, y6);
  }

  lemma RunMore(c: Config, id: nat, run: seq<System>, y: System) returns (run': seq<System>)
    requires IsRun(c, id, run) && Step(c, id, run[|run| - 1], y)
    ensures IsRun(c, id, run') && run'[0] == run[0] && run'[|run'| - 1] == y
  {
    run' := run + [y];
    forall i | 0 < i < |run'| ensures StepAt(c, id, run', i) {
      if i < |run| { assert StepAt(c, id, run, i); }
    }
  }
}
