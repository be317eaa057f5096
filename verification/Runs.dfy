/** Listings grouped by name, newest stamp first within a name. */
module Runs {

  datatype Stamped<Q> = Stamped(name: Q, ts: int)

  /** Equal names are adjacent and their stamps fall. */
  ghost predicate Grouped<Q>(vs: seq<Stamped<Q>>)
  {
    && (forall i, j :: 0 <= i < j < |vs| && vs[i].name == vs[j].name ==> vs[i].ts > vs[j].ts)
    && (forall i, j, k :: 0 <= i < j < k < |vs| && vs[i].name == vs[k].name ==> vs[j].name == vs[k].name)
  }

  ghost predicate Continues<Q>(vs: seq<Stamped<Q>>, i: nat)
    requires i < |vs|
  {
    i > 0 && vs[i - 1].name == vs[i].name
  }

  /** How many entries of its name are listed up to i. */
  ghost function RunLength<Q>(vs: seq<Stamped<Q>>, i: nat): (r: nat)
    requires i < |vs|
    ensures r > 0
  {
    if Continues(vs, i) then RunLength(vs, i - 1) + 1 else 1
  }

  ghost function NewerThan<Q>(vs: seq<Stamped<Q>>, name: Q, ts: int): set<int>
  {
    set j | 0 <= j < |vs| && vs[j].name == name && vs[j].ts > ts :: vs[j].ts
  }

  lemma NewerInRun<Q>(vs: seq<Stamped<Q>>, i: nat)
    requires Grouped(vs) && i < |vs|
    ensures NewerThan(vs, vs[i].name, vs[i].ts) ==
            if Continues(vs, i) then NewerThan(vs, vs[i].name, vs[i - 1].ts) + {vs[i - 1].ts} else {}
  {
  }

  lemma NewerCount<Q>(vs: seq<Stamped<Q>>, i: nat)
    requires Grouped(vs) && i < |vs|
    ensures |NewerThan(vs, vs[i].name, vs[i].ts)| ==
            if Continues(vs, i) then |NewerThan(vs, vs[i - 1].name, vs[i - 1].ts)| + 1 else 0
  {
    NewerInRun(vs, i);
    if Continues(vs, i) {
      assert vs[i - 1].ts !in NewerThan(vs, vs[i].name, vs[i - 1].ts);
    }
  }

  lemma {:induction false} RunCounts<Q>(vs: seq<Stamped<Q>>, i: nat)
    requires Grouped(vs) && i < |vs|
    ensures |NewerThan(vs, vs[i].name, vs[i].ts)| == RunLength(vs, i) - 1
    decreases i
  {
    NewerCount(vs, i);
    if Continues(vs, i) {
      RunCounts(vs, i - 1);
    }
  }

  /** The keys, in order, of the first n entries with more than `keep` of their name up to them. */
  ghost function Surplus<Q, K>(vs: seq<Stamped<Q>>, keys: seq<K>, n: nat, keep: nat): seq<K>
    requires n <= |vs| == |keys|
  {
    if n == 0 then []
    else if RunLength(vs, n - 1) > keep then Surplus(vs, keys, n - 1, keep) + [keys[n - 1]]
    else Surplus(vs, keys, n - 1, keep)
  }

  lemma {:induction false} SurplusAre<Q, K>(vs: seq<Stamped<Q>>, keys: seq<K>, n: nat, keep: nat, k: K)
    requires n <= |vs| == |keys|
    ensures k in Surplus(vs, keys, n, keep) <==> exists j :: 0 <= j < n && keys[j] == k && RunLength(vs, j) > keep
  {
    if n > 0 {
      SurplusAre(vs, keys, n - 1, keep, k);
    }
  }

  /** With distinct keys, an entry is surplus exactly when `keep` entries of its name are newer. */
  lemma SurplusIff<Q, K>(vs: seq<Stamped<Q>>, keys: seq<K>, keep: nat, j: nat)
    requires Grouped(vs) && |vs| == |keys| && j < |vs| && forall a, b :: 0 <= a < b < |keys| ==> keys[a] != keys[b]
    ensures keys[j] in Surplus(vs, keys, |vs|, keep) <==> |NewerThan(vs, vs[j].name, vs[j].ts)| >= keep
  {
    SurplusAre(vs, keys, |vs|, keep, keys[j]);
    RunCounts(vs, j);
  }
}
