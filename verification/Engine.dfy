/** The ordered in-memory engine (storage/memengine.go, storage/engine.go). */
module Engine {
  import opened Lexical
  import opened Options
  import opened OrderedBytes

  type Kv = map<Bytes, Bytes>

  datatype Entry = Entry(key: Bytes, value: Bytes)

  ghost predicate Ascending(es: seq<Entry>)
  {
    forall i, j :: 0 <= i < j < |es| ==> Lex(es[i].key, es[j].key)
  }

  /** es lists exactly kv. */
  ghost predicate Lists(es: seq<Entry>, kv: Kv)
  {
    && (forall i :: 0 <= i < |es| ==> es[i].key in kv && kv[es[i].key] == es[i].value)
    && (forall k :: k in kv ==> exists i :: 0 <= i < |es| && es[i].key == k)
  }

  ghost predicate InRange(k: Bytes, start: Bytes, end: Option<Bytes>)
  {
    !Lex(k, start) && (end.Some? ==> Lex(k, end.value))
  }

  /** es lists exactly the part of kv in a range, in order. */
  ghost predicate ListsRange(es: seq<Entry>, kv: Kv, start: Bytes, end: Option<Bytes>)
  {
    && Ascending(es)
    && (forall i :: 0 <= i < |es| ==> es[i].key in kv && kv[es[i].key] == es[i].value && InRange(es[i].key, start, end))
    && (forall k :: k in kv && InRange(k, start, end) ==> exists i :: 0 <= i < |es| && es[i].key == k)
  }

  /** i is where key is or belongs. */
  ghost predicate IsPlace(es: seq<Entry>, key: Bytes, i: nat)
  {
    && i <= |es|
    && (forall j :: 0 <= j < i ==> Lex(es[j].key, key))
    && (forall j :: i <= j < |es| ==> !Lex(es[j].key, key))
  }

  lemma AscendingAfter(es: seq<Entry>, key: Bytes, m: nat)
    requires Ascending(es) && m < |es|
    ensures Lex(es[m].key, key) ==> forall j :: 0 <= j <= m ==> Lex(es[j].key, key)
    ensures !Lex(es[m].key, key) ==> forall j :: m <= j < |es| ==> !Lex(es[j].key, key)
  {
    forall j | 0 <= j < m && Lex(es[m].key, key) ensures Lex(es[j].key, key) {
      LexTransitive(es[j].key, es[m].key, key);
    }
    forall j | m < j < |es| && !Lex(es[m].key, key) ensures !Lex(es[j].key, key) {
      if Lex(es[j].key, key) { LexTransitive(es[m].key, es[j].key, key); }
    }
  }

  method Search(es: seq<Entry>, key: Bytes) returns (i: nat, found: bool)
    requires Ascending(es)
    ensures IsPlace(es, key, i) && (found <==> i < |es| && es[i].key == key)
    ensures found <==> exists j :: 0 <= j < |es| && es[j].key == key
  {
    i := 0;
    var hi := |es|;
    while i < hi
      invariant 0 <= i <= hi <= |es|
      invariant forall j :: 0 <= j < i ==> Lex(es[j].key, key)
      invariant forall j :: hi <= j < |es| ==> !Lex(es[j].key, key)
    {
      var m := (i + hi) / 2;
      AscendingAfter(es, key, m);
      if !Lex(es[m].key, key) {
        hi := m;
      } else {
        i := m + 1;
      }
    }
    found := i < |es| && es[i].key == key;
    OnlyPlace(es, key, i);
  }

  lemma OnlyPlace(es: seq<Entry>, key: Bytes, i: nat)
    requires Ascending(es) && IsPlace(es, key, i)
    ensures forall j :: 0 <= j < |es| && es[j].key == key ==> j == i
  {
    LexIrreflexive(key);
    assert forall j :: i < j < |es| ==> Lex(es[i].key, es[j].key);
  }

  function InsertAt(es: seq<Entry>, i: nat, e: Entry): (r: seq<Entry>)
    requires i <= |es|
    ensures |r| == |es| + 1
  {
    seq(|es| + 1, j requires 0 <= j < |es| + 1 => if j < i then es[j] else if j == i then e else es[j - 1])
  }

  function RemoveAt(es: seq<Entry>, i: nat): (r: seq<Entry>)
    requires i < |es|
    ensures |r| == |es| - 1
  {
    seq(|es| - 1, j requires 0 <= j < |es| - 1 => if j < i then es[j] else es[j + 1])
  }

  lemma InsertKeeps(es: seq<Entry>, kv: Kv, i: nat, e: Entry)
    requires Ascending(es) && Lists(es, kv) && IsPlace(es, e.key, i) && (i < |es| ==> es[i].key != e.key)
    ensures Ascending(InsertAt(es, i, e)) && Lists(InsertAt(es, i, e), kv[e.key := e.value])
  {
    InsertAscends(es, i, e);
    OnlyPlace(es, e.key, i);
    InsertLists(es, kv, i, e);
  }

  lemma InsertLists(es: seq<Entry>, kv: Kv, i: nat, e: Entry)
    requires Lists(es, kv) && i <= |es| && forall j :: 0 <= j < |es| ==> es[j].key != e.key
    ensures Lists(InsertAt(es, i, e), kv[e.key := e.value])
  {
    var r, kv' := InsertAt(es, i, e), kv[e.key := e.value];
    InsertCovers(es, kv, i, e);
    forall j | 0 <= j < |r| ensures r[j].key in kv' && kv'[r[j].key] == r[j].value {
      if j != i { assert r[j] == es[if j < i then j else j - 1]; }
    }
  }

  lemma InsertCovers(es: seq<Entry>, kv: Kv, i: nat, e: Entry)
    requires Lists(es, kv) && i <= |es|
    ensures var r, kv' := InsertAt(es, i, e), kv[e.key := e.value];
            forall k :: k in kv' ==> exists j :: 0 <= j < |r| && r[j].key == k
  {
    var r, kv' := InsertAt(es, i, e), kv[e.key := e.value];
    forall k | k in kv' ensures exists j :: 0 <= j < |r| && r[j].key == k {
      if k == e.key {
        assert r[i].key == k;
      } else {
        var j :| 0 <= j < |es| && es[j].key == k;
        assert r[if j < i then j else j + 1].key == k;
      }
    }
  }

  lemma InsertAscends(es: seq<Entry>, i: nat, e: Entry)
    requires Ascending(es) && IsPlace(es, e.key, i) && (i < |es| ==> es[i].key != e.key)
    ensures Ascending(InsertAt(es, i, e))
  {
    OnlyPlace(es, e.key, i);
    forall j | i <= j < |es| ensures Lex(e.key, es[j].key) {
      LexConnected(e.key, es[j].key);
    }
    var r := InsertAt(es, i, e);
    forall a, b | 0 <= a < b < |r| ensures Lex(r[a].key, r[b].key) {
      assert r[a] == (if a < i then es[a] else if a == i then e else es[a - 1]);
      assert r[b] == (if b < i then es[b] else if b == i then e else es[b - 1]);
    }
  }

  lemma ReplaceKeeps(es: seq<Entry>, kv: Kv, i: nat, e: Entry)
    requires Ascending(es) && Lists(es, kv) && i < |es| && es[i].key == e.key
    ensures Ascending(es[i := e]) && Lists(es[i := e], kv[e.key := e.value])
  {
    KeysApart(es, i);
    var r, kv' := es[i := e], kv[e.key := e.value];
    forall k | k in kv' ensures exists j :: 0 <= j < |r| && r[j].key == k {
      if k == e.key {
        assert r[i].key == k;
      } else {
        var j :| 0 <= j < |es| && es[j].key == k;
        assert r[j].key == k;
      }
    }
  }

  lemma RemoveKeeps(es: seq<Entry>, kv: Kv, i: nat)
    requires Ascending(es) && Lists(es, kv) && i < |es|
    ensures Ascending(RemoveAt(es, i)) && Lists(RemoveAt(es, i), kv - {es[i].key})
  {
    KeysApart(es, i);
    RemoveLists(es, kv, i);
    RemoveAscends(es, i);
  }

  lemma RemoveAscends(es: seq<Entry>, i: nat)
    requires Ascending(es) && i < |es|
    ensures Ascending(RemoveAt(es, i))
  {
    var r := RemoveAt(es, i);
    forall a, b | 0 <= a < b < |r| ensures Lex(r[a].key, r[b].key) {
      assert r[a] == es[if a < i then a else a + 1] && r[b] == es[if b < i then b else b + 1];
    }
  }

  lemma RemoveLists(es: seq<Entry>, kv: Kv, i: nat)
    requires Lists(es, kv) && i < |es| && forall j :: 0 <= j < |es| && j != i ==> es[j].key != es[i].key
    ensures Lists(RemoveAt(es, i), kv - {es[i].key})
  {
    var r, key := RemoveAt(es, i), es[i].key;
    forall k | k in kv - {key} ensures exists j :: 0 <= j < |r| && r[j].key == k {
      var j :| 0 <= j < |es| && es[j].key == k;
      assert r[if j < i then j else j - 1].key == k;
    }
    forall j | 0 <= j < |r| ensures r[j].key in kv - {key} && (kv - {key})[r[j].key] == r[j].value {
      assert r[j] == es[if j < i then j else j + 1];
    }
  }

  lemma KeysApart(es: seq<Entry>, i: nat)
    requires Ascending(es) && i < |es|
    ensures forall j :: 0 <= j < |es| && j != i ==> es[j].key != es[i].key
  {
    forall j | 0 <= j < |es| && j != i ensures es[j].key != es[i].key {
      LexIrreflexive(es[i].key);
      if j < i { assert Lex(es[j].key, es[i].key); } else { assert Lex(es[i].key, es[j].key); }
    }
  }

  // ----- batches

  datatype Op = OpSet(key: Bytes, value: Bytes) | OpDelete(key: Bytes)

  function Applied(kv: Kv, o: Op): Kv
  {
    if o.OpSet? then kv[o.key := o.value] else kv - {o.key}
  }

  function AppliedAll(kv: Kv, ops: seq<Op>): Kv
  {
    if ops == [] then kv else Applied(AppliedAll(kv, ops[..|ops| - 1]), ops[|ops| - 1])
  }

  lemma {:induction false} BatchSpares(kv: Kv, ops: seq<Op>, k: Bytes)
    requires forall i :: 0 <= i < |ops| ==> ops[i].key != k
    ensures k in AppliedAll(kv, ops) <==> k in kv
    ensures k in kv ==> AppliedAll(kv, ops)[k] == kv[k]
  {
    if ops != [] { BatchSpares(kv, ops[..|ops| - 1], k); }
  }

  /** In a batch the last operation on a key decides. */
  lemma {:induction false} BatchAt(kv: Kv, ops: seq<Op>, i: nat)
    requires i < |ops| && forall j :: i < j < |ops| ==> ops[j].key != ops[i].key
    ensures ops[i].key in AppliedAll(kv, ops) <==> ops[i].OpSet?
    ensures ops[i].OpSet? ==> AppliedAll(kv, ops)[ops[i].key] == ops[i].value
    decreases |ops|
  {
    if i < |ops| - 1 { BatchAt(kv, ops[..|ops| - 1], i); }
  }

  class MemEngine {
    var entries: seq<Entry>
    ghost var kv: Kv

    constructor ()
      ensures Valid() && kv == map[]
    {
      entries, kv := [], map[];
    }

    ghost predicate Valid()
      reads this
    {
      Ascending(entries) && Lists(entries, kv)
    }

    method Get(key: Bytes) returns (value: Bytes, ok: bool)
      requires Valid()
      ensures ok <==> key in kv
      ensures ok ==> value == kv[key]
    {
      var i, found := Search(entries, key);
      if found {
        return entries[i].value, true;
      }
      return [], false;
    }

    method Set(key: Bytes, value: Bytes)
      requires Valid()
      modifies this
      ensures Valid() && kv == old(kv)[key := value]
    {
      var i, found := Search(entries, key);
      if found {
        ReplaceKeeps(entries, kv, i, Entry(key, value));
        entries := entries[i := Entry(key, value)];
      } else {
        InsertKeeps(entries, kv, i, Entry(key, value));
        entries := InsertAt(entries, i, Entry(key, value));
      }
      kv := kv[key := value];
    }

    method Delete(key: Bytes)
      requires Valid()
      modifies this
      ensures Valid() && kv == old(kv) - {key}
    {
      var i, found := Search(entries, key);
      if found {
        RemoveKeeps(entries, kv, i);
        entries := RemoveAt(entries, i);
      }
      kv := kv - {key};
    }

    /** The whole batch lands at once. */
    method Apply(ops: seq<Op>)
      requires Valid()
      modifies this
      ensures Valid() && kv == AppliedAll(old(kv), ops)
    {
      for i := 0 to |ops|
        invariant Valid() && kv == AppliedAll(old(kv), ops[..i])
      {
        assert ops[..i + 1][..i] == ops[..i];
        if ops[i].OpDelete? {
          Delete(ops[i].key);
        } else {
          Set(ops[i].key, ops[i].value);
        }
      }
      assert ops[..|ops|] == ops;
    }

    /** The entries with start <= key < end, in order. The source panics on a range that runs backwards
        over a key. */
    method Scan(start: Bytes, end: Option<Bytes>) returns (out: seq<Entry>)
      requires Valid() && !Backwards(kv, start, end)
      ensures ListsRange(out, kv, start, end)
    {
      var lo, _ := Search(entries, start);
      var hi := |entries|;
      if end.Some? {
        var h, _ := Search(entries, end.value);
        hi := h;
        PlacesCrossIff(entries, kv, start, lo, end.value, hi);
      }
      out := entries[lo..hi];
      RangeListed(entries, kv, start, end, lo, hi);
    }
  }

  /** Some key lies at or after the end and before the start. */
  ghost predicate Backwards(kv: Kv, start: Bytes, end: Option<Bytes>)
  {
    end.Some? && exists k :: k in kv && !Lex(k, end.value) && Lex(k, start)
  }

  /** The slice would have a negative length exactly if the range runs backwards over a key. */
  lemma PlacesCrossIff(es: seq<Entry>, kv: Kv, a: Bytes, i: nat, b: Bytes, j: nat)
    requires Lists(es, kv) && IsPlace(es, a, i) && IsPlace(es, b, j)
    ensures j < i <==> Backwards(kv, a, Some(b))
  {
    if j < i {
      assert es[j].key in kv && !Lex(es[j].key, b) && Lex(es[j].key, a);
    }
  }

  lemma ForwardsIsFine(kv: Kv, start: Bytes, end: Option<Bytes>)
    requires end.Some? ==> !Lex(end.value, start)
    ensures !Backwards(kv, start, end)
  {
    if end.Some? {
      forall k | Lex(k, start) ensures Lex(k, end.value) {
        if k != end.value && !Lex(k, end.value) {
          LexConnected(k, end.value);
          LexTransitive(end.value, k, start);
        }
      }
    }
  }

  lemma RangeListed(es: seq<Entry>, kv: Kv, start: Bytes, end: Option<Bytes>, lo: nat, hi: nat)
    requires Ascending(es) && Lists(es, kv) && IsPlace(es, start, lo) && lo <= hi <= |es|
    requires if end.Some? then IsPlace(es, end.value, hi) else hi == |es|
    ensures ListsRange(es[lo..hi], kv, start, end)
  {
    var out := es[lo..hi];
    forall k | k in kv && InRange(k, start, end) ensures exists i :: 0 <= i < |out| && out[i].key == k {
      var j :| 0 <= j < |es| && es[j].key == k;
      assert lo <= j < hi && out[j - lo] == es[j];
    }
  }
}
