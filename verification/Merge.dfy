/** The k-way merge of ranked shard responses (serve/merge.go). */
module Merge {
  import opened Heaps
  import opened Sorting

  /** What results are ordered by: score, then document. */
  datatype Key = Key(score: real, segment: nat, local: nat)

  datatype Result = Result(key: Key, url: string)

  predicate Ahead(a: Key, b: Key)
  {
    if a.score != b.score then a.score > b.score
    else if a.segment != b.segment then a.segment < b.segment
    else a.local < b.local
  }

  function Keys(rs: seq<Result>): (ks: seq<Key>)
    ensures |ks| == |rs|
  {
    seq(|rs|, i requires 0 <= i < |rs| => rs[i].key)
  }

  ghost predicate Ranked(rs: seq<Result>)
  {
    InOrder(Keys(rs), Ahead)
  }

  // ----- the best k of a collection of keys, as a multiset

  ghost function Min(a: nat, b: nat): nat
  {
    if a < b then a else b
  }

  ghost predicate IsTop(t: multiset<Key>, all: multiset<Key>, k: nat)
  {
    && t <= all && |t| == Min(k, |all|)
    && forall x, y :: x in t && y in all - t ==> !Ahead(y, x)
  }

  /** out is the first k keys of the sorted collection. */
  ghost predicate IsFirst(out: seq<Key>, all: multiset<Key>, k: nat)
  {
    InOrder(out, Ahead) && IsTop(multiset(out), all, k)
  }

  ghost function Total(ms: seq<multiset<Key>>): multiset<Key>
  {
    if ms == [] then multiset{} else Total(ms[..|ms| - 1]) + ms[|ms| - 1]
  }

  lemma Regroup(a: multiset<Key>, b: multiset<Key>, c: multiset<Key>)
    ensures a + b + c == a + c + b == b + (a + c) && a + b + c == a + (b + c)
  {
  }

  // ----- what is left in the heap

  datatype Cursor = Cursor(shard: nat, pos: nat, results: seq<Result>)

  function Head(c: Cursor): Key
  {
    if c.pos < |c.results| then c.results[c.pos].key else Key(0.0, 0, 0)
  }

  predicate Less(a: Cursor, b: Cursor)
  {
    Ahead(Head(a), Head(b))
  }

  lemma LessIsWeakOrder()
    ensures WeakOrder(Less)
  {
  }

  ghost function Rest(c: Cursor): multiset<Key>
  {
    if c.pos <= |c.results| then multiset(Keys(c.results[c.pos..])) else multiset{}
  }

  ghost function RestAll(h: seq<Cursor>): multiset<Key>
  {
    if h == [] then multiset{} else RestAll(h[..|h| - 1]) + Rest(h[|h| - 1])
  }

  ghost function Cut(h: seq<Cursor>, i: nat): seq<Cursor>
    requires i < |h|
  {
    h[..i] + h[i + 1..]
  }

  lemma CutSnoc(h: seq<Cursor>, i: nat, c: Cursor)
    requires i <= |h|
    ensures i < |h| ==> Cut(h + [c], i) == Cut(h, i) + [c]
    ensures i == |h| ==> Cut(h + [c], i) == h
  {
  }

  lemma RestSnoc(h: seq<Cursor>, c: Cursor)
    ensures RestAll(h + [c]) == RestAll(h) + Rest(c)
  {
    assert (h + [c])[..|h|] == h;
  }

  lemma {:induction false} RestRemove(h: seq<Cursor>, i: nat)
    requires i < |h|
    ensures RestAll(h) == RestAll(Cut(h, i)) + Rest(h[i])
    decreases |h|
  {
    var n := |h| - 1;
    assert h == h[..n] + [h[n]];
    RestSnoc(h[..n], h[n]);
    CutSnoc(h[..n], i, h[n]);
    if i < n {
      RestRemove(h[..n], i);
      RestSnoc(Cut(h[..n], i), h[n]);
      Regroup(RestAll(Cut(h[..n], i)), Rest(h[i]), Rest(h[n]));
    }
  }

  lemma DropAt(b: seq<Cursor>, i: nat)
    requires i < |b|
    ensures multiset(Cut(b, i)) == multiset(b) - multiset{b[i]}
  {
    assert b == b[..i] + [b[i]] + b[i + 1..];
  }

  lemma {:induction false} RestPermutes(a: seq<Cursor>, b: seq<Cursor>)
    requires multiset(a) == multiset(b)
    ensures RestAll(a) == RestAll(b)
    decreases |a|
  {
    assert |multiset(a)| == |multiset(b)|;
    if a != [] {
      var n := |a| - 1;
      DropAt(a, n);
      RestRemove(a, n);
      assert a[n] in multiset(b);
      var i :| 0 <= i < |b| && b[i] == a[n];
      DropAt(b, i);
      RestPermutes(Cut(a, n), Cut(b, i));
      RestRemove(b, i);
    }
  }

  lemma RestPush(h: seq<Cursor>, h': seq<Cursor>, c: Cursor)
    requires multiset(h') == multiset(h) + multiset{c}
    ensures RestAll(h') == RestAll(h) + Rest(c)
  {
    assert (h + [c])[..|h|] == h;
    RestPermutes(h', h + [c]);
  }

  lemma RestHead(c: Cursor)
    requires c.pos < |c.results|
    ensures Rest(c) == multiset{Head(c)} + Rest(c.(pos := c.pos + 1))
  {
    assert Keys(c.results[c.pos..]) == [Head(c)] + Keys(c.results[c.pos + 1..]);
  }

  lemma {:induction false} RestMember(h: seq<Cursor>, y: Key) returns (i: nat, j: nat)
    requires y in RestAll(h)
    ensures i < |h| && h[i].pos <= j < |h[i].results| && h[i].results[j].key == y
    decreases |h|
  {
    var n := |h| - 1;
    if y in Rest(h[n]) {
      i := n;
      var rest := h[n].results[h[n].pos..];
      assert y in Keys(rest);
      var m :| 0 <= m < |rest| && Keys(rest)[m] == y;
      j := h[n].pos + m;
    } else {
      i, j := RestMember(h[..n], y);
    }
  }

  /** Cursors stand on a result of a ranked list. */
  ghost predicate CursorsOk(h: multiset<Cursor>, ranked: bool)
  {
    forall c :: c in h ==> c.pos < |c.results| && (ranked ==> Ranked(c.results))
  }

  /** The popped cursor's head is not behind anything left. */
  lemma PoppedIsBest(h: seq<Cursor>, c: Cursor, y: Key)
    requires CursorsOk(multiset(h), true) && c in multiset(h) && (forall d :: d in multiset(h) ==> !Less(d, c)) && y in RestAll(h)
    ensures !Ahead(y, Head(c))
  {
    var i, j := RestMember(h, y);
    var d := h[i];
    assert d in multiset(h);
    assert !Ahead(Head(d), Head(c));
    RankedFrom(d.results, d.pos, j);
  }

  lemma RankedFrom(rs: seq<Result>, p: nat, j: nat)
    requires Ranked(rs) && p <= j < |rs|
    ensures !Ahead(rs[j].key, rs[p].key)
  {
    if p < j { assert !Ahead(Keys(rs)[j], Keys(rs)[p]); }
  }

  // ----- the merge

  ghost function AllKeys(shards: seq<seq<Result>>): multiset<Key>
  {
    if shards == [] then multiset{} else AllKeys(shards[..|shards| - 1]) + multiset(Keys(shards[|shards| - 1]))
  }

  ghost predicate AllRanked(shards: seq<seq<Result>>)
  {
    forall i :: 0 <= i < |shards| ==> Ranked(shards[i])
  }

  /** Every cursor walks its shard's list. */
  ghost predicate Walks(h: multiset<Cursor>, shards: seq<seq<Result>>)
  {
    forall c :: c in h ==> c.shard < |shards| && c.results == shards[c.shard]
  }

  ghost predicate FromShards(out: seq<Result>, shards: seq<seq<Result>>)
  {
    forall i {:trigger InSome(shards, out[i])} :: 0 <= i < |out| ==> InSome(shards, out[i])
  }

  ghost predicate InSome(shards: seq<seq<Result>>, r: Result)
  {
    exists s :: 0 <= s < |shards| && r in shards[s]
  }

  /** out holds what was popped, in order and not behind anything left. */
  ghost predicate Merging(out: seq<Result>, h: seq<Cursor>, all: multiset<Key>, ranked: bool)
  {
    && IsHeap(h, Less) && CursorsOk(multiset(h), ranked)
    && multiset(Keys(out)) + RestAll(h) == all
    && (ranked ==> Ranked(out) && forall x, y :: x in multiset(Keys(out)) && y in RestAll(h) ==> !Ahead(y, x))
  }

  method StartMerge(shards: seq<seq<Result>>) returns (h: seq<Cursor>)
    ensures Merging([], h, AllKeys(shards), AllRanked(shards)) && Walks(multiset(h), shards)
  {
    h := [];
    for s := 0 to |shards|
      invariant Walks(multiset(h), shards)
      invariant IsHeap(h, Less) && CursorsOk(multiset(h), AllRanked(shards)) && RestAll(h) == AllKeys(shards[..s])
    {
      assert shards[..s + 1][..s] == shards[..s];
      h := PushShard(h, s, shards[s], AllRanked(shards));
    }
    assert shards[..|shards|] == shards;
  }

  method PushShard(h: seq<Cursor>, s: nat, rs: seq<Result>, ghost ranked: bool) returns (h': seq<Cursor>)
    requires IsHeap(h, Less) && CursorsOk(multiset(h), ranked) && (ranked ==> Ranked(rs))
    ensures IsHeap(h', Less) && CursorsOk(multiset(h'), ranked) && RestAll(h') == RestAll(h) + multiset(Keys(rs))
    ensures forall c :: c in multiset(h') ==> c in multiset(h) || (c.shard == s && c.results == rs)
  {
    h' := h;
    if |rs| > 0 {
      LessIsWeakOrder();
      var c := Cursor(s, 0, rs);
      h' := Push(h, c, Less);
      RestPush(h, h', c);
      assert rs[0..] == rs;
    }
  }

  /** Moves the best head to the output. */
  method MergeOne(out: seq<Result>, h: seq<Cursor>, ghost all: multiset<Key>, ghost ranked: bool)
    returns (out': seq<Result>, h': seq<Cursor>)
    requires Merging(out, h, all, ranked) && |h| > 0
    ensures Merging(out', h', all, ranked) && |out'| == |out| + 1
    ensures exists c :: c in multiset(h) && c.pos < |c.results| && out' == out + [c.results[c.pos]]
    ensures forall d :: d in multiset(h') ==> exists c :: c in multiset(h) && c.shard == d.shard && c.results == d.results
  {
    LessIsWeakOrder();
    var top, rest := Pop(h, Less);
    assert top in multiset(h);
    out' := out + [top.results[top.pos]];
    RestPush(rest, h, top);
    RestHead(top);
    h' := rest;
    var next := top.(pos := top.pos + 1);
    if top.pos + 1 < |top.results| {
      h' := Push(rest, next, Less);
      RestPush(rest, h', next);
    }
    MergedOne(out, h, rest, top, out', h', all, ranked);
    SameOrigins(h, rest, top, h');
  }

  lemma SameOrigins(h: seq<Cursor>, rest: seq<Cursor>, top: Cursor, h': seq<Cursor>)
    requires multiset(rest) + multiset{top} == multiset(h)
    requires h' == rest || multiset(h') == multiset(rest) + multiset{top.(pos := top.pos + 1)}
    ensures forall d :: d in multiset(h') ==> exists c :: c in multiset(h) && c.shard == d.shard && c.results == d.results
  {
    forall d | d in multiset(h') ensures exists c :: c in multiset(h) && c.shard == d.shard && c.results == d.results {
      if d in multiset(rest) { assert d in multiset(h); } else { assert top in multiset(h); }
    }
  }

  lemma MergedOne(out: seq<Result>, h: seq<Cursor>, rest: seq<Cursor>, top: Cursor, out': seq<Result>, h': seq<Cursor>,
                  all: multiset<Key>, ranked: bool)
    requires Merging(out, h, all, ranked) && top in multiset(h) && (forall d :: d in multiset(h) ==> !Less(d, top))
    requires multiset(rest) + multiset{top} == multiset(h) && top.pos < |top.results| && out' == out + [top.results[top.pos]]
    requires RestAll(h) == RestAll(rest) + Rest(top) && Rest(top) == multiset{Head(top)} + Rest(top.(pos := top.pos + 1))
    requires IsHeap(h', Less)
    requires top.pos + 1 < |top.results| ==>
               && multiset(h') == multiset(rest) + multiset{top.(pos := top.pos + 1)}
               && RestAll(h') == RestAll(rest) + Rest(top.(pos := top.pos + 1))
    requires top.pos + 1 >= |top.results| ==> h' == rest
    ensures Merging(out', h', all, ranked)
  {
    KeysMore(out, top.results[top.pos]);
    RestNone(top.(pos := top.pos + 1));
    RestAfter(RestAll(rest), Head(top), Rest(top), Rest(top.(pos := top.pos + 1)), multiset(Keys(out)));
    CursorsAfter(h, rest, top, h', ranked);
    if ranked {
      OrderedAfter(out, h, top, out', h');
    }
  }

  lemma RestAfter(rest: multiset<Key>, x: Key, was: multiset<Key>, now: multiset<Key>, out: multiset<Key>)
    requires was == multiset{x} + now
    ensures rest + was == multiset{x} + (rest + now)
    ensures out + (rest + was) == (out + multiset{x}) + (rest + now)
    ensures now == multiset{} ==> rest + now == rest
  {
  }

  lemma CursorsAfter(h: seq<Cursor>, rest: seq<Cursor>, top: Cursor, h': seq<Cursor>, ranked: bool)
    requires CursorsOk(multiset(h), ranked) && top in multiset(h) && multiset(rest) + multiset{top} == multiset(h)
    requires top.pos + 1 < |top.results| ==> multiset(h') == multiset(rest) + multiset{top.(pos := top.pos + 1)}
    requires top.pos + 1 >= |top.results| ==> h' == rest
    ensures CursorsOk(multiset(h'), ranked)
  {
    forall c | c in multiset(h') ensures c in multiset(h) || (c == top.(pos := top.pos + 1) && c.pos < |c.results|) {
    }
  }

  lemma KeysMore(out: seq<Result>, x: Result)
    ensures Keys(out + [x]) == Keys(out) + [x.key]
    ensures multiset(Keys(out + [x])) == multiset(Keys(out)) + multiset{x.key}
  {
    assert Keys(out + [x]) == Keys(out) + [x.key];
  }

  lemma RestNone(c: Cursor)
    ensures c.pos >= |c.results| ==> Rest(c) == multiset{}
  {
  }

  lemma OrderedAfter(out: seq<Result>, h: seq<Cursor>, top: Cursor, out': seq<Result>, h': seq<Cursor>)
    requires CursorsOk(multiset(h), true) && top in multiset(h) && (forall d :: d in multiset(h) ==> !Less(d, top))
    requires Ranked(out) && forall x, y :: x in multiset(Keys(out)) && y in RestAll(h) ==> !Ahead(y, x)
    requires Keys(out') == Keys(out) + [Head(top)] && RestAll(h) == multiset{Head(top)} + RestAll(h')
    ensures Ranked(out') && forall x, y :: x in multiset(Keys(out')) && y in RestAll(h') ==> !Ahead(y, x)
  {
    var x0 := Head(top);
    assert x0 in RestAll(h);
    forall y | y in RestAll(h') ensures y in RestAll(h) && !Ahead(y, x0) {
      PoppedIsBest(h, top, y);
    }
    RankedMore(out, x0, out');
    assert multiset(Keys(out')) == multiset(Keys(out)) + multiset{x0};
  }

  lemma RankedMore(out: seq<Result>, x: Key, out': seq<Result>)
    requires Ranked(out) && Keys(out') == Keys(out) + [x] && forall z :: z in multiset(Keys(out)) ==> !Ahead(x, z)
    ensures Ranked(out')
  {
    forall i | 0 <= i < |out| ensures !Ahead(x, Keys(out)[i]) {
      assert Keys(out)[i] in multiset(Keys(out));
    }
  }

  method MergeTopK(shards: seq<seq<Result>>, k: int) returns (out: seq<Result>)
    ensures FromShards(out, shards)
    ensures multiset(Keys(out)) <= AllKeys(shards) && |out| == if k <= 0 then 0 else Min(k, |AllKeys(shards)|)
    ensures AllRanked(shards) && k > 0 ==> IsFirst(Keys(out), AllKeys(shards), k)
    ensures AllRanked(shards) ==> forall i, j :: 0 <= i < j < |out| ==> NotBehind(out[i].key, out[j].key)
    ensures AllRanked(shards) ==> forall i, y :: 0 <= i < |out| && y in AllKeys(shards) - multiset(Keys(out)) ==> NotBehind(out[i].key, y)
  {
    out := [];
    if k <= 0 {
      return;
    }
    var h := StartMerge(shards);
    while |h| > 0 && |out| < k
      invariant Merging(out, h, AllKeys(shards), AllRanked(shards)) && |out| <= k
      invariant FromShards(out, shards) && Walks(multiset(h), shards)
      decreases k - |out|
    {
      ghost var was, heap := out, h;
      out, h := MergeOne(out, h, AllKeys(shards), AllRanked(shards));
      StillFromShards(was, out, heap, h, shards);
    }
    MergeDone(out, h, AllKeys(shards), AllRanked(shards), k);
    if AllRanked(shards) { FirstMeans(out, AllKeys(shards), k); }
  }

  /** A larger score, or the same score and a document that is not later. */
  ghost predicate NotBehind(a: Key, b: Key)
  {
    a.score > b.score || (a.score == b.score && (a.segment < b.segment || (a.segment == b.segment && a.local <= b.local)))
  }

  lemma FirstMeans(out: seq<Result>, all: multiset<Key>, k: nat)
    requires IsFirst(Keys(out), all, k)
    ensures forall i, j :: 0 <= i < j < |out| ==> NotBehind(out[i].key, out[j].key)
    ensures forall i, y :: 0 <= i < |out| && y in all - multiset(Keys(out)) ==> NotBehind(out[i].key, y)
  {
    forall i, j | 0 <= i < j < |out| ensures NotBehind(out[i].key, out[j].key) {
      assert !Ahead(Keys(out)[j], Keys(out)[i]);
    }
    forall i, y | 0 <= i < |out| && y in all - multiset(Keys(out)) ensures NotBehind(out[i].key, y) {
      assert Keys(out)[i] in multiset(Keys(out));
    }
  }

  lemma StillFromShards(out: seq<Result>, out': seq<Result>, h: seq<Cursor>, h': seq<Cursor>, shards: seq<seq<Result>>)
    requires FromShards(out, shards) && Walks(multiset(h), shards)
    requires exists c :: c in multiset(h) && c.pos < |c.results| && out' == out + [c.results[c.pos]]
    requires forall d :: d in multiset(h') ==> exists c :: c in multiset(h) && c.shard == d.shard && c.results == d.results
    ensures FromShards(out', shards) && Walks(multiset(h'), shards)
  {
    var c :| c in multiset(h) && c.pos < |c.results| && out' == out + [c.results[c.pos]];
    forall i | 0 <= i < |out'| ensures InSome(shards, out'[i]) {
      if i < |out| {
        assert InSome(shards, out[i]);
      } else {
        assert out'[i] in shards[c.shard];
      }
    }
  }

  lemma MergeDone(out: seq<Result>, h: seq<Cursor>, all: multiset<Key>, ranked: bool, k: nat)
    requires Merging(out, h, all, ranked) && |out| <= k && (|h| == 0 || |out| == k)
    ensures multiset(Keys(out)) <= all && |out| == Min(k, |all|)
    ensures ranked ==> IsFirst(Keys(out), all, k)
  {
    assert |multiset(Keys(out))| == |out|;
    assert |all| == |out| + |RestAll(h)|;
    assert all - multiset(Keys(out)) == RestAll(h);
  }

  // ----- properties of the result

  /** The first k keys are determined by the collection. */
  lemma {:induction false} FirstIsUnique(a: seq<Key>, b: seq<Key>, all: multiset<Key>, k: nat)
    requires IsFirst(a, all, k) && IsFirst(b, all, k)
    ensures a == b
    decreases |a|
  {
    assert |multiset(a)| == |a| && |multiset(b)| == |b|;
    if a != [] {
      FirstIsLeast(a, all, k);
      FirstIsLeast(b, all, k);
      SameKey(a[0], b[0]);
      FirstTail(a, all, k);
      FirstTail(b, all, k);
      FirstIsUnique(a[1..], b[1..], all - multiset{a[0]}, k - 1);
      HeadTail(a, b);
    }
  }

  lemma HeadTail(a: seq<Key>, b: seq<Key>)
    requires a != [] && b != [] && a[0] == b[0] && a[1..] == b[1..]
    ensures a == b
  {
    assert a == [a[0]] + a[1..] && b == [b[0]] + b[1..];
  }

  lemma SameKey(a: Key, b: Key)
    requires !Ahead(a, b) && !Ahead(b, a)
    ensures a == b
  {
  }

  lemma FirstIsLeast(a: seq<Key>, all: multiset<Key>, k: nat)
    requires IsFirst(a, all, k) && a != []
    ensures a[0] in all && forall y :: y in all ==> !Ahead(y, a[0])
  {
    assert a[0] in multiset(a);
    forall y | y in all ensures !Ahead(y, a[0]) {
      assert a[0] in multiset(a);
      if y in multiset(a) {
        var i :| 0 <= i < |a| && a[i] == y;
      }
    }
  }

  lemma FirstTail(a: seq<Key>, all: multiset<Key>, k: nat)
    requires IsFirst(a, all, k) && a != []
    ensures k > 0 && IsFirst(a[1..], all - multiset{a[0]}, k - 1)
  {
    assert a == [a[0]] + a[1..];
    assert multiset(a) == multiset{a[0]} + multiset(a[1..]);
    var all' := all - multiset{a[0]};
    assert all' - multiset(a[1..]) == all - multiset(a);
    assert |multiset(a)| == |a| && |multiset(a[1..])| == |a| - 1;
    assert |all'| == |all| - 1;
  }

  lemma {:induction false} TotalCount(outs: seq<multiset<Key>>, alls: seq<multiset<Key>>, y: Key)
    requires |outs| == |alls| && forall g :: 0 <= g < |outs| ==> alls[g][y] <= outs[g][y]
    ensures Total(alls)[y] <= Total(outs)[y]
  {
    if outs != [] {
      TotalCount(outs[..|outs| - 1], alls[..|alls| - 1], y);
    }
  }

  lemma {:induction false} TotalWithin(outs: seq<multiset<Key>>, alls: seq<multiset<Key>>)
    requires |outs| == |alls| && forall g :: 0 <= g < |outs| ==> outs[g] <= alls[g]
    ensures Total(outs) <= Total(alls)
  {
    if outs != [] {
      TotalWithin(outs[..|outs| - 1], alls[..|alls| - 1]);
    }
  }

  lemma {:induction false} PartOfTotal(ms: seq<multiset<Key>>, g: nat)
    requires g < |ms|
    ensures ms[g] <= Total(ms)
  {
    if g < |ms| - 1 { PartOfTotal(ms[..|ms| - 1], g); }
  }

  /** The best k of the groups' best k are the best k of everything. */
  lemma TopOfTops(r: multiset<Key>, outs: seq<multiset<Key>>, alls: seq<multiset<Key>>, k: nat)
    requires |outs| == |alls| && (forall g :: 0 <= g < |outs| ==> IsTop(outs[g], alls[g], k)) && IsTop(r, Total(outs), k)
    ensures IsTop(r, Total(alls), k)
  {
    TotalWithin(outs, alls);
    SizeOfTops(outs, alls, k);
    forall x, y | x in r && y in Total(alls) - r ensures !Ahead(y, x) {
      if y !in Total(outs) - r {
        var g := Truncated(outs, alls, y);
        Dominated(r, outs, g, alls[g], k, x, y);
      }
    }
  }

  /** A key left out of the total was cut from some group. */
  lemma Truncated(outs: seq<multiset<Key>>, alls: seq<multiset<Key>>, y: Key) returns (g: nat)
    requires |outs| == |alls| && Total(outs)[y] < Total(alls)[y]
    ensures g < |outs| && outs[g][y] < alls[g][y]
  {
    if forall g :: 0 <= g < |outs| ==> alls[g][y] <= outs[g][y] {
      TotalCount(outs, alls, y);
    }
    g :| 0 <= g < |outs| && outs[g][y] < alls[g][y];
  }

  lemma Dominated(r: multiset<Key>, outs: seq<multiset<Key>>, g: nat, all: multiset<Key>, k: nat, x: Key, y: Key)
    requires g < |outs| && IsTop(r, Total(outs), k) && IsTop(outs[g], all, k) && x in r && outs[g][y] < all[y]
    ensures !Ahead(y, x)
  {
    var out := outs[g];
    assert y in all - out;
    FullWhenCut(out, all, k, y);
    if z :| z in out && out[z] > r[z] {
      PartOfTotal(outs, g);
      assert z in Total(outs) - r;
      assert !Ahead(z, x) && !Ahead(y, z);
    } else {
      assert out <= r;
      SubMultiset(out, r);
    }
  }

  lemma FullWhenCut(out: multiset<Key>, all: multiset<Key>, k: nat, y: Key)
    requires IsTop(out, all, k) && out[y] < all[y]
    ensures |out| == k < |all|
  {
    SubMultiset(out, all);
  }

  lemma SubMultiset(a: multiset<Key>, b: multiset<Key>)
    requires a <= b
    ensures |a| <= |b| && (|a| == |b| ==> a == b)
  {
    assert b == a + (b - a);
  }

  lemma {:induction false} SizeOfTops(outs: seq<multiset<Key>>, alls: seq<multiset<Key>>, k: nat)
    requires |outs| == |alls| && forall g :: 0 <= g < |outs| ==> IsTop(outs[g], alls[g], k)
    ensures Min(k, |Total(outs)|) == Min(k, |Total(alls)|)
  {
    if outs != [] {
      var n := |outs| - 1;
      SizeOfTops(outs[..n], alls[..n], k);
    }
  }

  lemma {:induction false} AllKeysConcat(a: seq<seq<Result>>, b: seq<seq<Result>>)
    ensures AllKeys(a + b) == AllKeys(a) + AllKeys(b)
  {
    if b == [] {
      assert a + b == a;
    } else {
      var n := |b| - 1;
      assert (a + b)[..|a + b| - 1] == a + b[..n];
      AllKeysConcat(a, b[..n]);
    }
  }

  ghost function Flatten(groups: seq<seq<seq<Result>>>): seq<seq<Result>>
  {
    if groups == [] then [] else Flatten(groups[..|groups| - 1]) + groups[|groups| - 1]
  }

  ghost function KeysPerGroup(groups: seq<seq<seq<Result>>>): (ms: seq<multiset<Key>>)
    ensures |ms| == |groups|
  {
    seq(|groups|, g requires 0 <= g < |groups| => AllKeys(groups[g]))
  }

  lemma {:induction false} FlattenKeys(groups: seq<seq<seq<Result>>>)
    ensures AllKeys(Flatten(groups)) == Total(KeysPerGroup(groups))
  {
    if groups != [] {
      var n := |groups| - 1;
      FlattenKeys(groups[..n]);
      AllKeysConcat(Flatten(groups[..n]), groups[n]);
      assert KeysPerGroup(groups)[..n] == KeysPerGroup(groups[..n]);
    }
  }

  ghost function ResponseSets(responses: seq<seq<Result>>): (ms: seq<multiset<Key>>)
    ensures |ms| == |responses|
  {
    seq(|responses|, g requires 0 <= g < |responses| => multiset(Keys(responses[g])))
  }

  lemma {:induction false} ResponseKeys(responses: seq<seq<Result>>)
    ensures AllKeys(responses) == Total(ResponseSets(responses))
  {
    if responses != [] {
      var n := |responses| - 1;
      ResponseKeys(responses[..n]);
      assert ResponseSets(responses)[..n] == ResponseSets(responses[..n]);
    }
  }

  /** However the shards are grouped under aggregators that each return their best k, the root's merge
      ranks the same keys as one merge of all shards. */
  lemma AggregationIsTransparent(groups: seq<seq<seq<Result>>>, responses: seq<seq<Result>>, root: seq<Result>, flat: seq<Result>, k: nat)
    requires |responses| == |groups|
    requires forall g :: 0 <= g < |groups| ==> IsFirst(Keys(responses[g]), AllKeys(groups[g]), k)
    requires IsFirst(Keys(root), AllKeys(responses), k) && IsFirst(Keys(flat), AllKeys(Flatten(groups)), k)
    ensures Keys(root) == Keys(flat)
  {
    FlattenKeys(groups);
    ResponseKeys(responses);
    TopOfTops(multiset(Keys(root)), ResponseSets(responses), KeysPerGroup(groups), k);
    FirstIsUnique(Keys(root), Keys(flat), AllKeys(Flatten(groups)), k);
  }
}
