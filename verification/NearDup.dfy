/** The banded near-duplicate index (crawler/dedup/neardup.go). */
module NearDup {
  import opened Bits

  const HAMMING_THRESHOLD: nat := 3
  const NUM_BLOCKS: nat := 4

  /** Differing bits among the low n. */
  function Differing(a: nat, b: nat, n: nat): (d: nat)
    ensures d <= n
    decreases n, a
  {
    if n == 0 then 0 else (if a % 2 != b % 2 then 1 else 0) + Differing(a / 2, b / 2, n - 1)
  }

  function Hamming(a: uint64, b: uint64): nat
  {
    Differing(a, b, 64)
  }

  ghost predicate DifferAt(a: nat, b: nat, i: nat)
  {
    Shr(a, i) % 2 != Shr(b, i) % 2
  }

  /** The positions among the low n where a and b differ. */
  ghost function DifferingBits(a: nat, b: nat, n: nat): set<nat>
  {
    set i: nat | i < n && DifferAt(a, b, i)
  }

  /** Differing counts the positions. */
  lemma {:induction false} DifferingCounts(a: nat, b: nat, n: nat)
    ensures Differing(a, b, n) == |DifferingBits(a, b, n)|
    decreases n
  {
    if n == 0 {
      assert DifferingBits(a, b, 0) == {};
    } else {
      DifferingSplit(a, b, n - 1, 1);
      DifferingCounts(a, b, n - 1);
      assert Differing(Shr(a, n - 1), Shr(b, n - 1), 1) == if DifferAt(a, b, n - 1) then 1 else 0;
      assert DifferingBits(a, b, n) == DifferingBits(a, b, n - 1) + if DifferAt(a, b, n - 1) then {n - 1} else {};
    }
  }

  /** The distance is the number of bits that differ. */
  lemma HammingCounts(a: uint64, b: uint64)
    ensures Hamming(a, b) == |DifferingBits(a, b, 64)|
  {
    DifferingCounts(a, b, 64);
  }

  /** The b-th 16-bit block. */
  function BlockOf(fp: uint64, b: nat): nat
  {
    Low(Shr(fp, 16 * b), 16)
  }

  lemma {:induction false} DifferingSplit(a: nat, b: nat, n: nat, m: nat)
    ensures Differing(a, b, n + m) == Differing(a, b, n) + Differing(Shr(a, n), Shr(b, n), m)
    decreases n
  {
    if n > 0 { DifferingSplit(a / 2, b / 2, n - 1, m); }
  }

  lemma {:induction false} NoneDiffer(a: nat, b: nat, n: nat)
    ensures Differing(a, b, n) == 0 <==> Low(a, n) == Low(b, n)
    decreases n
  {
    if n > 0 { NoneDiffer(a / 2, b / 2, n - 1); }
  }

  lemma {:induction false} ShrShr(x: nat, a: nat, b: nat)
    ensures Shr(Shr(x, a), b) == Shr(x, a + b)
    decreases a
  {
    if a > 0 { ShrShr(x / 2, a - 1, b); }
  }

  /** Differing bits in block i. */
  ghost function BlockDiffers(a: uint64, b: uint64, i: nat): nat
  {
    Differing(Shr(a, 16 * i), Shr(b, 16 * i), 16)
  }

  lemma BlockSplit(a: uint64, b: uint64, i: nat, m: nat)
    ensures Differing(Shr(a, 16 * i), Shr(b, 16 * i), 16 + m) ==
            BlockDiffers(a, b, i) + Differing(Shr(a, 16 * (i + 1)), Shr(b, 16 * (i + 1)), m)
  {
    DifferingSplit(Shr(a, 16 * i), Shr(b, 16 * i), 16, m);
    ShrShr(a, 16 * i, 16);
    ShrShr(b, 16 * i, 16);
  }

  lemma HammingIsBlocks(a: uint64, b: uint64)
    ensures Hamming(a, b) == BlockDiffers(a, b, 0) + BlockDiffers(a, b, 1) + BlockDiffers(a, b, 2) + BlockDiffers(a, b, 3)
  {
    BlockSplit(a, b, 0, 48);
    BlockSplit(a, b, 1, 32);
    BlockSplit(a, b, 2, 16);
    assert Shr(a, 0) == a && Shr(b, 0) == b;
  }

  /** Pigeonhole: at most three differing bits leave one of four blocks alike. */
  lemma SomeBlockAgrees(a: uint64, b: uint64) returns (i: nat)
    requires Hamming(a, b) <= HAMMING_THRESHOLD
    ensures i < NUM_BLOCKS && BlockOf(a, i) == BlockOf(b, i)
  {
    HammingIsBlocks(a, b);
    i := if BlockDiffers(a, b, 0) == 0 then 0 else if BlockDiffers(a, b, 1) == 0 then 1
         else if BlockDiffers(a, b, 2) == 0 then 2 else 3;
    NoneDiffer(Shr(a, 16 * i), Shr(b, 16 * i), 16);
  }

  // ----- the index

  type Table = map<nat, seq<uint64>>

  function Bucket(t: Table, key: nat): seq<uint64>
  {
    if key in t then t[key] else []
  }

  /** Within the threshold of fp. */
  ghost predicate Near(fps: map<uint64, uint64>, fp: uint64, id: uint64)
  {
    id in fps && Hamming(fp, fps[id]) <= HAMMING_THRESHOLD
  }

  /** id is the nearest stored fingerprint within the threshold, smallest id on ties. */
  ghost predicate IsNearest(fps: map<uint64, uint64>, fp: uint64, id: uint64)
  {
    && Near(fps, fp, id)
    && forall x :: Near(fps, fp, x) ==>
         Hamming(fp, fps[id]) < Hamming(fp, fps[x]) || (Hamming(fp, fps[id]) == Hamming(fp, fps[x]) && id <= x)
  }

  ghost predicate Separated(fps: map<uint64, uint64>)
  {
    forall x, y :: x in fps && y in fps && x != y ==> Hamming(fps[x], fps[y]) > HAMMING_THRESHOLD
  }

  lemma {:induction false} DifferingSymmetric(a: nat, b: nat, n: nat)
    ensures Differing(a, b, n) == Differing(b, a, n)
    decreases n
  {
    if n > 0 { DifferingSymmetric(a / 2, b / 2, n - 1); }
  }

  /** The best of the candidates examined so far. */
  ghost predicate BestSoFar(fps: map<uint64, uint64>, fp: uint64, seen: set<uint64>, id: uint64, dist: nat, found: bool)
  {
    && (forall x :: x in seen ==> x in fps)
    && (found ==> id in seen && Near(fps, fp, id) && dist == Hamming(fp, fps[id]))
    && (!found ==> dist == HAMMING_THRESHOLD + 1)
    && forall x :: x in seen && Near(fps, fp, x) ==>
         found && (dist < Hamming(fp, fps[x]) || (dist == Hamming(fp, fps[x]) && id <= x))
  }

  /** Every fingerprint is in its bucket of every table, except that id's is filed only in the first b. */
  ghost predicate Filed(tables: seq<Table>, fps: map<uint64, uint64>, id: uint64, b: nat)
  {
    && |tables| == NUM_BLOCKS
    && (forall c, x :: 0 <= c < NUM_BLOCKS && x in fps && (x != id || c < b) ==> x in Bucket(tables[c], BlockOf(fps[x], c)))
    && (forall c, key, x :: 0 <= c < NUM_BLOCKS && x in Bucket(tables[c], key) ==> x in fps)
  }

  function WithId(t: Table, key: nat, id: uint64): Table
  {
    t[key := Bucket(t, key) + [id]]
  }

  lemma FileMore(tables: seq<Table>, fps: map<uint64, uint64>, id: uint64, b: nat)
    requires Filed(tables, fps, id, b) && id in fps && b < NUM_BLOCKS
    ensures Filed(tables[b := WithId(tables[b], BlockOf(fps[id], b), id)], fps, id, b + 1)
  {
    var key := BlockOf(fps[id], b);
    forall k, x ensures x in Bucket(WithId(tables[b], key, id), k) <==> x in Bucket(tables[b], k) || (k == key && x == id) {}
  }

  ghost predicate Banded(tables: seq<Table>, fps: map<uint64, uint64>)
  {
    && |tables| == NUM_BLOCKS
    && (forall b, id :: 0 <= b < NUM_BLOCKS && id in fps ==> id in Bucket(tables[b], BlockOf(fps[id], b)))
    && (forall b, key, id :: 0 <= b < NUM_BLOCKS && id in Bucket(tables[b], key) ==> id in fps)
  }

  /** The four probed buckets hold every near fingerprint. */
  lemma ScanComplete(tables: seq<Table>, fps: map<uint64, uint64>, fp: uint64, seen: set<uint64>, id: uint64, dist: nat, found: bool)
    requires Banded(tables, fps) && BestSoFar(fps, fp, seen, id, dist, found)
    requires forall b, x :: 0 <= b < NUM_BLOCKS && x in Bucket(tables[b], BlockOf(fp, b)) ==> x in seen
    ensures (found <==> exists x :: Near(fps, fp, x)) && (found ==> IsNearest(fps, fp, id))
  {
    forall x | Near(fps, fp, x) ensures x in seen {
      var i := SomeBlockAgrees(fp, fps[x]);
      assert x in Bucket(tables[i], BlockOf(fps[x], i));
    }
  }

  class NearDupIndex {
    var tables: seq<Table>
    var fps: map<uint64, uint64>

    constructor ()
      ensures Valid() && fps == map[]
    {
      tables, fps := [map[], map[], map[], map[]], map[];
    }

    /** Every cluster is in the bucket of each of its blocks, and buckets hold only clusters. */
    ghost predicate Valid()
      reads this
    {
      Banded(tables, fps)
    }

    method Add(id: uint64, fp: uint64)
      requires Valid()
      modifies this
      ensures Valid() && fps == old(fps)[id := fp]
    {
      fps := fps[id := fp];
      for b := 0 to NUM_BLOCKS
        invariant fps == old(fps)[id := fp] && Filed(tables, fps, id, b)
      {
        FileMore(tables, fps, id, b);
        tables := tables[b := WithId(tables[b], BlockOf(fp, b), id)];
      }
    }

    /** The same answer as a scan of every stored fingerprint. */
    method Query(fp: uint64) returns (bestId: uint64, found: bool)
      requires Valid()
      ensures found <==> exists id :: Near(fps, fp, id)
      ensures found ==> IsNearest(fps, fp, bestId)
    {
      bestId, found := 0, false;
      var bestDist: nat, seen: set<uint64> := HAMMING_THRESHOLD + 1, {};
      for b := 0 to NUM_BLOCKS
        invariant BestSoFar(fps, fp, seen, bestId, bestDist, found)
        invariant forall c, x :: 0 <= c < b && x in Bucket(tables[c], BlockOf(fp, c)) ==> x in seen
      {
        bestId, bestDist, found, seen := Probe(Bucket(tables[b], BlockOf(fp, b)), fp, bestId, bestDist, found, seen);
      }
      ScanComplete(tables, fps, fp, seen, bestId, bestDist, found);
    }

    /** Examines one bucket. */
    method Probe(ids: seq<uint64>, fp: uint64, id0: uint64, dist0: nat, found0: bool, seen0: set<uint64>)
      returns (bestId: uint64, bestDist: nat, found: bool, seen: set<uint64>)
      requires BestSoFar(fps, fp, seen0, id0, dist0, found0) && forall x :: x in ids ==> x in fps
      ensures BestSoFar(fps, fp, seen, bestId, bestDist, found) && seen0 <= seen && forall x :: x in ids ==> x in seen
    {
      bestId, bestDist, found, seen := id0, dist0, found0, seen0;
      for i := 0 to |ids|
        invariant BestSoFar(fps, fp, seen, bestId, bestDist, found) && seen0 <= seen
        invariant forall j :: 0 <= j < i ==> ids[j] in seen
      {
        var id := ids[i];
        if id !in seen {
          seen := seen + {id};
          var d := Hamming(fp, fps[id]);
          if d <= HAMMING_THRESHOLD && (d < bestDist || (d == bestDist && id < bestId)) {
            bestId, bestDist, found := id, d, true;
          }
        }
      }
    }

    /** Inserts fp unless it has a near duplicate; representatives stay more than three bits apart. */
    method AddIfNew(newId: uint64, fp: uint64) returns (cluster: uint64, isNew: bool)
      requires Valid()
      modifies this
      ensures Valid()
      ensures isNew <==> !exists id :: Near(old(fps), fp, id)
      ensures isNew ==> cluster == newId && fps == old(fps)[newId := fp]
      ensures !isNew ==> IsNearest(old(fps), fp, cluster) && fps == old(fps) && tables == old(tables)
      ensures old(Separated(fps)) ==> Separated(fps)
    {
      var id, ok := Query(fp);
      if ok {
        return id, false;
      }
      Add(newId, fp);
      NewIsSeparate(old(fps), newId, fp);
      return newId, true;
    }
  }

  lemma NewIsSeparate(fps: map<uint64, uint64>, id: uint64, fp: uint64)
    requires forall x :: !Near(fps, fp, x)
    ensures Separated(fps) ==> Separated(fps[id := fp])
  {
    forall x | x in fps ensures Hamming(fp, fps[x]) > HAMMING_THRESHOLD && Hamming(fps[x], fp) > HAMMING_THRESHOLD {
      assert !Near(fps, fp, x);
      DifferingSymmetric(fp, fps[x], 64);
    }
  }
}
