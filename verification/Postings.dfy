/** Posting lists as compressed blocks, and their cursor (index/postings/postings.go). */
module Postings {
  import opened Bits
  import opened BitPack
  import GroupVarint
  import PForDelta

  datatype Posting = Posting(doc: uint32, freq: uint32)

  datatype Block = Block(firstDoc: uint32, lastDoc: uint32, maxFreq: uint32, offset: nat, count: nat)

  datatype List = List(data: seq<byte>, blocks: seq<Block>, numDoc: nat)

  datatype Result<T> = Ok(value: T) | NotAscending

  ghost predicate Ascending(ps: seq<Posting>)
  {
    forall i, j :: 0 <= i < j < |ps| ==> ps[i].doc < ps[j].doc
  }

  // ----- what a list stores

  function BlockEnd(n: nat, j: nat): nat
  {
    if BLOCK_SIZE * (j + 1) < n then BLOCK_SIZE * (j + 1) else n
  }

  function NumBlocks(n: nat): nat
  {
    (n + 127) / 128
  }

  /** The postings of block j. */
  ghost function Chunk(ps: seq<Posting>, j: nat): (c: seq<Posting>)
    requires j < NumBlocks(|ps|)
    ensures 0 < |c| <= BLOCK_SIZE && |c| == BlockEnd(|ps|, j) - BLOCK_SIZE * j
  {
    ps[BLOCK_SIZE * j..BlockEnd(|ps|, j)]
  }

  ghost function Gaps(c: seq<Posting>): (gs: seq<uint32>)
    requires Ascending(c) && |c| > 0
    ensures |gs| == |c| - 1
  {
    seq(|c| - 1, i requires 0 <= i < |c| - 1 => c[i + 1].doc - c[i].doc)
  }

  ghost function Freqs(c: seq<Posting>): (fs: seq<uint32>)
    ensures |fs| == |c|
  {
    seq(|c|, i requires 0 <= i < |c| => c[i].freq)
  }

  /** Full blocks pack their gaps, the tail block group-varints them. */
  ghost function GapStream(gaps: seq<uint32>): seq<byte>
  {
    if |gaps| + 1 == BLOCK_SIZE then
      WidthOfIsNarrowest(gaps);
      [WidthOf(gaps)] + Packed(gaps, WidthOf(gaps))
    else
      GroupVarint.Encoded(gaps)
  }

  ghost function FreqStream(freqs: seq<uint32>): seq<byte>
    requires |freqs| <= BLOCK_SIZE
  {
    PForDelta.Encoded(freqs, PForDelta.BestWidth(freqs, 32))
  }

  ghost function Payload(c: seq<Posting>): seq<byte>
    requires Ascending(c) && 0 < |c| <= BLOCK_SIZE
  {
    GapStream(Gaps(c)) + FreqStream(Freqs(c))
  }

  /** m is the largest frequency among ps[lo..hi]. */
  ghost predicate IsMaxFreq(m: uint32, ps: seq<Posting>, lo: nat, hi: nat)
    requires lo <= hi <= |ps|
  {
    && (forall k :: lo <= k < hi ==> ps[k].freq <= m)
    && (m == 0 || exists k :: lo <= k < hi && ps[k].freq == m)
  }

  /** Skip-table entry b describes the postings ps[lo..hi]. */
  ghost predicate Describes(b: Block, ps: seq<Posting>, lo: nat, hi: nat)
    requires lo < hi <= |ps|
  {
    && b.firstDoc == ps[lo].doc
    && b.lastDoc == ps[hi - 1].doc
    && b.count == hi - lo
    && IsMaxFreq(b.maxFreq, ps, lo, hi)
  }

  ghost predicate Described(l: List, ps: seq<Posting>, j: nat)
  {
    && j < |l.blocks|
    && BLOCK_SIZE * j < BlockEnd(|ps|, j)
    && Describes(l.blocks[j], ps, BLOCK_SIZE * j, BlockEnd(|ps|, j))
  }

  /** The payload of chunk j is in the data at its block's offset. */
  ghost predicate Holds(l: List, ps: seq<Posting>, j: nat)
  {
    && j < |l.blocks| && j < NumBlocks(|ps|)
    && Ascending(Chunk(ps, j))
    && l.blocks[j].offset <= |l.data|
    && Payload(Chunk(ps, j)) <= l.data[l.blocks[j].offset..]
  }

  /** The first n chunks of ps are encoded. */
  ghost predicate Built(l: List, ps: seq<Posting>, n: nat)
  {
    && l.numDoc == |ps|
    && |l.blocks| == n <= NumBlocks(|ps|)
    && (forall j: nat {:trigger Described(l, ps, j)} :: j < n ==> Described(l, ps, j))
    && (forall j: nat {:trigger Holds(l, ps, j)} :: j < n ==> Holds(l, ps, j))
  }

  ghost predicate Encodes(l: List, ps: seq<Posting>)
  {
    Built(l, ps, NumBlocks(|ps|))
  }

  // ----- encoding

  method Encode(ps: seq<Posting>) returns (r: Result<List>)
    ensures r.Ok? <==> Ascending(ps)
    ensures r.Ok? ==> Encodes(r.value, ps)
  {
    var ok := CheckAscending(ps);
    if !ok {
      return NotAscending;
    }
    var l := List([], [], |ps|);
    var start := 0;
    while start < |ps|
      invariant 0 <= start == BLOCK_SIZE * |l.blocks|
      invariant Built(l, ps, |l.blocks|)
    {
      var end := if start + BLOCK_SIZE < |ps| then start + BLOCK_SIZE else |ps|;
      l := EncodeBlock(l, ps[start..end], ps, start, end);
      start := start + BLOCK_SIZE;
    }
    return Ok(l);
  }

  method CheckAscending(ps: seq<Posting>) returns (ok: bool)
    ensures ok <==> Ascending(ps)
  {
    var i := 1;
    while i < |ps|
      invariant forall a, b :: 0 <= a < b < i && b < |ps| ==> ps[a].doc < ps[b].doc
    {
      if ps[i].doc <= ps[i - 1].doc {
        return false;
      }
      i := i + 1;
    }
    return true;
  }

  lemma BlockDescribed(l: List, l': List, ps: seq<Posting>, start: nat, end: nat)
    requires Built(l, ps, |l.blocks|)
    requires start == BLOCK_SIZE * |l.blocks| < |ps| && end == BlockEnd(|ps|, |l.blocks|)
    requires |l'.blocks| == |l.blocks| + 1 && l.blocks <= l'.blocks
    requires Describes(l'.blocks[|l.blocks|], ps[start..end], 0, end - start)
    ensures forall j: nat {:trigger Described(l', ps, j)} :: j < |l'.blocks| ==> Described(l', ps, j)
  {
    forall j: nat | j < |l'.blocks|
      ensures Described(l', ps, j)
    {
      if j < |l.blocks| {
        assert Described(l, ps, j);
      } else {
        DescribesShift(l'.blocks[j], ps, start, end);
      }
    }
  }

  lemma BlockHeld(l: List, l': List, ps: seq<Posting>, start: nat, end: nat, payload: seq<byte>)
    requires Ascending(ps) && Built(l, ps, |l.blocks|)
    requires start == BLOCK_SIZE * |l.blocks| < |ps| && end == BlockEnd(|ps|, |l.blocks|)
    requires |l'.blocks| == |l.blocks| + 1 && l.blocks <= l'.blocks
    requires l'.blocks[|l.blocks|].offset == |l.data| && l'.data == l.data + payload
    requires Ascending(Chunk(ps, |l.blocks|)) && payload == Payload(Chunk(ps, |l.blocks|))
    ensures forall j: nat {:trigger Holds(l', ps, j)} :: j < |l'.blocks| ==> Holds(l', ps, j)
  {
    forall j: nat | j < |l'.blocks| ensures Holds(l', ps, j) {
      HeldAt(l, l', ps, payload, j);
    }
  }

  lemma HeldAt(l: List, l': List, ps: seq<Posting>, payload: seq<byte>, j: nat)
    requires Built(l, ps, |l.blocks|) && BLOCK_SIZE * |l.blocks| < |ps| && j <= |l.blocks|
    requires |l'.blocks| == |l.blocks| + 1 && l.blocks <= l'.blocks
    requires l'.blocks[|l.blocks|].offset == |l.data| && l'.data == l.data + payload
    requires Ascending(Chunk(ps, |l.blocks|)) && payload == Payload(Chunk(ps, |l.blocks|))
    ensures Holds(l', ps, j)
  {
    if j < |l.blocks| {
      assert Holds(l, ps, j);
      HoldsStays(l, l', ps, j);
    } else {
      LastHeld(l.data, payload);
      HoldsNew(l', ps, j, payload);
    }
  }

  lemma LastHeld(d: seq<byte>, p: seq<byte>)
    ensures p <= (d + p)[|d|..]
  {
  }

  lemma DescribesShift(b: Block, ps: seq<Posting>, start: nat, end: nat)
    requires start < end <= |ps| && Describes(b, ps[start..end], 0, end - start)
    ensures Describes(b, ps, start, end)
  {
    var c := ps[start..end];
    assert forall k :: start <= k < end ==> ps[k] == c[k - start];
    if b.maxFreq != 0 {
      var k :| 0 <= k < end - start && c[k].freq == b.maxFreq;
      assert ps[start + k].freq == b.maxFreq;
    }
  }

  lemma HoldsStays(l: List, l': List, ps: seq<Posting>, j: nat)
    requires Holds(l, ps, j) && l.data <= l'.data && l.blocks <= l'.blocks
    ensures Holds(l', ps, j)
  {
    var o, p := l.blocks[j].offset, Payload(Chunk(ps, j));
    PrefixGrows(l.data, l'.data, o, p);
  }

  lemma HoldsNew(l: List, ps: seq<Posting>, j: nat, payload: seq<byte>)
    requires j < |l.blocks| && j < NumBlocks(|ps|) && l.blocks[j].offset <= |l.data|
    requires payload <= l.data[l.blocks[j].offset..]
    requires Ascending(Chunk(ps, j)) && payload == Payload(Chunk(ps, j))
    ensures Holds(l, ps, j)
  {
  }

  lemma PrefixGrows(d: seq<byte>, d': seq<byte>, o: nat, p: seq<byte>)
    requires d <= d' && o <= |d| && p <= d[o..]
    ensures p <= d'[o..]
  {
    assert d[o..] <= d'[o..];
  }

  /** Appends the block of ps = all[start..end]. */
  method EncodeBlock(l: List, ps: seq<Posting>, ghost all: seq<Posting>, ghost start: nat, ghost end: nat)
    returns (l': List)
    requires Ascending(all) && Built(l, all, |l.blocks|)
    requires start == BLOCK_SIZE * |l.blocks| < |all| && end == BlockEnd(|all|, |l.blocks|)
    requires ps == all[start..end]
    ensures |l'.blocks| == |l.blocks| + 1 && Built(l', all, |l'.blocks|)
  {
    var maxFreq, gaps, freqs := SplitStreams(ps);
    var b := Block(ps[0].doc, ps[|ps| - 1].doc, maxFreq, |l.data|, |ps|);
    var data := AppendStreams(l.data, gaps, freqs);
    l' := List(data, l.blocks + [b], l.numDoc);
    BlockDescribed(l, l', all, start, end);
    BlockHeld(l, l', all, start, end, Payload(ps));
  }

  method AppendStreams(dst: seq<byte>, gaps: seq<uint32>, freqs: seq<uint32>) returns (r: seq<byte>)
    requires |gaps| < BLOCK_SIZE && |freqs| <= BLOCK_SIZE
    ensures r == dst + (GapStream(gaps) + FreqStream(freqs))
  {
    r := AppendGaps(dst, gaps);
    r := PForDelta.AppendPForDelta(r, freqs);
    Assoc(dst, GapStream(gaps), FreqStream(freqs));
  }

  method SplitStreams(ps: seq<Posting>) returns (maxFreq: uint32, gaps: seq<uint32>, freqs: seq<uint32>)
    requires 0 < |ps| && Ascending(ps)
    ensures IsMaxFreq(maxFreq, ps, 0, |ps|) && gaps == Gaps(ps) && freqs == Freqs(ps)
  {
    maxFreq, gaps, freqs := 0, [], [];
    for i := 0 to |ps|
      invariant Splitting(ps, maxFreq, gaps, freqs, i)
    {
      SplitMore(ps, maxFreq, gaps, freqs, i);
      freqs := freqs + [ps[i].freq];
      if ps[i].freq > maxFreq {
        maxFreq := ps[i].freq;
      }
      if i > 0 {
        gaps := gaps + [ps[i].doc - ps[i - 1].doc];
      }
    }
    StreamsComplete(ps, gaps, freqs);
  }

  /** What the loop has split off the first i postings. */
  ghost predicate Splitting(ps: seq<Posting>, maxFreq: uint32, gaps: seq<uint32>, freqs: seq<uint32>, i: nat)
    requires i <= |ps|
  {
    && IsMaxFreq(maxFreq, ps, 0, i) && FreqsUpTo(ps, freqs, i)
    && |gaps| == (if i == 0 then 0 else i - 1) && GapsUpTo(ps, gaps)
  }

  lemma SplitMore(ps: seq<Posting>, maxFreq: uint32, gaps: seq<uint32>, freqs: seq<uint32>, i: nat)
    requires i < |ps| && Ascending(ps) && Splitting(ps, maxFreq, gaps, freqs, i)
    ensures i > 0 ==> ps[i - 1].doc < ps[i].doc
    ensures Splitting(ps, if ps[i].freq > maxFreq then ps[i].freq else maxFreq,
                      if i > 0 then gaps + [ps[i].doc - ps[i - 1].doc] else gaps, freqs + [ps[i].freq], i + 1)
  {
    MaxFreqStep(maxFreq, ps, i);
    if i > 0 { GapsMore(ps, gaps, i); }
  }

  lemma StreamsComplete(ps: seq<Posting>, gaps: seq<uint32>, freqs: seq<uint32>)
    requires Ascending(ps) && GapsUpTo(ps, gaps) && |gaps| == |ps| - 1
    requires |freqs| == |ps| && forall k :: 0 <= k < |ps| ==> freqs[k] == ps[k].freq
    ensures gaps == Gaps(ps) && freqs == Freqs(ps)
  {
  }

  ghost predicate FreqsUpTo(ps: seq<Posting>, freqs: seq<uint32>, i: nat)
    requires i <= |ps|
  {
    |freqs| == i && forall k :: 0 <= k < i ==> freqs[k] == ps[k].freq
  }

  lemma GapsMore(ps: seq<Posting>, gaps: seq<uint32>, i: nat)
    requires 0 < i < |ps| && |gaps| == i - 1 && Ascending(ps) && GapsUpTo(ps, gaps)
    ensures GapsUpTo(ps, gaps + [ps[i].doc - ps[i - 1].doc])
  {
  }

  ghost predicate GapsUpTo(ps: seq<Posting>, gaps: seq<uint32>)
  {
    |gaps| < |ps| && forall k :: 0 <= k < |gaps| ==> gaps[k] == ps[k + 1].doc - ps[k].doc
  }

  lemma MaxFreqStep(m: uint32, ps: seq<Posting>, i: nat)
    requires i < |ps| && IsMaxFreq(m, ps, 0, i)
    ensures IsMaxFreq(if ps[i].freq > m then ps[i].freq else m, ps, 0, i + 1)
  {
    if ps[i].freq > m {
      assert ps[i].freq == ps[i].freq;
    } else if m != 0 {
      var k :| 0 <= k < i && ps[k].freq == m;
      assert ps[k].freq == m;
    }
  }

  method AppendGaps(dst: seq<byte>, gaps: seq<uint32>) returns (r: seq<byte>)
    requires |gaps| < BLOCK_SIZE
    ensures r == dst + GapStream(gaps)
  {
    if |gaps| + 1 == BLOCK_SIZE {
      var w := MaxWidth(gaps);
      WidthOfIsNarrowest(gaps);
      r := PackBits(dst + [w], gaps, w);
      Assoc(dst, [w], Packed(gaps, w));
    } else {
      r := GroupVarint.AppendGroupVarint(dst, gaps);
    }
  }

  // ----- positions

  /** The first index at or after `from` whose document is at or past target. */
  ghost function FirstGEQ(ps: seq<Posting>, from: nat, target: nat): (r: nat)
    requires from <= |ps|
    ensures from <= r <= |ps|
    ensures forall k :: from <= k < r ==> ps[k].doc < target
    ensures r < |ps| ==> ps[r].doc >= target
    decreases |ps| - from
  {
    if from == |ps| || ps[from].doc >= target then from else FirstGEQ(ps, from + 1, target)
  }

  lemma {:induction false} FirstGEQIs(ps: seq<Posting>, from: nat, target: nat, r: nat)
    requires from <= r <= |ps|
    requires forall k :: from <= k < r ==> ps[k].doc < target
    requires r < |ps| ==> ps[r].doc >= target
    ensures FirstGEQ(ps, from, target) == r
    decreases r - from
  {
    if from < r {
      FirstGEQIs(ps, from + 1, target, r);
    }
  }

  /** The block that could hold target bounds every frequency at or past target within it. */
  lemma BlockBounds(l: List, ps: seq<Posting>, j: nat, target: nat, k: nat)
    requires Ascending(ps) && Encodes(l, ps) && j < |l.blocks| && k < |ps|
    requires forall i :: 0 <= i < j ==> l.blocks[i].lastDoc < target
    requires target <= ps[k].doc <= l.blocks[j].lastDoc
    ensures ps[k].freq <= l.blocks[j].maxFreq
  {
    assert Described(l, ps, j);
    if j > 0 {
      assert Described(l, ps, j - 1);
    }
  }

  /** The largest frequency anywhere in the list. */
  method MaxFreq(l: List, ghost ps: seq<Posting>) returns (m: uint32)
    requires Encodes(l, ps)
    ensures IsMaxFreq(m, ps, 0, |ps|)
  {
    m := 0;
    for j := 0 to |l.blocks|
      invariant IsMaxFreq(m, ps, 0, if j == 0 then 0 else BlockEnd(|ps|, j - 1))
    {
      assert Described(l, ps, j);
      if l.blocks[j].maxFreq > m {
        m := l.blocks[j].maxFreq;
      }
    }
  }

  // ----- the cursor

  class Cursor {
    const l: List
    ghost const ps: seq<Posting>   // the postings l encodes
    const docs: array<uint32>
    const freqs: array<uint32>
    var blockIdx: int
    var inBlock: nat
    var decoded: bool
    var shallowIdx: nat

    constructor (l: List, ghost ps: seq<Posting>)
      requires Ascending(ps) && Encodes(l, ps)
      ensures this.l == l && this.ps == ps && fresh(docs) && fresh(freqs)
      ensures Valid() && Position() == -1 && shallowIdx == 0
    {
      this.l, this.ps := l, ps;
      docs, freqs := new uint32[BLOCK_SIZE], new uint32[BLOCK_SIZE];
      blockIdx, inBlock, decoded, shallowIdx := -1, 0, false, 0;
    }

    ghost predicate Loaded(j: nat)
      reads docs, freqs
    {
      && docs.Length == freqs.Length == BLOCK_SIZE
      && forall k :: 0 <= k < BlockEnd(|ps|, j) - BLOCK_SIZE * j ==>
           docs[k] == ps[BLOCK_SIZE * j + k].doc && freqs[k] == ps[BLOCK_SIZE * j + k].freq
    }

    ghost predicate Valid()
      reads this, docs, freqs
    {
      && Ascending(ps) && Encodes(l, ps)
      && docs != freqs && docs.Length == freqs.Length == BLOCK_SIZE
      && -1 <= blockIdx <= |l.blocks|
      && (blockIdx == -1 ==> !decoded)
      && (0 <= blockIdx < |l.blocks| ==>
            && decoded && Loaded(blockIdx)
            && inBlock < BlockEnd(|ps|, blockIdx) - BLOCK_SIZE * blockIdx)
      && (shallowIdx == 0 || shallowIdx < |l.blocks|)
    }

    /** The index into ps the cursor stands on: -1 before the first, |ps| past the last. */
    ghost function Position(): int
      reads this
    {
      if blockIdx < 0 then -1
      else if blockIdx >= |l.blocks| then |ps|
      else BLOCK_SIZE * blockIdx + inBlock
    }

    /** The position as an index from which documents are still ahead. */
    ghost function Ahead(): nat
      reads this
    {
      if blockIdx < 0 then 0
      else if blockIdx >= |l.blocks| then |ps|
      else BLOCK_SIZE * blockIdx + inBlock
    }

    predicate Done()
      reads this
    {
      blockIdx >= |l.blocks|
    }

    function Doc(): (d: uint32)
      reads this, docs, freqs
      requires Valid() && 0 <= blockIdx < |l.blocks|
      ensures 0 <= Position() < |ps| && d == ps[Position()].doc
    {
      docs[inBlock]
    }

    function Freq(): (f: uint32)
      reads this, docs, freqs
      requires Valid() && 0 <= blockIdx < |l.blocks|
      ensures 0 <= Position() < |ps| && f == ps[Position()].freq
    {
      freqs[inBlock]
    }

    /** One document forward; not to be called once Done. */
    method Next() returns (ok: bool)
      requires Valid() && (blockIdx < 0 || !Done())
      modifies this, docs, freqs
      ensures Valid() && shallowIdx == old(shallowIdx)
      ensures Position() == old(Position()) + 1 && (ok <==> Position() < |ps|)
    {
      if blockIdx < 0 {
        blockIdx := 0;
        if |l.blocks| == 0 {
          blockIdx := 0;
          return false;
        }
        DecodeBlock();
        inBlock := 0;
        return true;
      }
      assert Described(l, ps, blockIdx);
      inBlock := inBlock + 1;
      if inBlock >= l.blocks[blockIdx].count {
        blockIdx := blockIdx + 1;
        if Done() {
          return false;
        }
        DecodeBlock();
        inBlock := 0;
      }
      return true;
    }

    /** Forward to the first document at or past target. */
    method NextGEQ(target: uint32) returns (d: uint32, ok: bool)
      requires Valid()
      modifies this, docs, freqs
      ensures Valid() && shallowIdx == old(shallowIdx) && blockIdx >= 0
      ensures old(Ahead()) <= |ps| && Position() == FirstGEQ(ps, old(Ahead()), target)
      ensures ok <==> Position() < |ps|
      ensures ok ==> d == ps[Position()].doc
    {
      if Done() {
        return 0, false;
      }
      ghost var from := Ahead();
      SkipBlocks(target);
      if Done() {
        FirstGEQIs(ps, from, target, |ps|);
        return 0, false;
      }
      if !decoded {
        DecodeBlock();
        inBlock := 0;
      }
      d := ScanBlock(target, from);
      FirstGEQIs(ps, from, target, Ahead());
      return d, true;
    }

    /** The skip-table loop: past every block that ends before target. */
    method SkipBlocks(target: uint32)
      requires Valid() && !Done()
      modifies this`blockIdx, this`decoded
      ensures 0 <= blockIdx <= |l.blocks|
      ensures !Done() ==> l.blocks[blockIdx].lastDoc >= target
      ensures decoded ==> Valid() && old(Ahead()) == BLOCK_SIZE * blockIdx + inBlock < |ps|
      ensures !decoded ==> old(Ahead()) <= BLOCK_SIZE * blockIdx && old(Ahead()) <= |ps|
      ensures forall k :: old(Ahead()) <= k < BLOCK_SIZE * blockIdx && k < |ps| ==> ps[k].doc < target
    {
      ghost var from := Ahead();
      if blockIdx < 0 {
        blockIdx := 0;
      }
      while blockIdx < |l.blocks| && l.blocks[blockIdx].lastDoc < target
        invariant 0 <= blockIdx <= |l.blocks|
        invariant decoded ==> Valid() && from == BLOCK_SIZE * blockIdx + inBlock < |ps|
        invariant !decoded ==> from <= BLOCK_SIZE * blockIdx && from <= |ps|
        invariant forall k :: from <= k < BLOCK_SIZE * blockIdx && k < |ps| ==> ps[k].doc < target
      {
        assert Described(l, ps, blockIdx);
        blockIdx := blockIdx + 1;
        decoded := false;
      }
    }

    /** The in-block loop. The block ends at or past target, so it cannot run off the end: the
        recursion into the next block that would follow is never reached. */
    method ScanBlock(target: uint32, ghost from: nat) returns (d: uint32)
      requires Valid() && 0 <= blockIdx < |l.blocks| && l.blocks[blockIdx].lastDoc >= target
      requires from <= BLOCK_SIZE * blockIdx + inBlock
      requires forall k :: from <= k < BLOCK_SIZE * blockIdx + inBlock ==> ps[k].doc < target
      modifies this`inBlock
      ensures Valid() && from <= Ahead() < |ps| && d == ps[Ahead()].doc >= target
      ensures forall k :: from <= k < Ahead() ==> ps[k].doc < target
    {
      assert Described(l, ps, blockIdx);
      while inBlock < l.blocks[blockIdx].count
        invariant inBlock <= l.blocks[blockIdx].count
        invariant from <= BLOCK_SIZE * blockIdx + inBlock
        invariant forall k :: from <= k < BLOCK_SIZE * blockIdx + inBlock ==> ps[k].doc < target
      {
        if docs[inBlock] >= target {
          return docs[inBlock];
        }
        inBlock := inBlock + 1;
      }
      assert false;
    }

    method DecodeBlock()
      requires Ascending(ps) && Encodes(l, ps) && 0 <= blockIdx < |l.blocks|
      requires docs != freqs && docs.Length == freqs.Length == BLOCK_SIZE
      modifies this`decoded, docs, freqs
      ensures decoded && Loaded(blockIdx)
    {
      ghost var lo := BLOCK_SIZE * blockIdx;
      assert Described(l, ps, blockIdx);
      var b := l.blocks[blockIdx];
      var gaps, fs := DecodeStreams(l, blockIdx, ps);
      FillDocs(b, gaps, lo);
      FillFreqs(b, fs);
      forall k | 0 <= k < b.count ensures freqs[k] == ps[lo + k].freq {
        assert fs[k] == ps[lo + k].freq;
      }
      decoded := true;
    }

    method FillFreqs(b: Block, fs: seq<uint32>)
      requires freqs.Length == BLOCK_SIZE && |fs| == b.count <= BLOCK_SIZE
      modifies freqs
      ensures forall k :: 0 <= k < b.count ==> freqs[k] == fs[k]
    {
      for i := 0 to b.count
        invariant forall k :: 0 <= k < i ==> freqs[k] == fs[k]
      {
        freqs[i] := fs[i];
      }
    }

    /** Turns the gaps back into document ids. */
    method FillDocs(b: Block, gaps: seq<uint32>, ghost lo: nat)
      requires docs.Length == BLOCK_SIZE && 0 < b.count <= BLOCK_SIZE && |gaps| == b.count - 1
      requires lo + b.count <= |ps| && b.firstDoc == ps[lo].doc
      requires forall k :: 0 <= k < b.count - 1 ==> gaps[k] == ps[lo + k + 1].doc - ps[lo + k].doc
      modifies docs
      ensures forall k :: 0 <= k < b.count ==> docs[k] == ps[lo + k].doc
    {
      docs[0] := b.firstDoc;
      for i := 1 to b.count
        invariant forall k :: 0 <= k < i ==> docs[k] == ps[lo + k].doc
      {
        assert gaps[i - 1] == ps[lo + i].doc - ps[lo + i - 1].doc;
        docs[i] := docs[i - 1] + gaps[i - 1];
      }
    }

    /** The largest frequency of the shallow block. */
    function BlockMaxFreq(): uint32
      reads this
      requires shallowIdx < |l.blocks|
    {
      l.blocks[shallowIdx].maxFreq
    }

    function BlockLastDoc(): uint32
      reads this
      requires shallowIdx < |l.blocks|
    {
      l.blocks[shallowIdx].lastDoc
    }

    /** Every block the shallow pointer has passed ends before target. */
    ghost predicate ShallowBefore(target: nat)
      reads this
    {
      shallowIdx <= |l.blocks| && forall j :: 0 <= j < shallowIdx ==> l.blocks[j].lastDoc < target
    }

    /** Moves the shallow pointer to the block that could hold target; the position stays. */
    method AdvanceShallow(target: uint32)
      requires Valid() && ShallowBefore(target)
      modifies this`shallowIdx
      ensures Valid() && ShallowBefore(target)
      ensures shallowIdx < |l.blocks| - 1 ==> l.blocks[shallowIdx].lastDoc >= target
      ensures old(shallowIdx) <= shallowIdx
      ensures old(shallowIdx < |l.blocks| && l.blocks[shallowIdx].lastDoc >= target) ==> shallowIdx == old(shallowIdx)
    {
      while shallowIdx < |l.blocks| - 1 && l.blocks[shallowIdx].lastDoc < target
        invariant Valid() && ShallowBefore(target) && old(shallowIdx) <= shallowIdx
        invariant old(shallowIdx < |l.blocks| && l.blocks[shallowIdx].lastDoc >= target) ==> shallowIdx == old(shallowIdx)
      {
        shallowIdx := shallowIdx + 1;
      }
    }
  }

  /** The gaps and frequencies of ps[lo..hi]. */
  ghost predicate StreamsOf(ps: seq<Posting>, lo: nat, hi: nat, gaps: seq<uint32>, fs: seq<uint32>)
  {
    && lo < hi <= |ps| && |gaps| == hi - lo - 1 && |fs| == hi - lo
    && (forall k :: 0 <= k < hi - lo - 1 ==> gaps[k] == ps[lo + k + 1].doc - ps[lo + k].doc)
    && (forall k :: 0 <= k < hi - lo ==> fs[k] == ps[lo + k].freq)
  }

  method DecodeStreams(l: List, j: nat, ghost ps: seq<Posting>) returns (gaps: seq<uint32>, fs: seq<uint32>)
    requires Encodes(l, ps) && j < |l.blocks|
    ensures StreamsOf(ps, BLOCK_SIZE * j, BlockEnd(|ps|, j), gaps, fs)
  {
    ghost var c := BlockHolds(l, ps, j);
    gaps, fs := ReadStreams(l.data[l.blocks[j].offset..], l.blocks[j].count, c);
    StreamsOfSlice(ps, BLOCK_SIZE * j, BlockEnd(|ps|, j), c, gaps, fs);
  }

  lemma BlockHolds(l: List, ps: seq<Posting>, j: nat) returns (c: seq<Posting>)
    requires Encodes(l, ps) && j < |l.blocks|
    ensures BLOCK_SIZE * j < BlockEnd(|ps|, j) <= |ps| && c == ps[BLOCK_SIZE * j..BlockEnd(|ps|, j)] && Ascending(c)
    ensures l.blocks[j].count == |c| <= BLOCK_SIZE && l.blocks[j].offset <= |l.data|
    ensures Payload(c) <= l.data[l.blocks[j].offset..]
  {
    assert Described(l, ps, j);
    assert Holds(l, ps, j);
    c := Chunk(ps, j);
  }

  lemma StreamsOfSlice(ps: seq<Posting>, lo: nat, hi: nat, c: seq<Posting>, gaps: seq<uint32>, fs: seq<uint32>)
    requires lo < hi <= |ps| && c == ps[lo..hi] && Ascending(c) && gaps == Gaps(c) && fs == Freqs(c)
    ensures StreamsOf(ps, lo, hi, gaps, fs)
  {
    forall k | 0 <= k < hi - lo ensures fs[k] == ps[lo + k].freq {
      assert c[k] == ps[lo + k];
    }
    forall k | 0 <= k < hi - lo - 1 ensures gaps[k] == ps[lo + k + 1].doc - ps[lo + k].doc {
      assert c[k] == ps[lo + k] && c[k + 1] == ps[lo + k + 1];
    }
  }

  method ReadStreams(src: seq<byte>, count: nat, ghost c: seq<Posting>)
    returns (gaps: seq<uint32>, fs: seq<uint32>)
    requires Ascending(c) && 0 < |c| == count <= BLOCK_SIZE && Payload(c) <= src
    ensures gaps == Gaps(c) && fs == Freqs(c)
  {
    SplitPrefix(src, GapStream(Gaps(c)), FreqStream(Freqs(c)));
    var pos;
    gaps, pos := ReadGaps(src, count, Gaps(c));
    fs, pos := PForDelta.ReadPForDelta(src[pos..], count, Freqs(c), PForDelta.BestWidth(Freqs(c), 32));
  }

  method ReadGaps(src: seq<byte>, count: nat, ghost gs: seq<uint32>)
    returns (gaps: seq<uint32>, pos: nat)
    requires |gs| + 1 == count && GapStream(gs) <= src
    ensures gaps == gs && pos == |GapStream(gs)|
  {
    if count == BLOCK_SIZE {
      WidthOfIsNarrowest(gs);
      SplitPrefix(src, [WidthOf(gs)], Packed(gs, WidthOf(gs)));
      var w := src[0];
      gaps, pos := UnpackBits(src[1..], count - 1, w, gs);
      pos := pos + 1;
    } else {
      gaps, pos := GroupVarint.ReadGroupVarint(src, count - 1, gs);
    }
  }
}
