/** The forward store: documents in chunks with an offset index (index/forward/forward.go). */
module Forward {
  import opened Bits
  import opened BitPack
  import opened Options

  const NUM_FIELDS: nat := 4
  const CHUNK_DOCS: nat := 16

  type Text = s: seq<byte> | |s| < 0x1_0000_0000_0000_0000

  type uint16 = x: int | 0 <= x < 0x1_0000

  datatype Document = Document(url: Text, title: Text, body: Text, norms: seq<uint16>)

  ghost predicate DocOk(d: Document)
  {
    |d.norms| == NUM_FIELDS
  }

  // ----- one document

  ghost function TextBytes(s: Text): seq<byte>
  {
    Uvarint(|s|) + s
  }

  ghost function NormBytes(ns: seq<uint16>): seq<byte>
  {
    if ns == [] then [] else NormBytes(ns[..|ns| - 1]) + Uvarint(ns[|ns| - 1])
  }

  ghost function DocBytes(d: Document): seq<byte>
  {
    TextBytes(d.url) + (TextBytes(d.title) + (TextBytes(d.body) + NormBytes(d.norms)))
  }

  ghost function AllBytes(ds: seq<Document>): seq<byte>
  {
    if ds == [] then [] else AllBytes(ds[..|ds| - 1]) + DocBytes(ds[|ds| - 1])
  }

  method AppendText(dst: seq<byte>, s: Text) returns (r: seq<byte>)
    ensures r == dst + TextBytes(s)
  {
    r := AppendUvarint(dst, |s|);
    Assoc(dst, Uvarint(|s|), s);
    r := r + s;
  }

  method AppendNorms(dst: seq<byte>, ns: seq<uint16>) returns (r: seq<byte>)
    ensures r == dst + NormBytes(ns)
  {
    r := dst;
    for i := 0 to |ns|
      invariant r == dst + NormBytes(ns[..i])
    {
      assert ns[..i + 1][..i] == ns[..i];
      Assoc(dst, NormBytes(ns[..i]), Uvarint(ns[i]));
      r := AppendUvarint(r, ns[i]);
    }
    assert ns[..|ns|] == ns;
  }

  method AppendDoc(dst: seq<byte>, d: Document) returns (r: seq<byte>)
    ensures r == dst + DocBytes(d)
  {
    var a, b, c, e := TextBytes(d.url), TextBytes(d.title), TextBytes(d.body), NormBytes(d.norms);
    r := AppendText(dst, d.url);
    r := AppendText(r, d.title);
    r := AppendText(r, d.body);
    r := AppendNorms(r, d.norms);
    Assoc(dst + a + b, c, e);
    Assoc(dst + a, b, c + e);
    Assoc(dst, a, b + (c + e));
  }

  // ----- reading

  method ReadText(src: seq<byte>, ghost s: Text) returns (t: Text, n: nat)
    requires TextBytes(s) <= src
    ensures t == s && n == |TextBytes(s)|
  {
    SplitPrefix(src, Uvarint(|s|), s);
    var len, m := ReadUvarint(src, |s|);
    t := src[m..m + len];
    n := m + len;
  }

  method ReadNorms(src: seq<byte>, ghost ns: seq<uint16>) returns (r: seq<uint16>, n: nat)
    requires |ns| == NUM_FIELDS && NormBytes(ns) <= src
    ensures r == ns && n == |NormBytes(ns)|
  {
    r, n := [], 0;
    for i := 0 to NUM_FIELDS
      invariant r == ns[..i] && n == |NormBytes(ns[..i])| <= |src|
    {
      NormPrefix(ns, i + 1);
      assert ns[..i + 1][..i] == ns[..i];
      PrefixTrans(NormBytes(ns[..i + 1]), NormBytes(ns), src);
      SplitPrefix(src, NormBytes(ns[..i]), Uvarint(ns[i]));
      var v, m := ReadUvarint(src[n..], ns[i]);
      r := r + [v % 0x1_0000];
      n := n + m;
    }
    assert ns[..NUM_FIELDS] == ns;
  }

  lemma PrefixTrans(a: seq<byte>, b: seq<byte>, c: seq<byte>)
    requires a <= b && b <= c
    ensures a <= c
  {
  }

  lemma {:induction false} NormPrefix(ns: seq<uint16>, i: nat)
    requires i <= |ns|
    ensures NormBytes(ns[..i]) <= NormBytes(ns)
    decreases |ns|
  {
    if i == |ns| {
      assert ns[..i] == ns;
    } else {
      var n := |ns| - 1;
      NormPrefix(ns[..n], i);
      assert ns[..n][..i] == ns[..i];
      PrefixTrans(NormBytes(ns[..i]), NormBytes(ns[..n]), NormBytes(ns));
    }
  }

  method ReadDoc(src: seq<byte>, ghost d: Document) returns (r: Document, n: nat)
    requires DocOk(d) && DocBytes(d) <= src
    ensures r == d && n == |DocBytes(d)|
  {
    ghost var a, b, c, e := TextBytes(d.url), TextBytes(d.title), TextBytes(d.body), NormBytes(d.norms);
    SplitPrefix(src, a, b + (c + e));
    var url, p1 := ReadText(src, d.url);
    SplitPrefix(src[p1..], b, c + e);
    var title, p2 := ReadText(src[p1..], d.title);
    DropDrop(src, p1, p2);
    SplitPrefix(src[p1 + p2..], c, e);
    var body, p3 := ReadText(src[p1 + p2..], d.body);
    DropDrop(src, p1 + p2, p3);
    var norms, p4 := ReadNorms(src[p1 + p2 + p3..], d.norms);
    r := Document(url, title, body, norms);
    n := p1 + p2 + p3 + p4;
  }

  /** Decodes documents in turn until the n-th. */
  method DecodeNthDoc(buf: seq<byte>, n: nat, ghost ds: seq<Document>) returns (d: Document, ok: bool)
    requires AllBytes(ds) == buf && n < |ds| && forall i :: 0 <= i < |ds| ==> DocOk(ds[i])
    ensures ok && d == ds[n]
  {
    var pos := 0;
    var i := 0;
    assert ds[..0] == [];
    while true
      invariant 0 <= i <= n && pos == |AllBytes(ds[..i])| <= |buf|
      decreases n - i
    {
      NextDoc(ds, i);
      var m;
      d, m := ReadDoc(buf[pos..], ds[i]);
      if i == n {
        return d, true;
      }
      pos := pos + m;
      NextDoc(ds, i + 1);
      if pos >= |buf| {
        return d, false;
      }
      i := i + 1;
    }
  }

  /** Document i follows the bytes of those before it. */
  lemma NextDoc(ds: seq<Document>, i: nat)
    requires i < |ds|
    ensures |AllBytes(ds[..i])| <= |AllBytes(ds)| && DocBytes(ds[i]) <= AllBytes(ds)[|AllBytes(ds[..i])|..]
    ensures |AllBytes(ds[..i + 1])| == |AllBytes(ds[..i])| + |DocBytes(ds[i])|
  {
    assert ds[..i + 1][..i] == ds[..i];
    DocsPrefix(ds, i + 1);
    SplitPrefix(AllBytes(ds), AllBytes(ds[..i]), DocBytes(ds[i]));
  }

  lemma {:induction false} DocsPrefix(ds: seq<Document>, i: nat)
    requires i <= |ds|
    ensures AllBytes(ds[..i]) <= AllBytes(ds)
    decreases |ds|
  {
    if i == |ds| {
      assert ds[..i] == ds;
    } else {
      var n := |ds| - 1;
      DocsPrefix(ds[..n], i);
      assert ds[..n][..i] == ds[..i];
      PrefixTrans(AllBytes(ds[..i]), AllBytes(ds[..n]), AllBytes(ds));
    }
  }

  lemma {:induction false} AllBytesConcat(a: seq<Document>, b: seq<Document>)
    ensures AllBytes(a + b) == AllBytes(a) + AllBytes(b)
  {
    if b == [] {
      assert a + b == a;
    } else {
      var n := |b| - 1;
      assert (a + b)[..|a + b| - 1] == a + b[..n];
      AllBytesConcat(a, b[..n]);
      Assoc(AllBytes(a), AllBytes(b[..n]), DocBytes(b[n]));
    }
  }

  /** The bytes of documents lo to hi. */
  lemma SliceBytes(ds: seq<Document>, lo: nat, hi: nat)
    requires lo <= hi <= |ds|
    ensures |AllBytes(ds[..lo])| <= |AllBytes(ds[..hi])| <= |AllBytes(ds)|
    ensures AllBytes(ds)[|AllBytes(ds[..lo])|..|AllBytes(ds[..hi])|] == AllBytes(ds[lo..hi])
  {
    assert ds[..hi] == ds[..lo] + ds[lo..hi] && ds == ds[..hi] + ds[hi..];
    AllBytesConcat(ds[..lo], ds[lo..hi]);
    AllBytesConcat(ds[..hi], ds[hi..]);
    MiddleOf(AllBytes(ds[..lo]), AllBytes(ds[lo..hi]), AllBytes(ds[hi..]));
  }

  lemma MiddleOf(a: seq<byte>, b: seq<byte>, c: seq<byte>)
    ensures (a + b + c)[|a|..|a + b|] == b
  {
  }

  // ----- chunks

  const ID_SPACE: nat := 0x1_0000_0000

  /** DocID(n): document ids are unsigned 32-bit numbers and wrap. */
  function DocID(n: nat): uint32
  {
    if n < ID_SPACE then n else DocID(n - ID_SPACE)
  }

  lemma {:induction false} DocIDNext(n: nat)
    ensures DocID(DocID(n) + 1) == DocID(n + 1)
  {
    if n >= ID_SPACE { DocIDNext(n - ID_SPACE); }
  }

  /** The id is the remainder. */
  lemma {:induction false} DocIDWraps(n: nat)
    ensures DocID(n) == n % 0x1_0000_0000
  {
    if n >= ID_SPACE { DocIDWraps(n - ID_SPACE); }
  }

  /** Adding without passing the end. */
  lemma {:induction false} DocIDAdd(n: nat, m: nat)
    requires DocID(n) + m < ID_SPACE
    ensures DocID(n + m) == DocID(n) + m
  {
    if n >= ID_SPACE { DocIDAdd(n - ID_SPACE, m); }
  }

  datatype ChunkRef = ChunkRef(firstDoc: uint32, offset: nat, rawLen: nat, count: nat)

  datatype Store = Store(data: seq<byte>, chunks: seq<ChunkRef>)

  function ChunkEnd(n: nat, k: nat): nat
  {
    if CHUNK_DOCS * (k + 1) < n then CHUNK_DOCS * (k + 1) else n
  }

  function NumChunks(n: nat): nat
  {
    (n + 15) / 16
  }

  ghost predicate ChunkIs(r: ChunkRef, ds: seq<Document>, base: uint32, k: nat)
  {
    && CHUNK_DOCS * k < |ds|
    && r.firstDoc == DocID(base + CHUNK_DOCS * k)
    && r.offset == |AllBytes(ds[..CHUNK_DOCS * k])|
    && r.count == ChunkEnd(|ds|, k) - CHUNK_DOCS * k
  }

  /** The store holds ds under ids from base on, which wrap at the end of the id space. */
  ghost predicate Holds(s: Store, ds: seq<Document>, base: uint32)
  {
    && s.data == AllBytes(ds) && |s.chunks| == NumChunks(|ds|)
    && (forall i :: 0 <= i < |ds| ==> DocOk(ds[i]))
    && forall k: nat {:trigger ChunkIs(s.chunks[k], ds, base, k)} :: k < |s.chunks| ==> ChunkIs(s.chunks[k], ds, base, k)
  }

  // ----- reading by id

  /** The binary search for the first chunk that starts after id, on chunks in any order. */
  function SearchChunks(chunks: seq<ChunkRef>, id: uint32, lo: nat, hi: nat): (r: nat)
    requires lo <= hi <= |chunks|
    ensures lo <= r <= hi && (lo < r ==> chunks[r - 1].firstDoc <= id) && (r < hi ==> chunks[r].firstDoc > id)
    decreases hi - lo
  {
    if lo == hi then lo
    else
      var m := (lo + hi) / 2;
      if chunks[m].firstDoc > id then SearchChunks(chunks, id, lo, m) else SearchChunks(chunks, id, m + 1, hi)
  }

  /** The position of the document that is read for id. */
  function Located(s: Store, id: uint32): (r: Option<nat>)
  {
    var i := SearchChunks(s.chunks, id, 0, |s.chunks|);
    if i == 0 || id >= DocID(s.chunks[i - 1].firstDoc + s.chunks[i - 1].count) then None
    else Some(CHUNK_DOCS * (i - 1) + (id - s.chunks[i - 1].firstDoc))
  }

  /** What is found under an id is stored under it. */
  lemma LocatedIsStored(s: Store, id: uint32, ds: seq<Document>, base: uint32)
    requires Holds(s, ds, base) && Located(s, id).Some?
    ensures var p := Located(s, id).value;
            var k := SearchChunks(s.chunks, id, 0, |s.chunks|) - 1;
            p < ChunkEnd(|ds|, k) <= |ds| && id == DocID(base + p)
  {
    var k := SearchChunks(s.chunks, id, 0, |s.chunks|) - 1;
    assert ChunkIs(s.chunks[k], ds, base, k);
    StoredInChunk(s.chunks[k], ds, base, k, id);
  }

  lemma StoredInChunk(r: ChunkRef, ds: seq<Document>, base: uint32, k: nat, id: uint32)
    requires ChunkIs(r, ds, base, k) && r.firstDoc <= id < DocID(r.firstDoc + r.count)
    ensures var p := CHUNK_DOCS * k + (id - r.firstDoc); p < ChunkEnd(|ds|, k) <= |ds| && id == DocID(base + p)
  {
    WithinChunk(r.firstDoc, r.count, id);
    DocIDAdd(base + CHUNK_DOCS * k, id - r.firstDoc);
  }

  lemma WithinChunk(first: uint32, count: nat, id: uint32)
    requires count <= CHUNK_DOCS && first <= id < DocID(first + count)
    ensures id < first + count
  {
  }

  lemma ChunkCovers(s: Store, ds: seq<Document>, base: uint32, k: nat)
    requires Holds(s, ds, base) && base + |ds| < ID_SPACE && k < |s.chunks|
    ensures s.chunks[k].firstDoc == base + CHUNK_DOCS * k
    ensures DocID(s.chunks[k].firstDoc + s.chunks[k].count) == base + ChunkEnd(|ds|, k)
    ensures k == |s.chunks| - 1 <==> ChunkEnd(|ds|, k) == |ds|
  {
    assert ChunkIs(s.chunks[k], ds, base, k);
  }

  /** Below the end of the id space every id is found exactly if it is stored. */
  lemma LocatedExactly(s: Store, id: uint32, ds: seq<Document>, base: uint32)
    requires Holds(s, ds, base) && base + |ds| < ID_SPACE
    ensures Located(s, id) == if base <= id < base + |ds| then Some(id - base) else None
  {
    var i := SearchChunks(s.chunks, id, 0, |s.chunks|);
    if i > 0 { ChunkCovers(s, ds, base, i - 1); }
    if i < |s.chunks| { ChunkCovers(s, ds, base, i); }
  }

  lemma LocatedBelow(s: Store, id: uint32, ds: seq<Document>, base: uint32)
    requires Holds(s, ds, base)
    ensures base + |ds| < ID_SPACE ==> Located(s, id) == if base <= id < base + |ds| then Some(id - base) else None
  {
    if base + |ds| < ID_SPACE { LocatedExactly(s, id, ds, base); }
  }

  /** The largest id is never found: the end of its chunk wraps. */
  lemma LastIdIsMissed(s: Store)
    ensures Located(s, ID_SPACE - 1) == None
  {
  }

  ghost predicate FoundAt(s: Store, base: uint32, p: nat)
  {
    Located(s, DocID(base + p)) == Some(p)
  }

  /** Every document is found under its id if and only if the ids stay below the largest one. */
  lemma AllFoundIff(s: Store, ds: seq<Document>, base: uint32)
    requires Holds(s, ds, base)
    ensures (forall p: nat :: p < |ds| ==> FoundAt(s, base, p)) <==> base + |ds| < ID_SPACE
  {
    if base + |ds| < ID_SPACE {
      forall p: nat | p < |ds| ensures FoundAt(s, base, p) {
        LocatedExactly(s, base + p, ds, base);
      }
    } else {
      LastIdIsMissed(s);
      assert !FoundAt(s, base, ID_SPACE - 1 - base);
    }
  }

  /** The document stored under id: a binary search over chunks, then one chunk decoded. */
  method Get(s: Store, id: uint32, ghost ds: seq<Document>, ghost base: uint32) returns (d: Option<Document>)
    requires Holds(s, ds, base)
    ensures Located(s, id).None? ==> d == None
    ensures Located(s, id).Some? ==> Located(s, id).value < |ds| && d == Some(ds[Located(s, id).value])
    ensures base + |ds| < ID_SPACE ==> d == if base <= id < base + |ds| then Some(ds[id - base]) else None
  {
    d := GetLocated(s, id, ds, base);
    LocatedBelow(s, id, ds, base);
  }

  method GetLocated(s: Store, id: uint32, ghost ds: seq<Document>, ghost base: uint32) returns (d: Option<Document>)
    requires Holds(s, ds, base)
    ensures Located(s, id).None? ==> d == None
    ensures Located(s, id).Some? ==> Located(s, id).value < |ds| && d == Some(ds[Located(s, id).value])
  {
    var i, want, found := Locate(s, id);
    if !found {
      return None;
    }
    d := ReadChunk(s, i, want, ds, base, id);
  }

  /** The chunk that id falls into, and its place there. */
  method Locate(s: Store, id: uint32) returns (i: nat, want: nat, found: bool)
    ensures i == SearchChunks(s.chunks, id, 0, |s.chunks|)
    ensures Located(s, id) == if found then Some(CHUNK_DOCS * (i - 1) + want) else None
    ensures found ==> i > 0
  {
    i := LastChunk(s, id);
    want, found := 0, false;
    if i == 0 {
      return;
    }
    var ref := s.chunks[i - 1];
    if id >= DocID(ref.firstDoc + ref.count) {
      return;
    }
    want, found := id - ref.firstDoc, true;
  }

  /** Decodes one chunk as far as the document wanted. */
  method ReadChunk(s: Store, i: nat, want: nat, ghost ds: seq<Document>, ghost base: uint32, ghost id: uint32) returns (d: Option<Document>)
    requires Holds(s, ds, base) && i == SearchChunks(s.chunks, id, 0, |s.chunks|) && i > 0
    requires Located(s, id) == Some(CHUNK_DOCS * (i - 1) + want)
    ensures CHUNK_DOCS * (i - 1) + want < |ds| && d == Some(ds[CHUNK_DOCS * (i - 1) + want])
  {
    LocatedIsStored(s, id, ds, base);
    ghost var lo, hi := CHUNK_DOCS * (i - 1), ChunkEnd(|ds|, i - 1);
    var end := |s.data|;
    if i < |s.chunks| {
      end := s.chunks[i].offset;
    }
    ChunkPayload(s, ds, base, i, end);
    var doc, ok := DecodeNthDoc(s.data[s.chunks[i - 1].offset..end], want, ds[lo..hi]);
    d := if ok then Some(doc) else None;
  }

  /** How many chunks start at or before id, by halving. */
  method LastChunk(s: Store, id: uint32) returns (i: nat)
    ensures i == SearchChunks(s.chunks, id, 0, |s.chunks|)
  {
    i := 0;
    var hi := |s.chunks|;
    while i < hi
      invariant 0 <= i <= hi <= |s.chunks|
      invariant SearchChunks(s.chunks, id, i, hi) == SearchChunks(s.chunks, id, 0, |s.chunks|)
    {
      var m := (i + hi) / 2;
      if s.chunks[m].firstDoc > id {
        hi := m;
      } else {
        i := m + 1;
      }
    }
  }

  lemma ChunkPayload(s: Store, ds: seq<Document>, base: uint32, i: nat, end: nat)
    requires Holds(s, ds, base) && 0 < i <= |s.chunks| && end == (if i < |s.chunks| then s.chunks[i].offset else |s.data|)
    ensures var lo, hi := CHUNK_DOCS * (i - 1), ChunkEnd(|ds|, i - 1);
            lo <= hi <= |ds| && s.chunks[i - 1].offset <= end <= |s.data| && s.data[s.chunks[i - 1].offset..end] == AllBytes(ds[lo..hi])
  {
    assert ChunkIs(s.chunks[i - 1], ds, base, i - 1);
    var lo, hi := CHUNK_DOCS * (i - 1), ChunkEnd(|ds|, i - 1);
    if i < |s.chunks| {
      assert ChunkIs(s.chunks[i], ds, base, i);
    } else {
      assert ds[..hi] == ds;
    }
    SliceBytes(ds, lo, hi);
  }

  class Writer {
    var data: seq<byte>
    var chunks: seq<ChunkRef>
    var buf: seq<byte>
    var bufFirst: uint32
    var bufCount: nat
    var nextDoc: uint32
    var started: bool
    ghost var docs: seq<Document>
    ghost var base: uint32

    constructor ()
      ensures Valid() && docs == [] && !started
    {
      data, chunks, buf, bufFirst, bufCount, nextDoc, started, docs, base := [], [], [], 0, 0, 0, false, [], 0;
    }

    /** Full chunks are written, the rest is buffered. */
    ghost predicate Valid()
      reads this
    {
      && bufCount < CHUNK_DOCS && Pending(data, chunks, buf, bufFirst, bufCount, docs, base)
      && Numbered(started, nextDoc, docs, base)
    }

    method Add(id: uint32, doc: Document) returns (ok: bool)
      requires Valid() && DocOk(doc)
      modifies this
      ensures Valid() && (ok <==> !old(started) || id == old(nextDoc))
      ensures !ok ==> docs == old(docs) && base == old(base) && started == old(started) && nextDoc == old(nextDoc)
      ensures ok ==> started && docs == old(docs) + [doc] && base == (if old(started) then old(base) else id) && nextDoc == DocID(id + 1)
    {
      if started && id != nextDoc {
        return false;
      }
      AddMore(data, chunks, buf, bufFirst, bufCount, started, nextDoc, docs, base, id, doc);
      Append(id, doc);
      if bufCount >= CHUNK_DOCS {
        Flush();
      }
      return true;
    }

    method Append(id: uint32, doc: Document)
      modifies this`base, this`started, this`nextDoc, this`bufFirst, this`buf, this`bufCount, this`docs
      ensures started && nextDoc == DocID(id + 1) && base == if old(started) then old(base) else id
      ensures bufFirst == (if old(bufCount) == 0 then id else old(bufFirst)) && buf == old(buf) + DocBytes(doc)
      ensures bufCount == old(bufCount) + 1 && docs == old(docs) + [doc]
    {
      if !started { base := id; }
      started := true;
      nextDoc := DocID(id + 1);
      if bufCount == 0 {
        bufFirst := id;
      }
      buf := AppendDoc(buf, doc);
      bufCount := bufCount + 1;
      docs := docs + [doc];
    }

    method Flush()
      requires Pending(data, chunks, buf, bufFirst, bufCount, docs, base)
      modifies this`data, this`chunks, this`buf, this`bufCount
      ensures bufCount == 0 && (old(bufCount) < CHUNK_DOCS ==> Holds(Store(data, chunks), docs, base))
      ensures old(bufCount) == CHUNK_DOCS ==> Pending(data, chunks, buf, bufFirst, bufCount, docs, base)
    {
      FlushAll(data, chunks, buf, bufFirst, bufCount, docs, base);
      if bufCount == 0 {
        return;
      }
      var ref := ChunkRef(bufFirst, |data|, |buf|, bufCount);
      data := data + buf;
      chunks := chunks + [ref];
      buf, bufCount := [], 0;
    }

    method Seal() returns (s: Store)
      requires Valid()
      modifies this`data, this`chunks, this`buf, this`bufCount
      ensures Holds(s, docs, base) && docs == old(docs) && base == old(base)
    {
      ghost var ds := docs;
      Flush();
      s := Store(data, chunks);
    }
  }

  /** data and chunks hold the full chunks of ds, buf the rest. */
  ghost predicate Buffered(data: seq<byte>, chunks: seq<ChunkRef>, buf: seq<byte>, count: nat, ds: seq<Document>, base: uint32)
  {
    && |ds| == CHUNK_DOCS * |chunks| + count
    && data == AllBytes(ds[..CHUNK_DOCS * |chunks|]) && buf == AllBytes(ds[CHUNK_DOCS * |chunks|..])
    && (forall i :: 0 <= i < |ds| ==> DocOk(ds[i]))
    && forall k: nat {:trigger ChunkIs(chunks[k], ds, base, k)} :: k < |chunks| ==> ChunkIs(chunks[k], ds, base, k)
  }

  /** The buffer starts with the next chunk's first document. */
  ghost predicate Pending(data: seq<byte>, chunks: seq<ChunkRef>, buf: seq<byte>, first: uint32, count: nat, ds: seq<Document>, base: uint32)
  {
    && Buffered(data, chunks, buf, count, ds, base) && count <= CHUNK_DOCS
    && (count > 0 ==> first == DocID(base + CHUNK_DOCS * |chunks|))
  }

  ghost predicate Numbered(started: bool, next: uint32, ds: seq<Document>, base: uint32)
  {
    if started then next == DocID(base + |ds|) else ds == []
  }

  lemma AddMore(data: seq<byte>, chunks: seq<ChunkRef>, buf: seq<byte>, first: uint32, count: nat, started: bool, next: uint32,
                ds: seq<Document>, base: uint32, id: uint32, d: Document)
    requires Pending(data, chunks, buf, first, count, ds, base) && Numbered(started, next, ds, base) && count < CHUNK_DOCS
    requires (started ==> id == next) && DocOk(d)
    ensures var base' := if started then base else id;
            && Numbered(true, DocID(id + 1), ds + [d], base')
            && Pending(data, chunks, buf + DocBytes(d), if count == 0 then id else first, count + 1, ds + [d], base')
  {
    var base' := if started then base else id;
    NumberMore(started, next, ds, base, id, d);
    if !started { NothingBuffered(data, chunks, buf, first, count, base, id); }
    PendingMore(data, chunks, buf, first, count, ds, base', id, d);
  }

  lemma NumberMore(started: bool, next: uint32, ds: seq<Document>, base: uint32, id: uint32, d: Document)
    requires Numbered(started, next, ds, base) && (started ==> id == next)
    ensures var base' := if started then base else id;
            id == DocID(base' + |ds|) && Numbered(true, DocID(id + 1), ds + [d], base')
  {
    DocIDNext((if started then base else id) + |ds|);
  }

  lemma PendingMore(data: seq<byte>, chunks: seq<ChunkRef>, buf: seq<byte>, first: uint32, count: nat, ds: seq<Document>, base: uint32,
                    id: uint32, d: Document)
    requires Pending(data, chunks, buf, first, count, ds, base) && count < CHUNK_DOCS && id == DocID(base + |ds|) && DocOk(d)
    ensures Pending(data, chunks, buf + DocBytes(d), if count == 0 then id else first, count + 1, ds + [d], base)
  {
    BufferMore(data, chunks, buf, count, ds, base, d);
  }

  lemma ChunkStays(r: ChunkRef, ds: seq<Document>, d: Document, base: uint32, k: nat)
    requires ChunkIs(r, ds, base, k) && CHUNK_DOCS * (k + 1) <= |ds|
    ensures ChunkIs(r, ds + [d], base, k)
  {
    assert (ds + [d])[..CHUNK_DOCS * k] == ds[..CHUNK_DOCS * k];
  }

  lemma NothingBuffered(data: seq<byte>, chunks: seq<ChunkRef>, buf: seq<byte>, first: uint32, count: nat, base: uint32, base': uint32)
    requires Pending(data, chunks, buf, first, count, [], base)
    ensures Pending(data, chunks, buf, first, count, [], base')
  {
  }

  lemma BufferMore(data: seq<byte>, chunks: seq<ChunkRef>, buf: seq<byte>, count: nat, ds: seq<Document>, base: uint32, d: Document)
    requires Buffered(data, chunks, buf, count, ds, base) && DocOk(d)
    ensures Buffered(data, chunks, buf + DocBytes(d), count + 1, ds + [d], base)
  {
    var n, ds' := CHUNK_DOCS * |chunks|, ds + [d];
    assert ds'[..n] == ds[..n] && ds'[n..] == ds[n..] + [d];
    assert (ds[n..] + [d])[..|ds[n..]|] == ds[n..];
    forall k: nat | k < |chunks| ensures ChunkIs(chunks[k], ds', base, k) {
      assert ChunkIs(chunks[k], ds, base, k);
      ChunkStays(chunks[k], ds, d, base, k);
    }
  }

  /** Writing the buffer out as one more chunk. */
  lemma FlushAll(data: seq<byte>, chunks: seq<ChunkRef>, buf: seq<byte>, first: uint32, count: nat, ds: seq<Document>, base: uint32)
    requires Pending(data, chunks, buf, first, count, ds, base)
    ensures count == 0 ==> Holds(Store(data, chunks), ds, base)
    ensures count > 0 ==> Holds(Store(data + buf, chunks + [ChunkRef(first, |data|, |buf|, count)]), ds, base)
    ensures count == CHUNK_DOCS ==>
              Pending(data + buf, chunks + [ChunkRef(first, |data|, |buf|, count)], [], first, 0, ds, base)
  {
    var n := CHUNK_DOCS * |chunks|;
    assert ds == ds[..n] + ds[n..];
    AllBytesConcat(ds[..n], ds[n..]);
    if count == 0 {
      assert ds[..n] == ds;
    } else {
      var chunks' := chunks + [ChunkRef(first, |data|, |buf|, count)];
      ChunksMore(chunks, ChunkRef(first, |data|, |buf|, count), ds, base);
      if count == CHUNK_DOCS {
        assert ds[..CHUNK_DOCS * |chunks'|] == ds && ds[CHUNK_DOCS * |chunks'|..] == [];
      }
    }
  }

  lemma ChunksMore(chunks: seq<ChunkRef>, ref: ChunkRef, ds: seq<Document>, base: uint32)
    requires forall k: nat {:trigger ChunkIs(chunks[k], ds, base, k)} :: k < |chunks| ==> ChunkIs(chunks[k], ds, base, k)
    requires ChunkIs(ref, ds, base, |chunks|)
    ensures var chunks' := chunks + [ref];
            forall k: nat {:trigger ChunkIs(chunks'[k], ds, base, k)} :: k < |chunks'| ==> ChunkIs(chunks'[k], ds, base, k)
  {
    var chunks' := chunks + [ref];
    forall k: nat | k < |chunks'| ensures ChunkIs(chunks'[k], ds, base, k) {
      if k < |chunks| { assert ChunkIs(chunks[k], ds, base, k); }
    }
  }
}
