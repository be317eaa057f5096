/** The adjacency index: every link written forwards and backwards (storage/linkgraph.go). */
module LinkGraph {
  import opened Bits
  import opened Lexical
  import opened Options
  import opened OrderedBytes
  import opened Engine
  import WebTable

  const FORWARD: byte := 0x46
  const BACK: byte := 0x42

  /** tag | ordered(a) | ordered(b). */
  function EdgeKey(tag: byte, a: Bytes, b: Bytes): Bytes
  {
    [tag] + Encoded(a) + Encoded(b)
  }

  function NodePrefix(tag: byte, a: Bytes): Bytes
  {
    [tag] + Encoded(a)
  }

  lemma EdgeShape(tag: byte, a: Bytes, b: Bytes)
    ensures EdgeKey(tag, a, b) == NodePrefix(tag, a) + Encoded(b) && EdgeKey(tag, a, b)[0] == tag
    ensures EdgeKey(tag, a, b)[1..] == Encoded(a) + Encoded(b)
  {
  }

  lemma EdgeKeyInjective(tag: byte, a: Bytes, b: Bytes, tag': byte, a': Bytes, b': Bytes)
    requires EdgeKey(tag, a, b) == EdgeKey(tag', a', b')
    ensures tag == tag' && a == a' && b == b'
  {
    EdgeShape(tag, a, b);
    EdgeShape(tag', a', b');
    EncodedInjective(a, a', Encoded(b), Encoded(b'));
    assert Encoded(b) + [] == Encoded(b) && Encoded(b') + [] == Encoded(b');
    EncodedInjective(b, b', [], []);
  }

  lemma NodePrefixSelects(tag: byte, a: Bytes, b: Bytes, tag': byte, a': Bytes)
    ensures NodePrefix(tag', a') <= EdgeKey(tag, a, b) <==> tag == tag' && a == a'
  {
    Associative([tag], Encoded(a), Encoded(b));
    HeadLeads(tag', Encoded(a'), tag, Encoded(a) + Encoded(b));
    SegmentLeads(a', a, Encoded(b));
  }

  lemma HeadLeads(x: byte, p: Bytes, y: byte, k: Bytes)
    ensures [x] + p <= [y] + k <==> x == y && p <= k
  {
    assert ([x] + p)[0] == x && ([y] + k)[0] == y && ([y] + k)[1..] == k;
    if [x] + p <= [y] + k {
      SplitAt([x] + p, [y] + k);
      Associative([x], p, ([y] + k)[|[x] + p|..]);
      assert ([x] + (p + ([y] + k)[|[x] + p|..]))[1..] == p + ([y] + k)[|[x] + p|..];
    }
    if x == y && p <= k {
      SplitAt(p, k);
      Associative([x], p, k[|p|..]);
    }
  }

  // ----- the graph a key space denotes

  ghost predicate IsEdge(k: Bytes)
  {
    exists tag, a, b :: IsTag(tag) && k == EdgeKey(tag, a, b)
  }

  ghost predicate IsTag(tag: byte)
  {
    tag == FORWARD || tag == BACK
  }

  /** The engine holds edges, and perhaps the cells of a web table that shares it. */
  ghost predicate Shared(kv: Kv)
  {
    forall k :: k in kv ==> IsEdge(k) || WebTable.IsCell(k)
  }

  /** Each link is there in both directions with one anchor. */
  ghost predicate Mirrored(kv: Kv)
  {
    && (forall a, b :: EdgeKey(FORWARD, a, b) in kv <==> EdgeKey(BACK, b, a) in kv)
    && (forall a, b :: EdgeKey(FORWARD, a, b) in kv ==> kv[EdgeKey(FORWARD, a, b)] == kv[EdgeKey(BACK, b, a)])
  }

  lemma LinkKeepsMirror(kv: Kv, src: Bytes, dst: Bytes, anchor: Bytes)
    requires Mirrored(kv)
    ensures Mirrored(kv[EdgeKey(FORWARD, src, dst) := anchor][EdgeKey(BACK, dst, src) := anchor])
  {
    var kv' := kv[EdgeKey(FORWARD, src, dst) := anchor][EdgeKey(BACK, dst, src) := anchor];
    forall a, b
      ensures EdgeKey(FORWARD, a, b) in kv' <==> EdgeKey(BACK, b, a) in kv'
      ensures EdgeKey(FORWARD, a, b) in kv' ==> kv'[EdgeKey(FORWARD, a, b)] == kv'[EdgeKey(BACK, b, a)]
    {
      WriteAt(kv, src, dst, anchor, FORWARD, a, b);
      WriteAt(kv, src, dst, anchor, BACK, b, a);
    }
  }

  /** What a write of both directions does to one edge key. */
  lemma WriteAt(kv: Kv, src: Bytes, dst: Bytes, anchor: Bytes, tag: byte, a: Bytes, b: Bytes)
    requires IsTag(tag)
    ensures var kv' := kv[EdgeKey(FORWARD, src, dst) := anchor][EdgeKey(BACK, dst, src) := anchor];
            var k := EdgeKey(tag, a, b);
            if (if tag == FORWARD then a == src && b == dst else a == dst && b == src) then k in kv' && kv'[k] == anchor
            else (k in kv' <==> k in kv) && (k in kv ==> kv'[k] == kv[k])
  {
    var k := EdgeKey(tag, a, b);
    if k == EdgeKey(FORWARD, src, dst) { EdgeKeyInjective(tag, a, b, FORWARD, src, dst); }
    if k == EdgeKey(BACK, dst, src) { EdgeKeyInjective(tag, a, b, BACK, dst, src); }
  }

  // ----- scans

  datatype Edge = Edge(node: Bytes, anchor: Bytes)

  /** out lists exactly the edges of one node in one direction, by the other endpoint. */
  ghost predicate ListsEdges(kv: Kv, tag: byte, a: Bytes, out: seq<Edge>)
  {
    && (forall i, j :: 0 <= i < j < |out| ==> Lex(out[i].node, out[j].node))
    && (forall b, anchor :: Edge(b, anchor) in out <==> EdgeKey(tag, a, b) in kv && kv[EdgeKey(tag, a, b)] == anchor)
  }

  lemma EdgeOrder(tag: byte, a: Bytes, b: Bytes, c: Bytes)
    requires b != c
    ensures Lex(EdgeKey(tag, a, b), EdgeKey(tag, a, c)) <==> Lex(b, c)
  {
    EdgeShape(tag, a, b);
    EdgeShape(tag, a, c);
    LexPrefix(NodePrefix(tag, a), Encoded(b), Encoded(c));
    assert Encoded(b) + [] == Encoded(b) && Encoded(c) + [] == Encoded(c);
    EncodedOrder(b, c, [], []);
  }

  /** What the scan makes of an entry: the segment after the prefix and the value. */
  ghost predicate Reads(p: Bytes, e: Entry, x: Edge)
  {
    p <= e.key && x == Edge(Decoded(e.key[|p|..]), e.value)
  }

  /** out is what is read off the entries under a node's prefix. */
  ghost predicate IsScan(kv: Kv, p: Bytes, es: seq<Entry>, out: seq<Edge>)
  {
    && |out| == |es|
    && (forall i :: 0 <= i < |es| ==> Stored(kv, es[i]) && Reads(p, es[i], out[i]))
    && (forall i, j :: 0 <= i < j < |es| ==> Lex(es[i].key, es[j].key))
    && (forall k :: k in kv && p <= k ==> Entry(k, kv[k]) in es)
  }

  ghost predicate Stored(kv: Kv, e: Entry)
  {
    e.key in kv && kv[e.key] == e.value
  }

  lemma ScanIs(kv: Kv, p: Bytes, es: seq<Entry>, end: Option<Bytes>, out: seq<Edge>)
    requires ListsRange(es, kv, p, end) && |out| == |es| && forall i :: 0 <= i < |es| ==> Reads(p, es[i], out[i])
    requires forall k: Bytes :: p <= k <==> InRange(k, p, end)
    ensures IsScan(kv, p, es, out)
  {
    forall k | k in kv && p <= k ensures Entry(k, kv[k]) in es {
      assert InRange(k, p, end);
      var i :| 0 <= i < |es| && es[i].key == k;
      assert es[i] == Entry(k, kv[k]);
    }
  }

  lemma ReadsEdge(tag: byte, a: Bytes, b: Bytes, v: Bytes)
    ensures Reads(NodePrefix(tag, a), Entry(EdgeKey(tag, a, b), v), Edge(b, v))
  {
    EdgeShape(tag, a, b);
    var p := NodePrefix(tag, a);
    assert EdgeKey(tag, a, b)[|p|..] == Encoded(b) + [];
    DecodedEncoded(b, []);
  }

  /** A stored edge of the node is listed. */
  lemma EdgeIsListed(kv: Kv, tag: byte, a: Bytes, es: seq<Entry>, out: seq<Edge>, b: Bytes) returns (i: nat)
    requires IsScan(kv, NodePrefix(tag, a), es, out) && EdgeKey(tag, a, b) in kv
    ensures i < |es| && es[i].key == EdgeKey(tag, a, b) && out[i] == Edge(b, kv[EdgeKey(tag, a, b)])
  {
    var k := EdgeKey(tag, a, b);
    ReadsEdge(tag, a, b, kv[k]);
    i :| 0 <= i < |es| && es[i] == Entry(k, kv[k]);
    assert Reads(NodePrefix(tag, a), es[i], out[i]);
  }

  /** No key under the node's prefix but its edges. */
  ghost predicate OnlyEdges(kv: Kv, tag: byte, a: Bytes)
  {
    forall k :: k in kv && NodePrefix(tag, a) <= k ==> exists b :: k == EdgeKey(tag, a, b)
  }

  lemma OnlyEdgesListed(kv: Kv, tag: byte, a: Bytes, es: seq<Entry>, out: seq<Edge>, i: nat)
    requires IsScan(kv, NodePrefix(tag, a), es, out) && OnlyEdges(kv, tag, a) && i < |es|
    ensures es[i].key == EdgeKey(tag, a, out[i].node) && Stored(kv, es[i]) && out[i].anchor == es[i].value
  {
    assert Stored(kv, es[i]) && Reads(NodePrefix(tag, a), es[i], out[i]);
    var b :| es[i].key == EdgeKey(tag, a, b);
    ReadsEdge(tag, a, b, es[i].value);
  }

  lemma EdgesListed(kv: Kv, tag: byte, a: Bytes, es: seq<Entry>, out: seq<Edge>)
    requires IsScan(kv, NodePrefix(tag, a), es, out) && OnlyEdges(kv, tag, a)
    ensures ListsEdges(kv, tag, a, out)
  {
    forall i, j | 0 <= i < j < |out| ensures Lex(out[i].node, out[j].node) {
      OnlyEdgesListed(kv, tag, a, es, out, i);
      OnlyEdgesListed(kv, tag, a, es, out, j);
      LexIrreflexive(es[i].key);
      EdgeOrder(tag, a, out[i].node, out[j].node);
    }
    forall b, anchor ensures Edge(b, anchor) in out <==> EdgeKey(tag, a, b) in kv && kv[EdgeKey(tag, a, b)] == anchor {
      if i: nat :| i < |out| && out[i] == Edge(b, anchor) {
        OnlyEdgesListed(kv, tag, a, es, out, i);
      }
      if EdgeKey(tag, a, b) in kv {
        var i := EdgeIsListed(kv, tag, a, es, out, b);
      }
    }
  }

  /** A key that is no edge shows up as one too many. */
  lemma StrayIsListed(kv: Kv, tag: byte, a: Bytes, es: seq<Entry>, out: seq<Edge>, k: Bytes)
    requires IsScan(kv, NodePrefix(tag, a), es, out) && k in kv && NodePrefix(tag, a) <= k
    requires forall b :: k != EdgeKey(tag, a, b)
    ensures !ListsEdges(kv, tag, a, out)
  {
    var i :| 0 <= i < |es| && es[i] == Entry(k, kv[k]);
    assert out[i] in out;
    if EdgeKey(tag, a, out[i].node) in kv {
      var j := EdgeIsListed(kv, tag, a, es, out, out[i].node);
      ListedTwice(kv, tag, a, out, i, j);
    } else {
      NotStored(kv, tag, a, out, out[i]);
    }
  }

  lemma ListedTwice(kv: Kv, tag: byte, a: Bytes, out: seq<Edge>, i: nat, j: nat)
    requires i < |out| && j < |out| && i != j && out[i].node == out[j].node
    ensures !ListsEdges(kv, tag, a, out)
  {
    LexIrreflexive(out[i].node);
    if i < j { assert !Lex(out[i].node, out[j].node); } else { assert !Lex(out[j].node, out[i].node); }
  }

  lemma NotStored(kv: Kv, tag: byte, a: Bytes, out: seq<Edge>, x: Edge)
    requires x in out && EdgeKey(tag, a, x.node) !in kv
    ensures !ListsEdges(kv, tag, a, out)
  {
    assert x == Edge(x.node, x.anchor);
  }

  /** The scan lists exactly the node's edges if and only if nothing else is stored under its prefix. */
  lemma ScanListsEdgesIff(kv: Kv, tag: byte, a: Bytes, es: seq<Entry>, out: seq<Edge>)
    requires IsScan(kv, NodePrefix(tag, a), es, out)
    ensures ListsEdges(kv, tag, a, out) <==> OnlyEdges(kv, tag, a)
  {
    if OnlyEdges(kv, tag, a) {
      EdgesListed(kv, tag, a, es, out);
    } else {
      var k :| k in kv && NodePrefix(tag, a) <= k && forall b :: k != EdgeKey(tag, a, b);
      StrayIsListed(kv, tag, a, es, out, k);
    }
  }

  // ----- sharing an engine with a web table

  /** A node's prefix is the encoding of the row made of the tag and the node. */
  lemma NodePrefixIsRow(tag: byte, a: Bytes)
    requires tag != 0
    ensures NodePrefix(tag, a) == Encoded([tag] + a)
  {
    assert ([tag] + a)[1..] == a;
  }

  /** A cell lies under a node's prefix exactly if its row is the tag and the node. */
  lemma CellUnderNodeIff(tag: byte, a: Bytes, row: Bytes, fam: byte, qual: Bytes, ts: uint64)
    requires tag != 0
    ensures NodePrefix(tag, a) <= WebTable.CellKey(row, fam, qual, ts) <==> row == [tag] + a
  {
    NodePrefixIsRow(tag, a);
    WebTable.CellShape(row, fam, qual, ts);
    SegmentLeads([tag] + a, row, [fam] + (Encoded(qual) + WebTable.Stamp(ts)));
  }

  /** A segment read off what follows the row in a cell key leaves the stamp unread. */
  lemma StampIsLeft(fam: byte, qual: Bytes, stamp: Bytes, b: Bytes, rest: Bytes)
    requires [fam] + (Encoded(qual) + stamp) == Encoded(b) + rest
    ensures |rest| >= |stamp|
  {
    var k := [fam] + (Encoded(qual) + stamp);
    if fam != 0 {
      assert ([fam] + qual)[1..] == qual;
      assert k == Encoded([fam] + qual) + stamp;
      EncodedInjective([fam] + qual, b, stamp, rest);
    } else if b != [] {
      FirstByte(b, rest);
      FirstByte(qual, stamp);
      assert k[1] == (Encoded(qual) + stamp)[0];
      assert k[2..] == (Encoded(qual) + stamp)[1..];
      EncodedInjective(qual[1..], b[1..], stamp, rest);
    }
  }

  lemma FirstByte(s: Bytes, rest: Bytes)
    ensures (Encoded(s) + rest)[0] == if s == [] then 0 else s[0]
    ensures s != [] && s[0] == 0 ==> (Encoded(s) + rest)[1] == 0xFF && (Encoded(s) + rest)[2..] == Encoded(s[1..]) + rest
    ensures s != [] && s[0] != 0 ==> (Encoded(s) + rest)[1..] == Encoded(s[1..]) + rest
  {
  }

  lemma CellIsNoEdge(tag: byte, a: Bytes, b: Bytes, fam: byte, qual: Bytes, ts: uint64)
    requires tag != 0
    ensures WebTable.CellKey([tag] + a, fam, qual, ts) != EdgeKey(tag, a, b)
  {
    NodePrefixIsRow(tag, a);
    WebTable.CellShape([tag] + a, fam, qual, ts);
    EdgeShape(tag, a, b);
    var p, k := NodePrefix(tag, a), WebTable.CellKey([tag] + a, fam, qual, ts);
    assert k[|p|..] == [fam] + (Encoded(qual) + WebTable.Stamp(ts));
    assert EdgeKey(tag, a, b)[|p|..] == Encoded(b) + [];
    if k == EdgeKey(tag, a, b) {
      StampIsLeft(fam, qual, WebTable.Stamp(ts), b, []);
    }
  }

  ghost predicate HasRow(kv: Kv, row: Bytes)
  {
    exists fam, qual, ts :: WebTable.CellKey(row, fam, qual, ts) in kv
  }

  /** On a shared engine only edges lie under a node's prefix exactly if the table has no such row. */
  lemma OnlyEdgesIff(kv: Kv, tag: byte, a: Bytes)
    requires Shared(kv) && IsTag(tag)
    ensures OnlyEdges(kv, tag, a) <==> !HasRow(kv, [tag] + a)
  {
    if fam, qual, ts :| WebTable.CellKey([tag] + a, fam, qual, ts) in kv {
      var k := WebTable.CellKey([tag] + a, fam, qual, ts);
      CellUnderNodeIff(tag, a, [tag] + a, fam, qual, ts);
      forall b ensures k != EdgeKey(tag, a, b) { CellIsNoEdge(tag, a, b, fam, qual, ts); }
    } else {
      forall k | k in kv && NodePrefix(tag, a) <= k ensures exists b :: k == EdgeKey(tag, a, b) {
        assert IsEdge(k) || WebTable.IsCell(k);
        if row, fam, qual, ts :| k == WebTable.CellKey(row, fam, qual, ts) {
          CellUnderNodeIff(tag, a, row, fam, qual, ts);
        } else {
          var t, x, y :| IsTag(t) && k == EdgeKey(t, x, y);
          NodePrefixSelects(t, x, y, tag, a);
        }
      }
    }
  }

  /** A scan on a shared engine lists exactly the node's edges if and only if the table has no row made
      of the tag and the node. */
  lemma SharingIsSafeIff(kv: Kv, tag: byte, a: Bytes, es: seq<Entry>, out: seq<Edge>)
    requires Shared(kv) && IsTag(tag) && IsScan(kv, NodePrefix(tag, a), es, out)
    ensures ListsEdges(kv, tag, a, out) <==> !HasRow(kv, [tag] + a)
  {
    ScanListsEdgesIff(kv, tag, a, es, out);
    OnlyEdgesIff(kv, tag, a);
  }

  /** An edge lies in a family of the table exactly if the row is the tag and the node, and the other
      endpoint's encoding starts with the family. */
  lemma EdgeInFamilyIff(tag: byte, a: Bytes, b: Bytes, row: Bytes, fam: byte)
    requires tag != 0
    ensures WebTable.FamilyPrefix(row, fam) <= EdgeKey(tag, a, b) <==> row == [tag] + a && fam == Encoded(b)[0]
  {
    NodePrefixIsRow(tag, a);
    EdgeShape(tag, a, b);
    SegmentAndByteLead(row, fam, [tag] + a, Encoded(b));
  }

  /** On a shared engine a family of the table holds only cells exactly if no edge falls into it. */
  lemma OnlyCellsIff(kv: Kv, row: Bytes, fam: byte)
    requires Shared(kv)
    ensures WebTable.OnlyCells(kv, row, fam) <==>
              forall tag: byte, a, b :: IsTag(tag) && EdgeKey(tag, a, b) in kv ==> !(row == [tag] + a && fam == Encoded(b)[0])
  {
    forall tag: byte, a, b | IsTag(tag) && EdgeKey(tag, a, b) in kv
      ensures WebTable.FamilyPrefix(row, fam) <= EdgeKey(tag, a, b) <==> row == [tag] + a && fam == Encoded(b)[0]
      ensures !WebTable.IsCell(EdgeKey(tag, a, b))
    {
      EdgeInFamilyIff(tag, a, b, row, fam);
      EdgeIsNoCell(tag, a, b);
    }
  }

  lemma EdgeIsNoCell(tag: byte, a: Bytes, b: Bytes)
    requires tag != 0
    ensures !WebTable.IsCell(EdgeKey(tag, a, b))
  {
    forall row, fam, qual, ts ensures EdgeKey(tag, a, b) != WebTable.CellKey(row, fam, qual, ts) {
      EdgeShape(tag, a, b);
      CellUnderNodeIff(tag, a, row, fam, qual, ts);
      CellIsNoEdge(tag, a, b, fam, qual, ts);
    }
  }

  /** The edge an entry under a prefix is taken for. */
  method ReadOff(p: Bytes, es: seq<Entry>) returns (out: seq<Edge>)
    requires forall i :: 0 <= i < |es| ==> p <= es[i].key
    ensures |out| == |es| && forall i :: 0 <= i < |es| ==> Reads(p, es[i], out[i])
  {
    out := [];
    for i := 0 to |es|
      invariant |out| == i && forall j :: 0 <= j < i ==> Reads(p, es[j], out[j])
    {
      var node := DecodeOrdered(es[i].key[|p|..]);
      out := out + [Edge(node, es[i].value)];
    }
  }

  class LinkGraph {
    const eng: MemEngine

    constructor (eng: MemEngine)
      ensures this.eng == eng
    {
      this.eng := eng;
    }

    ghost predicate Valid()
      reads eng
    {
      eng.Valid() && Mirrored(eng.kv) && Shared(eng.kv)
    }

    /** Writes both directions in one batch. */
    method AddLink(src: Bytes, dst: Bytes, anchor: Bytes)
      requires Valid()
      modifies eng
      ensures Valid() && eng.kv == old(eng.kv)[EdgeKey(FORWARD, src, dst) := anchor][EdgeKey(BACK, dst, src) := anchor]
    {
      var f, b := OpSet(EdgeKey(FORWARD, src, dst), anchor), OpSet(EdgeKey(BACK, dst, src), anchor);
      LinkKeepsMirror(eng.kv, src, dst, anchor);
      TwoOps(eng.kv, f, b);
      eng.Apply([f, b]);
    }

    /** Walks the keys under a node's prefix, whatever they are. */
    method ScanEdges(tag: byte, a: Bytes) returns (out: seq<Edge>)
      requires Valid() && IsTag(tag)
      ensures ListsEdges(eng.kv, tag, a, out) <==> !HasRow(eng.kv, [tag] + a)
    {
      var prefix := NodePrefix(tag, a);
      var end := PrefixEnd(prefix);
      LexIrreflexive(prefix);
      if end.Some? {
        assert prefix <= prefix;
        LexAsymmetric(prefix, end.value);
      }
      ForwardsIsFine(eng.kv, prefix, end);
      var es := eng.Scan(prefix, end);
      out := ReadOff(prefix, es);
      ScanIs(eng.kv, prefix, es, end, out);
      SharingIsSafeIff(eng.kv, tag, a, es, out);
    }

    method OutLinks(src: Bytes) returns (out: seq<Edge>)
      requires Valid()
      ensures ListsEdges(eng.kv, FORWARD, src, out) <==> !HasRow(eng.kv, [FORWARD] + src)
    {
      out := ScanEdges(FORWARD, src);
    }

    method InLinks(dst: Bytes) returns (out: seq<Edge>)
      requires Valid()
      ensures ListsEdges(eng.kv, BACK, dst, out) <==> !HasRow(eng.kv, [BACK] + dst)
    {
      out := ScanEdges(BACK, dst);
    }
  }

  lemma TwoOps(kv: Kv, f: Op, b: Op)
    ensures AppliedAll(kv, [f, b]) == Applied(Applied(kv, f), b)
  {
    assert [f, b][..1] == [f] && [f][..0] == [];
    assert AppliedAll(kv, [f]) == Applied(kv, f);
  }

  /** In-links are exactly the converse of out-links, anchors included. */
  lemma InLinksConverse(kv: Kv, src: Bytes, dst: Bytes, outs: seq<Edge>, ins: seq<Edge>, anchor: Bytes)
    requires Mirrored(kv) && ListsEdges(kv, FORWARD, src, outs) && ListsEdges(kv, BACK, dst, ins)
    ensures Edge(dst, anchor) in outs <==> Edge(src, anchor) in ins
  {
    assert EdgeKey(FORWARD, src, dst) in kv <==> EdgeKey(BACK, dst, src) in kv;
  }

  /** An engine with one cell of the row "F" and no edges: the out-links of the empty node are not none. */
  lemma SharedEngineMixes(fam: byte, qual: Bytes, ts: uint64, value: Bytes, es: seq<Entry>, out: seq<Edge>)
    requires IsScan(map[WebTable.CellKey([FORWARD], fam, qual, ts) := value], NodePrefix(FORWARD, []), es, out)
    ensures |out| == 1 && out[0].anchor == value
    ensures forall b :: EdgeKey(FORWARD, [], b) != WebTable.CellKey([FORWARD], fam, qual, ts)
  {
    var k := WebTable.CellKey([FORWARD], fam, qual, ts);
    var kv := map[k := value];
    assert [FORWARD] + [] == [FORWARD];
    CellUnderNodeIff(FORWARD, [], [FORWARD], fam, qual, ts);
    assert Entry(k, kv[k]) in es;
    if |es| > 1 {
      assert Stored(kv, es[0]) && Stored(kv, es[1]);
      LexIrreflexive(k);
    }
    assert Stored(kv, es[0]) && Reads(NodePrefix(FORWARD, []), es[0], out[0]);
    forall b ensures EdgeKey(FORWARD, [], b) != k { CellIsNoEdge(FORWARD, [], b, fam, qual, ts); }
  }
}
