/** The versioned, column-family document store over an ordered engine (storage/webtable.go). */
module WebTable {
  import opened Bits
  import opened Lexical
  import opened Options
  import opened OrderedBytes
  import opened Engine
  import opened Ranking
  import opened Runs

  type int64 = x: int | -0x8000_0000_0000_0000 <= x < 0x8000_0000_0000_0000

  // ----- timestamps

  /** uint64(ts), by which versions are ordered. */
  function Unsigned(ts: int64): uint64
  {
    if ts >= 0 then ts else 0x1_0000_0000_0000_0000 + ts
  }

  /** int64(u). */
  function Signed(u: uint64): int64
  {
    if u < 0x8000_0000_0000_0000 then u else u - 0x1_0000_0000_0000_0000
  }

  /** n big-endian bytes of x. */
  function BigEndian(x: nat, n: nat): (r: Bytes)
    ensures |r| == n
    decreases n, x
  {
    if n == 0 then [] else BigEndian(x / 0x100, n - 1) + [x % 0x100]
  }

  function Pow256(n: nat): (r: nat)
    ensures r > 0
  {
    if n == 0 then 1 else 0x100 * Pow256(n - 1)
  }

  function FromBigEndian(b: Bytes): (x: nat)
    ensures x < Pow256(|b|)
  {
    if b == [] then 0 else 0x100 * FromBigEndian(b[..|b| - 1]) + b[|b| - 1]
  }

  lemma {:induction false} BigEndianInverts(x: nat, n: nat)
    requires x < Pow256(n)
    ensures FromBigEndian(BigEndian(x, n)) == x
  {
    if n > 0 {
      BigEndianInverts(x / 0x100, n - 1);
      assert BigEndian(x, n)[..n - 1] == BigEndian(x / 0x100, n - 1);
    }
  }

  /** Big-endian bytes sort as the numbers do. */
  lemma {:induction false} BigEndianOrder(x: nat, y: nat, n: nat)
    requires x < y < Pow256(n)
    ensures Lex(BigEndian(x, n), BigEndian(y, n))
  {
    if n > 0 {
      var a, b := BigEndian(x / 0x100, n - 1), BigEndian(y / 0x100, n - 1);
      if x / 0x100 < y / 0x100 {
        BigEndianOrder(x / 0x100, y / 0x100, n - 1);
        if a == b { LexIrreflexive(a); }
        LexSameLength(a, b, [x % 0x100], [y % 0x100]);
      } else {
        LexPrefix(a, [x % 0x100], [y % 0x100]);
      }
    }
  }

  lemma Pow256Eight()
    ensures Pow256(8) == 0x1_0000_0000_0000_0000
  {
    assert Pow256(4) == 0x1_0000_0000;
  }

  /** The complement, big-endian, so that a larger number sorts first. */
  function Stamp(ts: uint64): (r: Bytes)
    ensures |r| == 8
  {
    BigEndian(0xFFFF_FFFF_FFFF_FFFF - ts, 8)
  }

  lemma StampOrder(t: uint64, u: uint64)
    ensures Lex(Stamp(u), Stamp(t)) <==> t < u
  {
    Pow256Eight();
    if t < u {
      BigEndianOrder(0xFFFF_FFFF_FFFF_FFFF - u, 0xFFFF_FFFF_FFFF_FFFF - t, 8);
    } else if t == u {
      LexIrreflexive(Stamp(t));
    } else {
      BigEndianOrder(0xFFFF_FFFF_FFFF_FFFF - t, 0xFFFF_FFFF_FFFF_FFFF - u, 8);
      LexAsymmetric(Stamp(t), Stamp(u));
    }
  }

  /** Later timestamps sort first exactly when the two have the same sign or the earlier one is not
      negative: a negative timestamp always sorts before a non-negative one. */
  lemma NewestFirstIff(t: int64, u: int64)
    requires t < u
    ensures Lex(Stamp(Unsigned(u)), Stamp(Unsigned(t))) <==> t >= 0 || u < 0
  {
    StampOrder(Unsigned(t), Unsigned(u));
  }

  lemma StampInjective(t: uint64, u: uint64)
    requires Stamp(t) == Stamp(u)
    ensures t == u
  {
    StampOrder(t, u);
    StampOrder(u, t);
    LexIrreflexive(Stamp(t));
  }

  // ----- keys

  function FamilyPrefix(row: Bytes, fam: byte): Bytes
  {
    Encoded(row) + [fam]
  }

  function CellPrefix(row: Bytes, fam: byte, qual: Bytes): Bytes
  {
    FamilyPrefix(row, fam) + Encoded(qual)
  }

  function CellKey(row: Bytes, fam: byte, qual: Bytes, ts: uint64): Bytes
  {
    CellPrefix(row, fam, qual) + Stamp(ts)
  }

  lemma CellShape(row: Bytes, fam: byte, qual: Bytes, ts: uint64)
    ensures CellKey(row, fam, qual, ts) == Encoded(row) + ([fam] + (Encoded(qual) + Stamp(ts)))
    ensures CellKey(row, fam, qual, ts) == FamilyPrefix(row, fam) + (Encoded(qual) + Stamp(ts))
  {
  }

  /** Different cells or versions have different keys. */
  lemma CellKeyInjective(row: Bytes, fam: byte, qual: Bytes, ts: uint64, row': Bytes, fam': byte, qual': Bytes, ts': uint64)
    requires CellKey(row, fam, qual, ts) == CellKey(row', fam', qual', ts')
    ensures row == row' && fam == fam' && qual == qual' && ts == ts'
  {
    CellShape(row, fam, qual, ts);
    CellShape(row', fam', qual', ts');
    var x, y := Encoded(qual) + Stamp(ts), Encoded(qual') + Stamp(ts');
    EncodedInjective(row, row', [fam] + x, [fam'] + y);
    assert ([fam] + x)[0] == ([fam'] + y)[0];
    assert ([fam] + x)[1..] == x && ([fam'] + y)[1..] == y;
    EncodedInjective(qual, qual', Stamp(ts), Stamp(ts'));
    StampInjective(ts, ts');
  }

  /** A cell key has a family's prefix only if the cell is of that row and family. */
  lemma FamilyPrefixSelects(row: Bytes, fam: byte, qual: Bytes, ts: uint64, row': Bytes, fam': byte)
    ensures FamilyPrefix(row', fam') <= CellKey(row, fam, qual, ts) <==> row == row' && fam == fam'
  {
    CellShape(row, fam, qual, ts);
    var tail := [fam] + (Encoded(qual) + Stamp(ts));
    assert tail[0] == fam;
    SegmentAndByteLead(row', fam', row, tail);
  }

  lemma CellPrefixSelects(row: Bytes, fam: byte, qual: Bytes, ts: uint64, row': Bytes, fam': byte, qual': Bytes)
    ensures CellPrefix(row', fam', qual') <= CellKey(row, fam, qual, ts) <==> row == row' && fam == fam' && qual == qual'
  {
    var k, p := CellKey(row, fam, qual, ts), CellPrefix(row', fam', qual');
    if p <= k {
      FamilyLeadsCell(row', fam', qual', k);
      FamilyPrefixSelects(row, fam, qual, ts, row', fam');
    }
    if row == row' && fam == fam' {
      CellShape(row, fam, qual, ts);
      SamePrefix(FamilyPrefix(row, fam), Encoded(qual'), Encoded(qual) + Stamp(ts));
      SegmentLeads(qual', qual, Stamp(ts));
    }
  }

  lemma SamePrefix(f: Bytes, p: Bytes, k: Bytes)
    ensures f + p <= f + k <==> p <= k
  {
    if f + p <= f + k {
      assert forall i :: 0 <= i < |p| ==> p[i] == (f + p)[|f| + i] == (f + k)[|f| + i] == k[i];
    }
    if p <= k {
      SplitAt(p, k);
      Associative(f, p, k[|p|..]);
    }
  }

  /** Within a family, keys sort by qualifier and then newest first. */
  ghost predicate Before(qual: Bytes, ts: uint64, qual': Bytes, ts': uint64)
  {
    if qual == qual' then Lex(Stamp(ts), Stamp(ts')) else Lex(qual, qual')
  }

  lemma CellOrder(row: Bytes, fam: byte, qual: Bytes, ts: uint64, qual': Bytes, ts': uint64)
    ensures Lex(CellKey(row, fam, qual, ts), CellKey(row, fam, qual', ts')) <==> Before(qual, ts, qual', ts')
  {
    CellShape(row, fam, qual, ts);
    CellShape(row, fam, qual', ts');
    LexPrefix(FamilyPrefix(row, fam), Encoded(qual) + Stamp(ts), Encoded(qual') + Stamp(ts'));
    if qual == qual' {
      LexPrefix(Encoded(qual), Stamp(ts), Stamp(ts'));
    } else {
      EncodedOrder(qual, qual', Stamp(ts), Stamp(ts'));
    }
  }

  /** Rows keep their lexicographic order. */
  lemma RowOrder(row: Bytes, fam: byte, qual: Bytes, ts: uint64, row': Bytes, fam': byte, qual': Bytes, ts': uint64)
    requires row != row'
    ensures Lex(CellKey(row, fam, qual, ts), CellKey(row', fam', qual', ts')) <==> Lex(row, row')
  {
    CellShape(row, fam, qual, ts);
    CellShape(row', fam', qual', ts');
    EncodedOrder(row, row', [fam] + (Encoded(qual) + Stamp(ts)), [fam'] + (Encoded(qual') + Stamp(ts')));
  }

  // ----- decoding

  function DecodeTS(key: Bytes): int64
  {
    if |key| < 8 then 0
    else
      Pow256Eight();
      Signed(0xFFFF_FFFF_FFFF_FFFF - FromBigEndian(key[|key| - 8..]))
  }

  function DecodeQualifier(key: Bytes, row: Bytes): Bytes
  {
    DecodeFrom(key, |Encoded(row)| + 1)
  }

  function DecodeFrom(key: Bytes, i: nat): Bytes
  {
    if i > |key| then [] else Decoded(key[i..])
  }

  lemma DecodesCell(row: Bytes, fam: byte, qual: Bytes, ts: uint64)
    ensures DecodeTS(CellKey(row, fam, qual, ts)) == Signed(ts)
    ensures DecodeQualifier(CellKey(row, fam, qual, ts), row) == qual
  {
    DecodesTS(CellPrefix(row, fam, qual), ts);
    CellShape(row, fam, qual, ts);
    DecodesQualifier(row, Encoded(row), fam, qual, Stamp(ts), CellKey(row, fam, qual, ts));
  }

  lemma DecodesTS(prefix: Bytes, ts: uint64)
    ensures DecodeTS(prefix + Stamp(ts)) == Signed(ts)
  {
    Pow256Eight();
    BigEndianInverts(0xFFFF_FFFF_FFFF_FFFF - ts, 8);
    var k := prefix + Stamp(ts);
    assert k[|k| - 8..] == Stamp(ts);
  }

  lemma DecodesQualifier(row: Bytes, a: Bytes, fam: byte, qual: Bytes, rest: Bytes, k: Bytes)
    requires a == Encoded(row) && k == a + ([fam] + (Encoded(qual) + rest))
    ensures DecodeQualifier(k, row) == qual
  {
    DecodesFrom(a, fam, qual, rest);
  }

  lemma DecodesFrom(a: Bytes, fam: byte, qual: Bytes, rest: Bytes)
    ensures DecodeFrom(a + ([fam] + (Encoded(qual) + rest)), |a| + 1) == qual
  {
    SkipFamily(a, fam, Encoded(qual) + rest);
    DecodedEncoded(qual, rest);
  }

  lemma SkipFamily(a: Bytes, fam: byte, rest: Bytes)
    ensures (a + ([fam] + rest))[|a| + 1..] == rest
  {
  }

  // ----- the table a key space denotes

  /** The value of a cell at a version. */
  ghost predicate Has(kv: Kv, row: Bytes, fam: byte, qual: Bytes, ts: uint64)
  {
    CellKey(row, fam, qual, ts) in kv
  }

  ghost predicate IsCell(k: Bytes)
  {
    exists row, fam, qual, ts :: k == CellKey(row, fam, qual, ts)
  }

  /** Whatever else the engine holds, only cells lie in this family. */
  ghost predicate OnlyCells(kv: Kv, row: Bytes, fam: byte)
  {
    forall k :: k in kv && FamilyPrefix(row, fam) <= k ==> IsCell(k)
  }

  /** Writing one version touches no other. */
  lemma PutTouchesOne(kv: Kv, row: Bytes, fam: byte, qual: Bytes, ts: uint64, value: Bytes,
                      row': Bytes, fam': byte, qual': Bytes, ts': uint64)
    ensures var kv' := kv[CellKey(row, fam, qual, ts) := value];
            var k := CellKey(row', fam', qual', ts');
            if row == row' && fam == fam' && qual == qual' && ts == ts' then k in kv' && kv'[k] == value
            else (k in kv' <==> k in kv) && (k in kv ==> kv'[k] == kv[k])
  {
    if CellKey(row, fam, qual, ts) == CellKey(row', fam', qual', ts') {
      CellKeyInjective(row, fam, qual, ts, row', fam', qual', ts');
    }
  }

  type Version = Stamped<Bytes>

  /** The entries of a family in key order, with the version each one holds. */
  ghost predicate Listed(kv: Kv, row: Bytes, fam: byte, es: seq<Entry>, vs: seq<Version>)
  {
    && |vs| == |es|
    && (forall i :: 0 <= i < |es| ==> EntryIs(kv, row, fam, es[i], vs[i]))
    && Ordered(vs)
    && (forall qual, ts: uint64 :: Has(kv, row, fam, qual, ts) ==> Stamped(qual, ts) in vs)
  }

  ghost predicate Ordered(vs: seq<Version>)
  {
    forall i, j {:trigger Newer(vs[i], vs[j])} :: 0 <= i < j < |vs| ==> Newer(vs[i], vs[j])
  }

  ghost predicate EntryIs(kv: Kv, row: Bytes, fam: byte, e: Entry, v: Version)
  {
    0 <= v.ts < 0x1_0000_0000_0000_0000 && e.key == CellKey(row, fam, v.name, v.ts) && e.key in kv && kv[e.key] == e.value
  }

  /** By qualifier, then newest first. */
  ghost predicate Newer(a: Version, b: Version)
  {
    if a.name == b.name then a.ts > b.ts else Lex(a.name, b.name)
  }

  lemma VersionOf(kv: Kv, row: Bytes, fam: byte, e: Entry) returns (v: Version)
    requires OnlyCells(kv, row, fam) && e.key in kv && kv[e.key] == e.value && FamilyPrefix(row, fam) <= e.key
    ensures EntryIs(kv, row, fam, e, v)
  {
    assert IsCell(e.key);
    var r, f, q, t: uint64 :| e.key == CellKey(r, f, q, t);
    FamilyPrefixSelects(r, f, q, t, row, fam);
    v := Stamped(q, t);
  }

  lemma VersionsOf(kv: Kv, row: Bytes, fam: byte, es: seq<Entry>) returns (vs: seq<Version>)
    requires OnlyCells(kv, row, fam) && forall i :: 0 <= i < |es| ==> es[i].key in kv && kv[es[i].key] == es[i].value && FamilyPrefix(row, fam) <= es[i].key
    ensures |vs| == |es| && forall i :: 0 <= i < |es| ==> EntryIs(kv, row, fam, es[i], vs[i])
  {
    vs := [];
    for n := 0 to |es|
      invariant |vs| == n && forall i :: 0 <= i < n ==> EntryIs(kv, row, fam, es[i], vs[i])
    {
      var v := VersionOf(kv, row, fam, es[n]);
      vs := vs + [v];
    }
  }

  lemma EntryOrder(kv: Kv, row: Bytes, fam: byte, a: Entry, v: Version, b: Entry, w: Version)
    requires EntryIs(kv, row, fam, a, v) && EntryIs(kv, row, fam, b, w) && Lex(a.key, b.key)
    ensures Newer(v, w)
  {
    CellOrder(row, fam, v.name, v.ts, w.name, w.ts);
    if v.name == w.name {
      StampOrder(w.ts, v.ts);
    }
  }

  /** A prefix scan of a family lists its versions, qualifier by qualifier, newest first. */
  lemma ScanLists(kv: Kv, row: Bytes, fam: byte, es: seq<Entry>, end: Option<Bytes>) returns (vs: seq<Version>)
    requires OnlyCells(kv, row, fam) && ListsRange(es, kv, FamilyPrefix(row, fam), end)
    requires forall k: Bytes :: FamilyPrefix(row, fam) <= k <==> InRange(k, FamilyPrefix(row, fam), end)
    ensures Listed(kv, row, fam, es, vs)
  {
    vs := VersionsOf(kv, row, fam, es);
    forall i, j | 0 <= i < j < |vs| ensures Newer(vs[i], vs[j]) {
      EntryOrder(kv, row, fam, es[i], vs[i], es[j], vs[j]);
    }
    forall qual, ts: uint64 | Has(kv, row, fam, qual, ts) ensures Stamped(qual, ts) in vs {
      FamilyPrefixSelects(row, fam, qual, ts, row, fam);
      var i :| 0 <= i < |es| && es[i].key == CellKey(row, fam, qual, ts);
      CellKeyInjective(row, fam, qual, ts, row, fam, vs[i].name, vs[i].ts);
      assert vs[i] == Stamped(qual, ts);
    }
  }

  lemma EntryDecodes(kv: Kv, row: Bytes, fam: byte, es: seq<Entry>, vs: seq<Version>, n: nat)
    requires Listed(kv, row, fam, es, vs) && n < |es|
    ensures DecodeQualifier(es[n].key, row) == vs[n].name && DecodeTS(es[n].key) == Signed(vs[n].ts)
  {
    assert EntryIs(kv, row, fam, es[n], vs[n]);
    DecodesCell(row, fam, vs[n].name, vs[n].ts);
  }

  // ----- reading a family

  datatype Cell = Cell(qual: Bytes, ts: int64, value: Bytes)

  /** c is the first version of its cell in the table's order: the greatest as an unsigned number. */
  ghost predicate IsNewest(kv: Kv, row: Bytes, fam: byte, c: Cell)
  {
    && Has(kv, row, fam, c.qual, Unsigned(c.ts)) && kv[CellKey(row, fam, c.qual, Unsigned(c.ts))] == c.value
    && forall ts: uint64 :: Has(kv, row, fam, c.qual, ts) ==> ts <= Unsigned(c.ts)
  }

  /** That version is the one of greatest timestamp exactly if the cell does not have both negative and
      non-negative timestamps. */
  lemma NewestIsGreatestIff(kv: Kv, row: Bytes, fam: byte, c: Cell)
    requires IsNewest(kv, row, fam, c)
    ensures (forall ts: int64 :: Has(kv, row, fam, c.qual, Unsigned(ts)) ==> ts <= c.ts) <==>
              forall t: int64, u: int64 :: Has(kv, row, fam, c.qual, Unsigned(t)) && Has(kv, row, fam, c.qual, Unsigned(u)) ==>
                (t < 0 <==> u < 0)
  {
  }

  ghost predicate Ascends(out: seq<Cell>)
  {
    forall i, j :: 0 <= i < j < |out| ==> Lex(out[i].qual, out[j].qual)
  }

  /** The newest version of each qualifier among the first n. */
  ghost predicate Collapsed(kv: Kv, row: Bytes, fam: byte, vs: seq<Version>, n: nat, out: seq<Cell>)
  {
    && n <= |vs| && Ascends(out)
    && (forall i :: 0 <= i < |out| ==> IsNewest(kv, row, fam, out[i]))
    && (forall i {:trigger Among(vs, n, out[i].qual)} :: 0 <= i < |out| ==> Among(vs, n, out[i].qual))
    && (forall j {:trigger Covers(out, vs[j].name)} :: 0 <= j < n ==> Covers(out, vs[j].name))
  }

  ghost predicate Covers(out: seq<Cell>, qual: Bytes)
  {
    exists i :: 0 <= i < |out| && out[i].qual == qual
  }

  ghost predicate Among(vs: seq<Version>, n: nat, qual: Bytes)
    requires n <= |vs|
  {
    exists j :: 0 <= j < n && vs[j].name == qual
  }

  lemma CoversMore(out: seq<Cell>, c: Cell, qual: Bytes)
    ensures Covers(out + [c], qual) <==> Covers(out, qual) || c.qual == qual
  {
    var out' := out + [c];
    if Covers(out, qual) {
      var i :| 0 <= i < |out| && out[i].qual == qual;
      assert out'[i].qual == qual;
    }
    if c.qual == qual { assert out'[|out|].qual == qual; }
  }

  /** Equal qualifiers are adjacent, so a new one is past all earlier ones. */
  lemma NewQualifier(vs: seq<Version>, n: nat)
    requires n < |vs| && Ordered(vs)
    requires n > 0 ==> vs[n - 1].name != vs[n].name
    ensures forall j :: 0 <= j < n ==> Lex(vs[j].name, vs[n].name)
  {
    forall j | 0 <= j < n ensures Lex(vs[j].name, vs[n].name) {
      assert Newer(vs[j], vs[n]) && Newer(vs[n - 1], vs[n]);
      if j < n - 1 {
        assert Newer(vs[j], vs[n - 1]);
        if vs[j].name != vs[n - 1].name { LexTransitive(vs[j].name, vs[n - 1].name, vs[n].name); }
      }
    }
  }

  lemma FirstIsNewest(kv: Kv, row: Bytes, fam: byte, es: seq<Entry>, vs: seq<Version>, n: nat)
    requires Listed(kv, row, fam, es, vs) && n < |vs| && (n > 0 ==> vs[n - 1].name != vs[n].name)
    ensures IsNewest(kv, row, fam, Cell(vs[n].name, Signed(vs[n].ts), es[n].value))
  {
    NewQualifier(vs, n);
    assert EntryIs(kv, row, fam, es[n], vs[n]);
    forall ts: uint64 | Has(kv, row, fam, vs[n].name, ts) ensures ts <= vs[n].ts {
      var j :| 0 <= j < |vs| && vs[j] == Stamped(vs[n].name, ts);
      LexIrreflexive(vs[n].name);
      if j > n { assert Newer(vs[n], vs[j]); }
    }
  }

  lemma CollapseStep(kv: Kv, row: Bytes, fam: byte, es: seq<Entry>, vs: seq<Version>, n: nat, out: seq<Cell>)
    requires Listed(kv, row, fam, es, vs) && n < |vs| && Collapsed(kv, row, fam, vs, n, out)
    ensures n > 0 && vs[n - 1].name == vs[n].name ==> Collapsed(kv, row, fam, vs, n + 1, out)
    ensures !(n > 0 && vs[n - 1].name == vs[n].name) ==>
              Collapsed(kv, row, fam, vs, n + 1, out + [Cell(vs[n].name, Signed(vs[n].ts), es[n].value)])
  {
    if n > 0 && vs[n - 1].name == vs[n].name {
      assert Covers(out, vs[n - 1].name);
      forall i | 0 <= i < |out| ensures Among(vs, n + 1, out[i].qual) {
        assert Among(vs, n, out[i].qual);
      }
    } else {
      FirstIsNewest(kv, row, fam, es, vs, n);
      CollapseNew(kv, row, fam, vs, n, out, Cell(vs[n].name, Signed(vs[n].ts), es[n].value));
    }
  }

  lemma CollapseNew(kv: Kv, row: Bytes, fam: byte, vs: seq<Version>, n: nat, out: seq<Cell>, c: Cell)
    requires n < |vs| && Ordered(vs)
    requires Collapsed(kv, row, fam, vs, n, out) && IsNewest(kv, row, fam, c) && c.qual == vs[n].name
    requires n > 0 ==> vs[n - 1].name != vs[n].name
    ensures Collapsed(kv, row, fam, vs, n + 1, out + [c])
  {
    NewQualifier(vs, n);
    var out' := out + [c];
    forall i | 0 <= i < |out| ensures Lex(out[i].qual, c.qual) && Among(vs, n + 1, out[i].qual) {
      assert Among(vs, n, out[i].qual);
      var j :| 0 <= j < n && vs[j].name == out[i].qual;
    }
    assert Among(vs, n + 1, c.qual);
    forall j | 0 <= j < n + 1 ensures Covers(out', vs[j].name) {
      CoversMore(out, c, vs[j].name);
      if j < n { assert Covers(out, vs[j].name); }
    }
    forall i | 0 <= i < |out'| ensures Among(vs, n + 1, out'[i].qual) && IsNewest(kv, row, fam, out'[i]) {
      assert out'[i] == if i < |out| then out[i] else c;
    }
  }

  lemma CollapsedAll(kv: Kv, row: Bytes, fam: byte, es: seq<Entry>, vs: seq<Version>, out: seq<Cell>)
    requires Listed(kv, row, fam, es, vs) && Collapsed(kv, row, fam, vs, |vs|, out)
    ensures forall qual, ts: uint64 :: Has(kv, row, fam, qual, ts) ==> Covers(out, qual)
  {
    forall qual, ts: uint64 | Has(kv, row, fam, qual, ts) ensures Covers(out, qual) {
      assert Stamped(qual, ts) in vs;
      var j :| 0 <= j < |vs| && vs[j] == Stamped(qual, ts);
      assert Covers(out, vs[j].name);
    }
  }

  // ----- garbage collection

  lemma OrderedIsGrouped(vs: seq<Version>)
    requires Ordered(vs)
    ensures Grouped(vs)
  {
    forall i, j | 0 <= i < j < |vs| && vs[i].name == vs[j].name ensures vs[i].ts > vs[j].ts {
      assert Newer(vs[i], vs[j]);
    }
    forall i, j, k | 0 <= i < j < k < |vs| && vs[i].name == vs[k].name ensures vs[j].name == vs[k].name {
      Adjacent(vs[i], vs[j], vs[k]);
      assert Newer(vs[i], vs[j]) && Newer(vs[j], vs[k]);
    }
  }

  lemma Adjacent(a: Version, b: Version, c: Version)
    requires a.name == c.name
    ensures Newer(a, b) && Newer(b, c) ==> b.name == c.name
  {
    if Lex(a.name, b.name) { LexAsymmetric(a.name, b.name); }
  }

  /** The timestamps of a cell's versions. */
  ghost predicate IsVersion(kv: Kv, row: Bytes, fam: byte, qual: Bytes, t: int)
  {
    0 <= t < 0x1_0000_0000_0000_0000 && Has(kv, row, fam, qual, t)
  }

  /** newer are the versions of a cell after ts. */
  ghost predicate AreNewer(kv: Kv, row: Bytes, fam: byte, qual: Bytes, ts: uint64, newer: set<int>)
  {
    forall t :: t in newer <==> t > ts && IsVersion(kv, row, fam, qual, t)
  }

  lemma ListedNewer(kv: Kv, row: Bytes, fam: byte, es: seq<Entry>, vs: seq<Version>, qual: Bytes, ts: uint64)
    requires Listed(kv, row, fam, es, vs)
    ensures AreNewer(kv, row, fam, qual, ts, NewerThan(vs, qual, ts))
  {
    forall t ensures t in NewerThan(vs, qual, ts) <==> t > ts && IsVersion(kv, row, fam, qual, t) {
      if t in NewerThan(vs, qual, ts) {
        var j :| 0 <= j < |vs| && vs[j].name == qual && vs[j].ts == t;
        assert EntryIs(kv, row, fam, es[j], vs[j]);
      }
      if t > ts && IsVersion(kv, row, fam, qual, t) {
        assert Stamped(qual, t) in vs;
        var j :| 0 <= j < |vs| && vs[j] == Stamped(qual, t);
      }
    }
  }

  /** At least one version is kept whatever keepN says. */
  function Keep(keepN: int): nat
  {
    if keepN < 1 then 1 else keepN
  }

  /** k is a version of the family with at least `keep` newer ones. */
  ghost predicate Stale(kv: Kv, row: Bytes, fam: byte, keep: nat, k: Bytes)
  {
    exists qual, ts: uint64, newer: set<int> ::
      k == CellKey(row, fam, qual, ts) && AreNewer(kv, row, fam, qual, ts, newer) && |newer| >= keep
  }

  ghost function KeysOf(es: seq<Entry>): (r: seq<Bytes>)
    ensures |r| == |es|
  {
    seq(|es|, i requires 0 <= i < |es| => es[i].key)
  }

  ghost function Deletions(keys: seq<Bytes>): (r: seq<Op>)
    ensures |r| == |keys|
  {
    seq(|keys|, i requires 0 <= i < |keys| => OpDelete(keys[i]))
  }

  lemma {:induction false} DeletionsApply(kv: Kv, keys: seq<Bytes>)
    ensures forall k :: k in AppliedAll(kv, Deletions(keys)) <==> k in kv && k !in keys
    ensures forall k :: k in AppliedAll(kv, Deletions(keys)) ==> AppliedAll(kv, Deletions(keys))[k] == kv[k]
  {
    if keys != [] {
      var n := |keys| - 1;
      DeletionsApply(kv, keys[..n]);
      assert Deletions(keys)[..n] == Deletions(keys[..n]);
      assert keys == keys[..n] + [keys[n]];
    }
  }

  lemma KeysDiffer(es: seq<Entry>)
    requires Ascending(es)
    ensures forall a, b :: 0 <= a < b < |es| ==> KeysOf(es)[a] != KeysOf(es)[b]
  {
    forall a, b | 0 <= a < b < |es| ensures KeysOf(es)[a] != KeysOf(es)[b] {
      assert Lex(es[a].key, es[b].key);
      LexIrreflexive(es[a].key);
    }
  }

  /** What is surplus in its run is exactly what is stale. */
  lemma SurplusIsStale(kv: Kv, row: Bytes, fam: byte, es: seq<Entry>, vs: seq<Version>, keep: nat, k: Bytes)
    requires Listed(kv, row, fam, es, vs) && Ascending(es) && k in kv
    ensures k in Surplus(vs, KeysOf(es), |vs|, keep) <==> Stale(kv, row, fam, keep, k)
  {
    OrderedIsGrouped(vs);
    KeysDiffer(es);
    if k in Surplus(vs, KeysOf(es), |vs|, keep) {
      SurplusAre(vs, KeysOf(es), |vs|, keep, k);
      var j :| 0 <= j < |vs| && KeysOf(es)[j] == k && RunLength(vs, j) > keep;
      SurplusIff(vs, KeysOf(es), keep, j);
      EntryIsStale(kv, row, fam, es, vs, keep, j);
    }
    if Stale(kv, row, fam, keep, k) {
      StaleIsSurplus(kv, row, fam, es, vs, keep, k);
    }
  }

  lemma EntryIsStale(kv: Kv, row: Bytes, fam: byte, es: seq<Entry>, vs: seq<Version>, keep: nat, j: nat)
    requires Listed(kv, row, fam, es, vs) && j < |vs| && |NewerThan(vs, vs[j].name, vs[j].ts)| >= keep
    ensures Stale(kv, row, fam, keep, es[j].key)
  {
    assert EntryIs(kv, row, fam, es[j], vs[j]);
    ListedNewer(kv, row, fam, es, vs, vs[j].name, vs[j].ts);
  }

  lemma StaleIsSurplus(kv: Kv, row: Bytes, fam: byte, es: seq<Entry>, vs: seq<Version>, keep: nat, k: Bytes)
    requires Listed(kv, row, fam, es, vs) && Ascending(es) && k in kv && Stale(kv, row, fam, keep, k)
    ensures k in Surplus(vs, KeysOf(es), |vs|, keep)
  {
    var qual, ts: uint64, newer: set<int> :|
      k == CellKey(row, fam, qual, ts) && AreNewer(kv, row, fam, qual, ts, newer) && |newer| >= keep;
    var j := EntryOf(kv, row, fam, es, vs, qual, ts);
    ListedNewer(kv, row, fam, es, vs, qual, ts);
    SameNewer(kv, row, fam, qual, ts, newer, NewerThan(vs, qual, ts));
    OrderedIsGrouped(vs);
    KeysDiffer(es);
    SurplusIff(vs, KeysOf(es), keep, j);
  }

  lemma EntryOf(kv: Kv, row: Bytes, fam: byte, es: seq<Entry>, vs: seq<Version>, qual: Bytes, ts: uint64) returns (j: nat)
    requires Listed(kv, row, fam, es, vs) && CellKey(row, fam, qual, ts) in kv
    ensures j < |vs| && vs[j].name == qual && vs[j].ts == ts && KeysOf(es)[j] == CellKey(row, fam, qual, ts)
  {
    assert Has(kv, row, fam, qual, ts);
    assert Stamped(qual, ts) in vs;
    j :| 0 <= j < |vs| && vs[j] == Stamped(qual, ts);
    assert EntryIs(kv, row, fam, es[j], vs[j]);
  }

  lemma SameNewer(kv: Kv, row: Bytes, fam: byte, qual: Bytes, ts: uint64, a: set<int>, b: set<int>)
    requires AreNewer(kv, row, fam, qual, ts, a) && AreNewer(kv, row, fam, qual, ts, b)
    ensures a == b
  {
    forall t ensures t in a <==> t in b {
      assert t in a <==> t > ts && IsVersion(kv, row, fam, qual, t);
      assert t in b <==> t > ts && IsVersion(kv, row, fam, qual, t);
    }
  }

  // ----- what garbage collection keeps, in time

  ghost predicate IsVersionOf(k: Bytes, row: Bytes, fam: byte, qual: Bytes)
  {
    exists ts: uint64 :: k == CellKey(row, fam, qual, ts)
  }

  /** The timestamps of a cell, unsigned as they are stored. */
  ghost function Stamps(kv: Kv, row: Bytes, fam: byte, qual: Bytes): set<uint64>
  {
    set k | k in kv && IsVersionOf(k, row, fam, qual) :: StampOf(k, row, fam, qual)
  }

  ghost function StampOf(k: Bytes, row: Bytes, fam: byte, qual: Bytes): (ts: uint64)
    requires IsVersionOf(k, row, fam, qual)
    ensures k == CellKey(row, fam, qual, ts)
  {
    var ts: uint64 :| k == CellKey(row, fam, qual, ts); ts
  }

  lemma StampsAre(kv: Kv, row: Bytes, fam: byte, qual: Bytes, ts: uint64)
    ensures ts in Stamps(kv, row, fam, qual) <==> Has(kv, row, fam, qual, ts)
  {
    var k := CellKey(row, fam, qual, ts);
    if Has(kv, row, fam, qual, ts) {
      assert IsVersionOf(k, row, fam, qual);
      CellKeyInjective(row, fam, qual, ts, row, fam, qual, StampOf(k, row, fam, qual));
    }
  }

  /** The stamps that are larger as unsigned numbers. */
  ghost function Larger(v: set<uint64>, t: uint64): set<uint64>
  {
    set u | u in v && u > t
  }

  /** The stamps that are later as times. */
  ghost function Later(v: set<uint64>, t: uint64): set<uint64>
  {
    set u | u in v && Signed(u) > Signed(t)
  }

  ghost predicate OneSign(v: set<uint64>)
  {
    forall t, u :: t in v && u in v ==> (Signed(t) < 0 <==> Signed(u) < 0)
  }

  lemma StaleIsLarger(kv: Kv, row: Bytes, fam: byte, keep: nat, qual: Bytes, ts: uint64)
    ensures Stale(kv, row, fam, keep, CellKey(row, fam, qual, ts)) <==> |Larger(Stamps(kv, row, fam, qual), ts)| >= keep
  {
    var newer: set<int> := Larger(Stamps(kv, row, fam, qual), ts);
    forall t ensures t in newer <==> t > ts && IsVersion(kv, row, fam, qual, t) {
      if 0 <= t < 0x1_0000_0000_0000_0000 { StampsAre(kv, row, fam, qual, t); }
    }
    assert AreNewer(kv, row, fam, qual, ts, newer);
    if q, t: uint64, other: set<int> :|
      CellKey(row, fam, qual, ts) == CellKey(row, fam, q, t) && AreNewer(kv, row, fam, q, t, other) && |other| >= keep
    {
      CellKeyInjective(row, fam, qual, ts, row, fam, q, t);
      SameNewer(kv, row, fam, qual, ts, other, newer);
    }
  }

  lemma {:induction false} SomeGreatest(v: set<uint64>) returns (t: uint64)
    requires v != {}
    ensures t in v && forall u :: u in v ==> u <= t
    decreases |v|
  {
    var x :| x in v;
    t := x;
    if v != {x} {
      var u := SomeGreatest(v - {x});
      if u > x { t := u; }
      assert forall y :: y in v ==> y == x || y in v - {x};
    }
  }

  lemma {:induction false} SomeLeast(v: set<uint64>) returns (t: uint64)
    requires v != {}
    ensures t in v && forall u :: u in v ==> t <= u
    decreases |v|
  {
    var x :| x in v;
    t := x;
    if v != {x} {
      var u := SomeLeast(v - {x});
      if u < x { t := u; }
      assert forall y :: y in v ==> y == x || y in v - {x};
    }
  }

  /** Keeping the largest stamps is keeping the latest. */
  ghost predicate KeepsLatest(v: set<uint64>, keep: nat)
  {
    forall t :: t in v ==> (|Larger(v, t)| >= keep <==> |Later(v, t)| >= keep)
  }

  lemma OthersFewer(v: set<uint64>, t: uint64, w: set<uint64>)
    requires t in v && w <= v && t !in w
    ensures |w| < |v|
  {
    assert w <= v - {t};
    SubsetSize(w, v - {t});
  }

  ghost function Signs(v: set<uint64>, negative: bool): set<uint64>
  {
    set u | u in v && (Signed(u) < 0 <==> negative)
  }

  lemma GreatestTime(v: set<uint64>, last: uint64)
    requires last in Signs(v, false) && forall u :: u in Signs(v, false) ==> u <= last
    ensures Later(v, last) == {} && Larger(v, last) == Signs(v, true)
  {
    forall u ensures u !in Later(v, last) && (u in Larger(v, last) <==> u in Signs(v, true)) {
      if u in v && Signed(u) >= 0 { assert u in Signs(v, false); }
    }
  }

  lemma LeastTime(v: set<uint64>, first: uint64)
    requires first in Signs(v, true) && forall u :: u in Signs(v, true) ==> first <= u
    ensures Later(v, first) == v - {first} && Larger(v, first) == Signs(v, true) - {first}
  {
    forall u
      ensures u in Later(v, first) <==> u in v - {first}
      ensures u in Larger(v, first) <==> u in Signs(v, true) - {first}
    {
      if u in v && Signed(u) < 0 { assert u in Signs(v, true); }
    }
  }

  /** With both signs and more than `keep` versions, the greatest time goes or the least time stays. */
  lemma MixedLosesLatest(v: set<uint64>, keep: nat)
    requires !OneSign(v) && |v| > keep > 0
    ensures !KeepsLatest(v, keep)
  {
    var before, after := Signs(v, true), Signs(v, false);
    var x, y :| x in v && y in v && Signed(x) < 0 && Signed(y) >= 0;
    assert x in before && y in after;
    var first := SomeLeast(before);
    var last := SomeGreatest(after);
    GreatestTime(v, last);
    LeastTime(v, first);
  }

  /** Garbage collection keeps the `keep` latest versions of a cell if and only if it has no more than
      that many, or its timestamps have one sign. */
  lemma KeepsLatestIff(v: set<uint64>, keep: nat)
    requires keep > 0
    ensures KeepsLatest(v, keep) <==> |v| <= keep || OneSign(v)
  {
    if |v| <= keep {
      forall t | t in v ensures |Larger(v, t)| < keep && |Later(v, t)| < keep {
        OthersFewer(v, t, Larger(v, t));
        OthersFewer(v, t, Later(v, t));
      }
    } else if OneSign(v) {
      forall t | t in v ensures Larger(v, t) == Later(v, t) {}
    } else {
      MixedLosesLatest(v, keep);
    }
  }

  /** What is left of a cell after its family is collected. */
  ghost predicate LeftLatest(kv: Kv, kv': Kv, row: Bytes, fam: byte, qual: Bytes, keep: nat)
  {
    forall ts: uint64 :: Has(kv, row, fam, qual, ts) ==>
      (Has(kv', row, fam, qual, ts) <==> |Later(Stamps(kv, row, fam, qual), ts)| < keep)
  }

  lemma LeftLatestIff(kv: Kv, kv': Kv, row: Bytes, fam: byte, qual: Bytes, keep: nat)
    requires keep > 0 && forall k :: k in kv' <==> k in kv && !Stale(kv, row, fam, keep, k)
    ensures LeftLatest(kv, kv', row, fam, qual, keep) <==>
              |Stamps(kv, row, fam, qual)| <= keep || OneSign(Stamps(kv, row, fam, qual))
  {
    var v := Stamps(kv, row, fam, qual);
    forall ts: uint64
      ensures ts in v <==> Has(kv, row, fam, qual, ts)
      ensures Has(kv', row, fam, qual, ts) <==> ts in v && |Larger(v, ts)| < keep
    {
      StampsAre(kv, row, fam, qual, ts);
      StaleIsLarger(kv, row, fam, keep, qual, ts);
    }
    KeepsLatestIff(v, keep);
  }

  /** The n largest of v, counted. */
  lemma {:induction false} LargestCount(v: set<uint64>, n: nat)
    requires n > 0
    ensures |set t | t in v && |Larger(v, t)| < n| == if |v| < n then |v| else n
    decreases |v|
  {
    var top := set t | t in v && |Larger(v, t)| < n;
    if |v| <= n {
      forall t | t in v ensures t in top { OthersFewer(v, t, Larger(v, t)); }
      assert top == v;
    } else {
      var x := SomeLeast(v);
      var w := v - {x};
      assert Larger(v, x) == w;
      forall t | t in w ensures Larger(v, t) == Larger(w, t) {}
      assert top == set t | t in w && |Larger(w, t)| < n;
      LargestCount(w, n);
    }
  }

  /** A version is left if and only if fewer than keepN stamps of its cell are larger. */
  ghost predicate LeavesLargest(kv: Kv, kv': Kv, row: Bytes, fam: byte, keepN: int)
  {
    forall qual, ts: uint64 :: Has(kv', row, fam, qual, ts) <==>
      Has(kv, row, fam, qual, ts) && |Larger(Stamps(kv, row, fam, qual), ts)| < keepN
  }

  /** Of every cell exactly the version with the greatest stamp is left. */
  ghost predicate LeavesGreatest(kv: Kv, kv': Kv, row: Bytes, fam: byte)
  {
    forall qual, ts: uint64 :: Has(kv', row, fam, qual, ts) <==>
      Has(kv, row, fam, qual, ts) && forall other: uint64 :: Has(kv, row, fam, qual, other) ==> other <= ts
  }

  lemma WhatIsLeft(kv: Kv, kv': Kv, row: Bytes, fam: byte, keepN: int)
    requires forall k :: k in kv' <==> k in kv && !Stale(kv, row, fam, Keep(keepN), k)
    ensures keepN >= 1 ==> LeavesLargest(kv, kv', row, fam, keepN)
    ensures keepN < 1 ==> LeavesGreatest(kv, kv', row, fam)
  {
    forall qual, ts: uint64
      ensures Has(kv', row, fam, qual, ts) <==> Has(kv, row, fam, qual, ts) && |Larger(Stamps(kv, row, fam, qual), ts)| < Keep(keepN)
      ensures Larger(Stamps(kv, row, fam, qual), ts) == {} <==> forall other: uint64 :: Has(kv, row, fam, qual, other) ==> other <= ts
    {
      StaleIsLarger(kv, row, fam, Keep(keepN), qual, ts);
      LargerNone(kv, row, fam, qual, ts);
    }
  }

  lemma LargerNone(kv: Kv, row: Bytes, fam: byte, qual: Bytes, ts: uint64)
    ensures Larger(Stamps(kv, row, fam, qual), ts) == {} <==> forall other: uint64 :: Has(kv, row, fam, qual, other) ==> other <= ts
  {
    forall other: uint64 ensures other in Stamps(kv, row, fam, qual) <==> Has(kv, row, fam, qual, other) {
      StampsAre(kv, row, fam, qual, other);
    }
    forall other: uint64 ensures other in Larger(Stamps(kv, row, fam, qual), ts) <==> Has(kv, row, fam, qual, other) && other > ts {}
  }

  /** How many versions of a cell are left. */
  lemma HowManyAreLeft(kv: Kv, kv': Kv, row: Bytes, fam: byte, keepN: int, qual: Bytes)
    requires forall k :: k in kv' <==> k in kv && !Stale(kv, row, fam, Keep(keepN), k)
    ensures |Stamps(kv', row, fam, qual)| ==
            var n, most := |Stamps(kv, row, fam, qual)|, if keepN < 1 then 1 else keepN; if n < most then n else most
  {
    var v := Stamps(kv, row, fam, qual);
    forall ts: uint64 ensures ts in Stamps(kv', row, fam, qual) <==> ts in v && |Larger(v, ts)| < Keep(keepN) {
      StampsAre(kv, row, fam, qual, ts);
      StampsAre(kv', row, fam, qual, ts);
      StaleIsLarger(kv, row, fam, Keep(keepN), qual, ts);
    }
    assert Stamps(kv', row, fam, qual) == set t | t in v && |Larger(v, t)| < Keep(keepN);
    LargestCount(v, Keep(keepN));
  }

  lemma TwoStamps(row: Bytes, fam: byte, qual: Bytes, x: Bytes, y: Bytes, ts: uint64)
    ensures var a, b := CellKey(row, fam, qual, Unsigned(-1)), CellKey(row, fam, qual, Unsigned(0));
            a != b && (Has(map[a := x, b := y], row, fam, qual, ts) <==> ts == Unsigned(-1) || ts == Unsigned(0))
  {
    var a, b := CellKey(row, fam, qual, Unsigned(-1)), CellKey(row, fam, qual, Unsigned(0));
    if a == b { CellKeyInjective(row, fam, qual, Unsigned(-1), row, fam, qual, Unsigned(0)); }
    if CellKey(row, fam, qual, ts) == a { CellKeyInjective(row, fam, qual, ts, row, fam, qual, Unsigned(-1)); }
    if CellKey(row, fam, qual, ts) == b { CellKeyInjective(row, fam, qual, ts, row, fam, qual, Unsigned(0)); }
  }

  /** Two versions, at times -1 and 0: the first in the table's order is the earlier. */
  lemma FirstIsNotLatest(row: Bytes, fam: byte, qual: Bytes, x: Bytes, y: Bytes)
    ensures var a, b := CellKey(row, fam, qual, Unsigned(-1)), CellKey(row, fam, qual, Unsigned(0));
            IsNewest(map[a := x, b := y], row, fam, Cell(qual, -1, x))
  {
    forall ts: uint64
      ensures var a, b := CellKey(row, fam, qual, Unsigned(-1)), CellKey(row, fam, qual, Unsigned(0));
              a != b && (Has(map[a := x, b := y], row, fam, qual, ts) <==> ts == Unsigned(-1) || ts == Unsigned(0))
    {
      TwoStamps(row, fam, qual, x, y, ts);
    }
    TwoStamps(row, fam, qual, x, y, 0);
  }

  /** Two versions, at times -1 and 0, with one to keep: the later one is stale and the earlier is not. */
  lemma CollectsTheLater(row: Bytes, fam: byte, qual: Bytes, x: Bytes, y: Bytes)
    ensures var a, b := CellKey(row, fam, qual, Unsigned(-1)), CellKey(row, fam, qual, Unsigned(0));
            var kv: Kv := map[a := x, b := y];
            Stale(kv, row, fam, 1, b) && !Stale(kv, row, fam, 1, a)
  {
    var a, b := CellKey(row, fam, qual, Unsigned(-1)), CellKey(row, fam, qual, Unsigned(0));
    var kv: Kv := map[a := x, b := y];
    var v := Stamps(kv, row, fam, qual);
    forall ts: uint64 ensures ts in v <==> ts == Unsigned(-1) || ts == Unsigned(0) {
      StampsAre(kv, row, fam, qual, ts);
      TwoStamps(row, fam, qual, x, y, ts);
    }
    assert Larger(v, Unsigned(0)) == {Unsigned(-1)} && Larger(v, Unsigned(-1)) == {};
    StaleIsLarger(kv, row, fam, 1, qual, Unsigned(-1));
    StaleIsLarger(kv, row, fam, 1, qual, Unsigned(0));
  }

  class WebTable {
    const eng: MemEngine

    constructor (eng: MemEngine)
      ensures this.eng == eng
    {
      this.eng := eng;
    }

    ghost predicate Valid()
      reads eng
    {
      eng.Valid()
    }

    /** Writes one version of one cell. */
    method Put(row: Bytes, fam: byte, qual: Bytes, ts: int64, value: Bytes)
      requires Valid()
      modifies eng
      ensures Valid() && eng.kv == old(eng.kv)[CellKey(row, fam, qual, Unsigned(ts)) := value]
      ensures old(OnlyCells(eng.kv, row, fam)) ==> OnlyCells(eng.kv, row, fam)
    {
      var key := AppendOrdered([], row);
      key := key + [fam];
      key := AppendOrdered(key, qual);
      key := key + Stamp(Unsigned(ts));
      assert key == CellKey(row, fam, qual, Unsigned(ts));
      assert IsCell(key);
      eng.Set(key, value);
    }

    method ScanPrefix(prefix: Bytes) returns (es: seq<Entry>, ghost end: Option<Bytes>)
      requires Valid()
      ensures ListsRange(es, eng.kv, prefix, end)
      ensures forall k: Bytes :: prefix <= k <==> InRange(k, prefix, end)
    {
      var e := PrefixEnd(prefix);
      LexIrreflexive(prefix);
      if e.Some? {
        assert prefix <= prefix;
        LexAsymmetric(prefix, e.value);
      }
      end := e;
      ForwardsIsFine(eng.kv, prefix, e);
      es := eng.Scan(prefix, e);
    }

    /** The newest version of a cell. */
    method Latest(row: Bytes, fam: byte, qual: Bytes) returns (c: Cell, ok: bool)
      requires Valid() && OnlyCells(eng.kv, row, fam)
      ensures ok <==> exists ts: uint64 :: Has(eng.kv, row, fam, qual, ts)
      ensures ok ==> c.qual == qual && IsNewest(eng.kv, row, fam, c)
    {
      var es, end := ScanPrefix(CellPrefix(row, fam, qual));
      LatestIs(eng.kv, row, fam, qual, es, end);
      if |es| > 0 {
        return Cell(qual, DecodeTS(es[0].key), es[0].value), true;
      }
      return Cell([], 0, []), false;
    }

    /** The newest version of every cell of a family, by qualifier. */
    method ScanFamily(row: Bytes, fam: byte) returns (out: seq<Cell>)
      requires Valid() && OnlyCells(eng.kv, row, fam)
      ensures Ascends(out) && forall i :: 0 <= i < |out| ==> IsNewest(eng.kv, row, fam, out[i])
      ensures forall qual, ts: uint64 :: Has(eng.kv, row, fam, qual, ts) ==> Covers(out, qual)
    {
      var es, end := ScanPrefix(FamilyPrefix(row, fam));
      ghost var vs := ScanLists(eng.kv, row, fam, es, end);
      out := [];
      var lastQual: Bytes, started := [], false;
      for n := 0 to |es|
        invariant Collapsed(eng.kv, row, fam, vs, n, out) && (started <==> n > 0) && (n > 0 ==> lastQual == vs[n - 1].name)
      {
        EntryDecodes(eng.kv, row, fam, es, vs, n);
        CollapseStep(eng.kv, row, fam, es, vs, n, out);
        var qual := DecodeQualifier(es[n].key, row);
        if started && qual == lastQual {
          continue;
        }
        started, lastQual := true, qual;
        out := out + [Cell(qual, DecodeTS(es[n].key), es[n].value)];
      }
      CollapsedAll(eng.kv, row, fam, es, vs, out);
    }

    /** Deletes every version of the family's cells that has keepN newer ones, and nothing else; the
        newest stays whatever keepN says. */
    method GCVersions(row: Bytes, fam: byte, keepN: int)
      requires Valid() && OnlyCells(eng.kv, row, fam)
      modifies eng
      ensures Valid() && OnlyCells(eng.kv, row, fam)
      ensures forall k :: k in eng.kv <==> k in old(eng.kv) && !Stale(old(eng.kv), row, fam, Keep(keepN), k)
      ensures forall k :: k in eng.kv ==> eng.kv[k] == old(eng.kv)[k]
      ensures keepN >= 1 ==> LeavesLargest(old(eng.kv), eng.kv, row, fam, keepN)
      ensures keepN < 1 ==> LeavesGreatest(old(eng.kv), eng.kv, row, fam)
      ensures forall qual :: |Stamps(eng.kv, row, fam, qual)| ==
                var n, most := |Stamps(old(eng.kv), row, fam, qual)|, if keepN < 1 then 1 else keepN; if n < most then n else most
      ensures forall qual :: LeftLatest(old(eng.kv), eng.kv, row, fam, qual, Keep(keepN)) <==>
                |Stamps(old(eng.kv), row, fam, qual)| <= Keep(keepN) || OneSign(Stamps(old(eng.kv), row, fam, qual))
    {
      var es, end := ScanPrefix(FamilyPrefix(row, fam));
      ghost var vs := ScanLists(eng.kv, row, fam, es, end);
      ListedDecode(eng.kv, row, fam, es, vs);
      var ops := StaleOps(es, row, keepN, vs);
      ghost var kv := eng.kv;
      if |ops| > 0 {
        eng.Apply(ops);
      }
      DeletionsApply(kv, Surplus(vs, KeysOf(es), |vs|, Keep(keepN)));
      forall k | k in kv ensures k in Surplus(vs, KeysOf(es), |vs|, Keep(keepN)) <==> Stale(kv, row, fam, Keep(keepN), k) {
        SurplusIsStale(kv, row, fam, es, vs, Keep(keepN), k);
      }
      WhatIsLeft(kv, eng.kv, row, fam, keepN);
      forall qual
        ensures |Stamps(eng.kv, row, fam, qual)| ==
                  var n, most := |Stamps(kv, row, fam, qual)|, if keepN < 1 then 1 else keepN; if n < most then n else most
        ensures LeftLatest(kv, eng.kv, row, fam, qual, Keep(keepN)) <==>
                  |Stamps(kv, row, fam, qual)| <= Keep(keepN) || OneSign(Stamps(kv, row, fam, qual))
      {
        HowManyAreLeft(kv, eng.kv, row, fam, keepN, qual);
        LeftLatestIff(kv, eng.kv, row, fam, qual, Keep(keepN));
      }
    }

    method StaleOps(es: seq<Entry>, row: Bytes, keepN: int, ghost vs: seq<Version>) returns (ops: seq<Op>)
      requires AllDecode(es, row, vs)
      ensures ops == Deletions(Surplus(vs, KeysOf(es), |vs|, Keep(keepN)))
    {
      var lastQual: Bytes, started, seen := [], false, 0;
      ops := [];
      for n := 0 to |es|
        invariant ops == Deletions(Surplus(vs, KeysOf(es), n, Keep(keepN))) && (started <==> n > 0)
        invariant n > 0 ==> lastQual == vs[n - 1].name && seen == RunLength(vs, n - 1)
      {
        var qual := DecodeQualifier(es[n].key, row);
        assert Decodes(es[n], row, vs[n].name);
        if !started || qual != lastQual {
          started, lastQual, seen := true, qual, 1;
          continue;
        }
        seen := seen + 1;
        if seen > keepN {
          ops := ops + [OpDelete(es[n].key)];
        }
      }
    }
  }

  ghost predicate Decodes(e: Entry, row: Bytes, qual: Bytes)
  {
    DecodeQualifier(e.key, row) == qual
  }

  ghost predicate AllDecode(es: seq<Entry>, row: Bytes, vs: seq<Version>)
  {
    |es| == |vs| && forall n {:trigger Decodes(es[n], row, vs[n].name)} :: 0 <= n < |es| ==> Decodes(es[n], row, vs[n].name)
  }

  lemma ListedDecode(kv: Kv, row: Bytes, fam: byte, es: seq<Entry>, vs: seq<Version>)
    requires Listed(kv, row, fam, es, vs)
    ensures AllDecode(es, row, vs)
  {
    forall n | 0 <= n < |es| ensures Decodes(es[n], row, vs[n].name) {
      EntryDecodes(kv, row, fam, es, vs, n);
    }
  }

  lemma LatestIs(kv: Kv, row: Bytes, fam: byte, qual: Bytes, es: seq<Entry>, end: Option<Bytes>)
    requires OnlyCells(kv, row, fam) && ListsRange(es, kv, CellPrefix(row, fam, qual), end)
    requires forall k: Bytes :: CellPrefix(row, fam, qual) <= k <==> InRange(k, CellPrefix(row, fam, qual), end)
    ensures |es| > 0 <==> exists ts: uint64 :: Has(kv, row, fam, qual, ts)
    ensures |es| > 0 ==> IsNewest(kv, row, fam, Cell(qual, DecodeTS(es[0].key), es[0].value))
  {
    forall ts: uint64 | Has(kv, row, fam, qual, ts) ensures |es| > 0 && IsAmong(es, CellKey(row, fam, qual, ts)) {
      CellPrefixSelects(row, fam, qual, ts, row, fam, qual);
    }
    if |es| > 0 {
      var t := VersionUnder(kv, row, fam, qual, es[0].key);
      forall ts: uint64 | Has(kv, row, fam, qual, ts) ensures ts <= t {
        var i :| 0 <= i < |es| && es[i].key == CellKey(row, fam, qual, ts);
        LaterComesFirst(row, fam, qual, es, i, t, ts);
      }
    }
  }

  ghost predicate IsAmong(es: seq<Entry>, k: Bytes)
  {
    exists i :: 0 <= i < |es| && es[i].key == k
  }

  lemma VersionUnder(kv: Kv, row: Bytes, fam: byte, qual: Bytes, k: Bytes) returns (t: uint64)
    requires OnlyCells(kv, row, fam) && k in kv && CellPrefix(row, fam, qual) <= k
    ensures k == CellKey(row, fam, qual, t) && DecodeTS(k) == Signed(t) && Has(kv, row, fam, qual, t)
  {
    FamilyLeadsCell(row, fam, qual, k);
    assert IsCell(k);
    var r, f, q, ts: uint64 :| k == CellKey(r, f, q, ts);
    CellPrefixSelects(r, f, q, ts, row, fam, qual);
    DecodesCell(row, fam, qual, ts);
    t := ts;
  }

  lemma FamilyLeadsCell(row: Bytes, fam: byte, qual: Bytes, k: Bytes)
    requires CellPrefix(row, fam, qual) <= k
    ensures FamilyPrefix(row, fam) <= k
  {
  }

  lemma LaterComesFirst(row: Bytes, fam: byte, qual: Bytes, es: seq<Entry>, i: nat, t: uint64, ts: uint64)
    requires Ascending(es) && i < |es| && es[0].key == CellKey(row, fam, qual, t) && es[i].key == CellKey(row, fam, qual, ts)
    ensures ts <= t
  {
    CellOrder(row, fam, qual, t, qual, ts);
    StampOrder(ts, t);
    if i == 0 {
      CellKeyInjective(row, fam, qual, t, row, fam, qual, ts);
    } else {
      assert Lex(es[0].key, es[i].key);
    }
  }
}
