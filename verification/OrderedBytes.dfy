/** Byte strings in order: segments and prefix ranges (storage/webtable.go, storage/engine.go). */
module OrderedBytes {
  import opened Bits
  import opened Lexical
  import opened Options

  type Bytes = seq<byte>

  /** A shared prefix does not matter. */
  lemma {:induction false} LexPrefix(p: Bytes, x: Bytes, y: Bytes)
    ensures Lex(p + x, p + y) <==> Lex(x, y)
  {
    if p == [] {
      assert p + x == x && p + y == y;
    } else {
      assert (p + x)[1..] == p[1..] + x && (p + y)[1..] == p[1..] + y;
      LexPrefix(p[1..], x, y);
    }
  }

  /** Strings of one length that differ decide the order whatever follows. */
  lemma {:induction false} LexSameLength(a: Bytes, b: Bytes, x: Bytes, y: Bytes)
    requires |a| == |b| && a != b
    ensures Lex(a + x, b + y) <==> Lex(a, b)
  {
    if a != [] {
      assert (a + x)[1..] == a[1..] + x && (b + y)[1..] == b[1..] + y;
      if a[0] == b[0] {
        assert a == [a[0]] + a[1..] && b == [b[0]] + b[1..];
        LexSameLength(a[1..], b[1..], x, y);
      }
    }
  }

  // ----- segments

  function EncodedByte(c: byte): (r: Bytes)
    ensures 1 <= |r| <= 2
  {
    if c == 0 then [0, 0xFF] else [c]
  }

  /** A zero byte is escaped and the segment ends in two zeros. */
  function Encoded(s: Bytes): (r: Bytes)
    ensures |r| >= 2
  {
    if s == [] then [0, 0] else EncodedByte(s[0]) + Encoded(s[1..])
  }

  method AppendOrdered(dst: Bytes, s: Bytes) returns (r: Bytes)
    ensures r == dst + Encoded(s)
  {
    r := dst;
    for i := 0 to |s|
      invariant r + Encoded(s[i..]) == dst + Encoded(s)
    {
      assert s[i..][1..] == s[i + 1..];
      ghost var before := r;
      if s[i] == 0 {
        r := r + [0, 0xFF];
      } else {
        r := r + [s[i]];
      }
      Associative(before, EncodedByte(s[i]), Encoded(s[i + 1..]));
    }
    r := r + [0, 0];
  }

  lemma Associative(a: Bytes, b: Bytes, c: Bytes)
    ensures a + b + c == a + (b + c)
  {
  }

  /** The segment at the front of b. */
  function Decoded(b: Bytes): Bytes
  {
    if b == [] then []
    else if b[0] == 0 then (if |b| > 1 && b[1] == 0xFF then [0] + Decoded(b[2..]) else [])
    else [b[0]] + Decoded(b[1..])
  }

  method DecodeOrdered(b: Bytes) returns (out: Bytes)
    ensures out == Decoded(b)
  {
    out := [];
    var i := 0;
    while i < |b|
      invariant 0 <= i <= |b| && out + Decoded(b[i..]) == Decoded(b)
    {
      if b[i] == 0 {
        if i + 1 < |b| && b[i + 1] == 0xFF {
          assert b[i..][2..] == b[i + 2..];
          Associative(out, [0], Decoded(b[i + 2..]));
          out := out + [0];
          i := i + 2;
          continue;
        }
        break;
      }
      assert b[i..][1..] == b[i + 1..];
      Associative(out, [b[i]], Decoded(b[i + 1..]));
      out := out + [b[i]];
      i := i + 1;
    }
  }

  /** Decoding reads back the segment, whatever follows it. */
  lemma {:induction false} DecodedEncoded(s: Bytes, rest: Bytes)
    ensures Decoded(Encoded(s) + rest) == s
  {
    var e := Encoded(s) + rest;
    if s == [] {
      assert e[0] == 0 && e[1] == 0;
    } else {
      DecodedEncoded(s[1..], rest);
      assert e == EncodedByte(s[0]) + (Encoded(s[1..]) + rest);
      assert e[|EncodedByte(s[0])|..] == Encoded(s[1..]) + rest;
      assert s == [s[0]] + s[1..];
    }
  }

  /** The encoding keeps the order of different segments, whatever follows them. */
  lemma {:induction false} EncodedOrder(a: Bytes, b: Bytes, x: Bytes, y: Bytes)
    requires a != b
    ensures Lex(Encoded(a) + x, Encoded(b) + y) <==> Lex(a, b)
  {
    var u, v := Encoded(a) + x, Encoded(b) + y;
    if a == [] || b == [] {
      EndDecides(a, b, x, y);
    } else if a[0] == b[0] {
      assert a == [a[0]] + a[1..] && b == [b[0]] + b[1..];
      EncodedOrder(a[1..], b[1..], x, y);
      assert u == EncodedByte(a[0]) + (Encoded(a[1..]) + x);
      assert v == EncodedByte(a[0]) + (Encoded(b[1..]) + y);
      LexPrefix(EncodedByte(a[0]), Encoded(a[1..]) + x, Encoded(b[1..]) + y);
    } else {
      assert u[0] == a[0] && v[0] == b[0];
    }
  }

  /** The terminator sorts below any encoded byte. */
  lemma EndDecides(a: Bytes, b: Bytes, x: Bytes, y: Bytes)
    requires a != b && (a == [] || b == [])
    ensures Lex(Encoded(a) + x, Encoded(b) + y) <==> Lex(a, b)
  {
    var u, v := Encoded(a) + x, Encoded(b) + y;
    assert u[0] == (if a == [] then 0 else a[0]) && v[0] == (if b == [] then 0 else b[0]);
    if u[0] == v[0] {
      assert u[1] == (if a == [] then 0 else 0xFF) && v[1] == (if b == [] then 0 else 0xFF);
      assert u[1..][0] == u[1] && v[1..][0] == v[1];
    }
  }

  /** No encoded segment is a prefix of another: the framing is unambiguous. */
  lemma EncodedInjective(a: Bytes, b: Bytes, x: Bytes, y: Bytes)
    requires Encoded(a) + x == Encoded(b) + y
    ensures a == b && x == y
  {
    DecodedEncoded(a, x);
    DecodedEncoded(b, y);
    assert (Encoded(a) + x)[|Encoded(a)|..] == x;
    assert (Encoded(b) + y)[|Encoded(b)|..] == y;
  }

  lemma SplitAt(p: Bytes, k: Bytes)
    requires p <= k
    ensures k == p + k[|p|..]
  {
  }

  /** Only the segment itself has its encoding in front. */
  lemma SegmentLeads(a: Bytes, b: Bytes, x: Bytes)
    ensures Encoded(a) <= Encoded(b) + x <==> a == b
  {
    if Encoded(a) <= Encoded(b) + x {
      SplitAt(Encoded(a), Encoded(b) + x);
      EncodedInjective(b, a, x, (Encoded(b) + x)[|Encoded(a)|..]);
    }
  }

  /** A segment and the byte after it are read off unambiguously. */
  lemma SegmentAndByteLead(a: Bytes, c: byte, b: Bytes, x: Bytes)
    ensures Encoded(a) + [c] <= Encoded(b) + x <==> a == b && x != [] && x[0] == c
  {
    var p, k := Encoded(a) + [c], Encoded(b) + x;
    if p <= k {
      SplitAt(p, k);
      Associative(Encoded(a), [c], k[|p|..]);
      EncodedInjective(b, a, x, [c] + k[|p|..]);
    }
    if a == b && x != [] && x[0] == c {
      assert x == [c] + x[1..];
      Associative(Encoded(a), [c], x[1..]);
    }
  }

  // ----- prefix ranges

  /** The smallest key after every key with the prefix, if there is one. */
  method PrefixEnd(prefix: Bytes) returns (end: Option<Bytes>)
    ensures forall k: Bytes :: prefix <= k <==> !Lex(k, prefix) && (end.Some? ==> Lex(k, end.value))
  {
    var i := |prefix| - 1;
    while i >= 0
      invariant -1 <= i < |prefix| && forall j :: i < j < |prefix| ==> prefix[j] == 0xFF
      decreases i
    {
      if prefix[i] != 0xFF {
        var r := prefix[..i] + [prefix[i] + 1];
        forall k: Bytes ensures prefix <= k <==> !Lex(k, prefix) && Lex(k, r) {
          PrefixRange(prefix, i, k);
        }
        return Some(r);
      }
      i := i - 1;
    }
    forall k: Bytes ensures prefix <= k <==> !Lex(k, prefix) {
      MaximalPrefix(prefix, k);
    }
    return None;
  }

  /** A string of 0xFF bytes has nothing above it but its extensions. */
  lemma {:induction false} MaximalPrefix(p: Bytes, k: Bytes)
    requires forall j :: 0 <= j < |p| ==> p[j] == 0xFF
    ensures p <= k <==> !Lex(k, p)
  {
    if p != [] && k != [] && k[0] == p[0] {
      MaximalPrefix(p[1..], k[1..]);
      assert p <= k <==> p[1..] <= k[1..] by {
        assert p == [p[0]] + p[1..] && k == [k[0]] + k[1..];
      }
    }
  }

  lemma {:induction false} PrefixRange(p: Bytes, i: nat, k: Bytes)
    requires i < |p| && p[i] != 0xFF && forall j :: i < j < |p| ==> p[j] == 0xFF
    ensures p <= k <==> !Lex(k, p) && Lex(k, p[..i] + [p[i] + 1])
    decreases i
  {
    var r := p[..i] + [p[i] + 1];
    if k != [] {
      assert p == [p[0]] + p[1..] && k == [k[0]] + k[1..];
      if i == 0 {
        assert r == [p[0] + 1];
        assert r[1..] == [];
        if k[0] == p[0] { MaximalPrefix(p[1..], k[1..]); }
      } else {
        assert r[0] == p[0] && r[1..] == p[1..][..i - 1] + [p[1..][i - 1] + 1];
        if k[0] == p[0] { PrefixRange(p[1..], i - 1, k[1..]); }
      }
    }
  }
}
