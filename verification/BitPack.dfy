/** Frame-of-Reference bit packing and LEB128 varints (index/postings/bitpack.go). */
module BitPack {
  import opened Bits

  /** Documents per fixed block. */
  const BLOCK_SIZE: nat := 128

  // ----- widths

  /** bits.Len32. */
  function Len32(v: nat): (n: nat)
    ensures v < Pow2(n)
    ensures n > 0 ==> Pow2(n - 1) <= v
  {
    if v == 0 then 0 else 1 + Len32(v / 2)
  }

  function MinWidth(v: nat): (w: nat)
    ensures w >= 1 && v < Pow2(w)
    ensures forall u: nat :: u >= 1 && v < Pow2(u) ==> w <= u
  {
    assert forall u: nat :: v < Pow2(u) ==> Len32(v) <= u by {
      forall u: nat | v < Pow2(u) ensures Len32(v) <= u {
        if u < Len32(v) { Pow2Monotone(u, Len32(v) - 1); }
      }
    }
    if v == 0 then 1 else Len32(v)
  }

  function MaxVal(vs: seq<uint32>): uint32
  {
    if vs == [] then 0
    else
      var m, v := MaxVal(vs[..|vs| - 1]), vs[|vs| - 1];
      if v > m then v else m
  }

  function WidthOf(vs: seq<uint32>): nat
  {
    MinWidth(MaxVal(vs))
  }

  /** The narrowest legal packing width. */
  lemma WidthOfIsNarrowest(vs: seq<uint32>)
    ensures 1 <= WidthOf(vs) <= 32 && Fits(vs, WidthOf(vs))
    ensures forall u: nat :: u >= 1 && Fits(vs, u) ==> WidthOf(vs) <= u
  {
    Pow2Word();
    MaxValBounds(vs);
  }

  lemma {:induction false} MaxValBounds(vs: seq<uint32>)
    ensures forall k :: 0 <= k < |vs| ==> vs[k] <= MaxVal(vs)
    ensures (vs == [] && MaxVal(vs) == 0) || exists k :: 0 <= k < |vs| && vs[k] == MaxVal(vs)
  {
    if vs != [] {
      MaxValBounds(vs[..|vs| - 1]);
    }
  }

  method MaxWidth(vs: seq<uint32>) returns (w: nat)
    ensures w == WidthOf(vs)
  {
    var m: uint32 := 0;
    for i := 0 to |vs|
      invariant m == MaxVal(vs[..i])
    {
      assert vs[..i + 1][..i] == vs[..i];
      if vs[i] > m {
        m := vs[i];
      }
    }
    assert vs[..|vs|] == vs;
    w := MinWidth(m);
  }

  /** A width of 0 is read as 1. */
  function EffWidth(width: nat): (w: nat)
  {
    if width == 0 then 1 else width
  }

  function PackedLen(count: nat, width: nat): nat
  {
    (EffWidth(width) * count + 7) / 8
  }

  // ----- packing

  /** The bytes of the number whose base-2^w digits are vs, low byte first. */
  ghost function Packed(vs: seq<nat>, w: nat): (bs: seq<byte>)
    ensures |bs| == PackedLen(|vs|, w)
  {
    Pow2Byte();
    Digits(Val(vs, EffWidth(w)), PackedLen(|vs|, w), 8)
  }

  /** acc holds the bits of vs[..i] not yet written to out. */
  ghost predicate PackState(vs: seq<nat>, w: nat, out: seq<byte>, acc: nat, nbits: nat, i: nat)
    requires i <= |vs|
  {
    && 8 * |out| + nbits == w * i
    && acc < Pow2(nbits)
    && Val(vs[..i], w) == Val(out, 8) + Shl(acc, 8 * |out|)
  }

  /** Emits whole bytes while there are any. */
  method EmitBytes(r0: seq<byte>, acc0: nat, nbits0: nat, ghost dst: seq<byte>, ghost vs: seq<nat>, ghost w: nat, ghost out0: seq<byte>, ghost i: nat)
    returns (r: seq<byte>, acc: nat, nbits: nat, ghost out: seq<byte>)
    requires i <= |vs| && r0 == dst + out0 && PackState(vs, w, out0, acc0, nbits0, i)
    ensures nbits < 8 && r == dst + out && PackState(vs, w, out, acc, nbits, i)
  {
    r, acc, nbits, out := r0, acc0, nbits0, out0;
    while nbits >= 8
      invariant r == dst + out
      invariant PackState(vs, w, out, acc, nbits, i)
    {
      PackEmit(vs, w, out, acc, nbits, i);
      out := out + [Low(acc, 8)];
      r := r + [Low(acc, 8)];
      acc := Shr(acc, 8);
      nbits := nbits - 8;
    }
  }

  method PackBits(dst: seq<byte>, vs: seq<uint32>, width: nat) returns (r: seq<byte>)
    requires width <= 32 && Fits(vs, EffWidth(width))
    ensures r == dst + Packed(vs, width)
  {
    var w := EffWidth(width);
    var acc: nat, nbits: nat := 0, 0;
    r := dst;
    ghost var out: seq<byte> := [];
    for i := 0 to |vs|
      invariant nbits < 8 && r == dst + out
      invariant PackState(vs, w, out, acc, nbits, i)
    {
      PackPush(vs, w, out, acc, nbits, i);
      acc := Or(acc, Shl64(vs[i], nbits));
      nbits := nbits + w;
      r, acc, nbits, out := EmitBytes(r, acc, nbits, dst, vs, w, out, i + 1);
    }
    assert vs[..|vs|] == vs;
    if nbits > 0 {
      PackFlush(vs, w, out, acc, nbits);
      out := out + [Low(acc, 8)];
      r := r + [Low(acc, 8)];
    } else {
      ShlZero(8 * |out|);
    }
    PackDone(vs, width, out);
  }

  lemma PackDone(vs: seq<nat>, width: nat, out: seq<byte>)
    requires Val(out, 8) == Val(vs, EffWidth(width)) && |out| == PackedLen(|vs|, width)
    ensures out == Packed(vs, width)
  {
    Pow2Byte();
    DigitsOfVal(out, 8);
  }

  lemma PackPush(vs: seq<nat>, w: nat, out: seq<byte>, acc: nat, nbits: nat, i: nat)
    requires w <= 32 && i < |vs| && nbits < 8
    requires Fits(vs, w) && PackState(vs, w, out, acc, nbits, i)
    ensures PackState(vs, w, out, Or(acc, Shl64(vs[i], nbits)), nbits + w, i + 1)
  {
    var v := vs[i];
    ShlExact(v, nbits, w);
    OrDisjoint(nbits, acc, v);
    ShlBound(v, acc, w, nbits);
    assert vs[..i + 1] == vs[..i] + [v];
    ValSnoc(vs[..i], v, w);
    ShlAdd(acc, Shl(v, nbits), 8 * |out|);
    ShlShl(v, nbits, 8 * |out|);
    MulSucc(w, i + 1);
  }

  lemma PackEmit(vs: seq<nat>, w: nat, out: seq<byte>, acc: nat, nbits: nat, i: nat)
    requires i <= |vs| && nbits >= 8 && PackState(vs, w, out, acc, nbits, i)
    ensures Low(acc, 8) < 256
    ensures PackState(vs, w, out + [Low(acc, 8)], Shr(acc, 8), nbits - 8, i)
  {
    Pow2Byte();
    EmitBy(vs, w, out, acc, nbits, i, 8);
  }

  lemma EmitBy(vs: seq<nat>, w: nat, out: seq<byte>, acc: nat, nbits: nat, i: nat, e: nat)
    requires e == 8 && Pow2(e) == 256 && i <= |vs| && nbits >= e && PackState(vs, w, out, acc, nbits, i)
    ensures Low(acc, e) < 256
    ensures PackState(vs, w, out + [Low(acc, e)], Shr(acc, e), nbits - e, i)
  {
    EmitDigit(out, acc, e, e * |out|);
    SplitBits(acc, e, nbits - e);
    LowSmall(acc, nbits);
  }

  lemma PackFlush(vs: seq<nat>, w: nat, out: seq<byte>, acc: nat, nbits: nat)
    requires 0 < nbits < 8 && PackState(vs, w, out, acc, nbits, |vs|)
    ensures Low(acc, 8) < 256
    ensures Val(out + [Low(acc, 8)], 8) == Val(vs[..|vs|], w)
  {
    Pow2Byte();
    EmitDigit(out, acc, 8, 8 * |out|);
    Pow2Monotone(nbits, 8);
    LowSmall(acc, 8);
    ShlZero(8 + 8 * |out|);
  }

  // ----- unpacking

  lemma MulMono(w: nat, a: nat, b: nat)
    requires a <= b
    ensures w * a <= w * b
  {
  }

  /** acc holds the nbits bits read past the first i values, which end at bit `base`. */
  ghost predicate UnpackState(vs: seq<nat>, w: nat, i: nat, base: nat, pos: nat, acc: nat, nbits: nat)
    requires i <= |vs|
  {
    && base == w * i
    && 8 * pos == base + nbits
    && acc == Low(Val(vs[i..], w), nbits)
  }

  /** Reads `count` values of the given width; src starts with the packing of vs. */
  method UnpackBits(src: seq<byte>, count: nat, width: nat, ghost vs: seq<uint32>)
    returns (out: seq<uint32>, pos: nat)
    requires width <= 32 && |vs| == count
    requires Fits(vs, EffWidth(width)) && Packed(vs, width) <= src
    ensures out == vs && pos == PackedLen(count, width)
  {
    var w := EffWidth(width);
    var mask := Mask64(w);
    var acc: nat, nbits: nat := 0, 0;
    ghost var base: nat := 0;
    out, pos := [], 0;
    for i := 0 to count
      invariant nbits < 8 && UnpackState(vs, w, i, base, pos, acc, nbits)
      invariant out == vs[..i]
    {
      while nbits < w
        invariant nbits < w + 8 && UnpackState(vs, w, i, base, pos, acc, nbits)
      {
        UnpackRefill(src, vs, width, i, base, pos, acc, nbits);
        acc := Or(acc, Shl64(src[pos], nbits));
        pos := pos + 1;
        nbits := nbits + 8;
      }
      UnpackTake(vs, w, i, base, pos, acc, nbits);
      out := out + [And(acc, mask)];
      acc := Shr(acc, w);
      nbits := nbits - w;
      base := base + w;
    }
  }

  lemma UnpackRefill(src: seq<byte>, vs: seq<nat>, width: nat, i: nat, base: nat, pos: nat, acc: nat, nbits: nat)
    requires width <= 32 && Fits(vs, EffWidth(width)) && Packed(vs, width) <= src
    requires i < |vs| && nbits < EffWidth(width)
    requires UnpackState(vs, EffWidth(width), i, base, pos, acc, nbits)
    ensures pos < PackedLen(|vs|, width) <= |src|
    ensures UnpackState(vs, EffWidth(width), i, base, pos + 1, Or(acc, Shl64(src[pos], nbits)), nbits + 8)
  {
    var w := EffWidth(width);
    var n, x := Val(vs, w), Val(vs[i..], w);
    MulMono(w, i + 1, |vs|);
    MulSucc(w, i + 1);
    DigitsAt(n, PackedLen(|vs|, width), 8, pos);
    assert src[pos] == Packed(vs, width)[pos];
    ValDrop(vs, w, i);
    SplitBits(n, base, nbits);
    assert src[pos] == Low(Shr(x, nbits), 8);
    RefillByte(x, src[pos], nbits);
  }

  lemma RefillByte(x: nat, b: byte, nbits: nat)
    requires b == Low(Shr(x, nbits), 8) && nbits <= 56
    ensures Or(Low(x, nbits), Shl64(b, nbits)) == Low(x, nbits + 8)
  {
    SplitBits(x, nbits, 8);
    ShlExact(b, nbits, 8);
    OrDisjoint(nbits, Low(x, nbits), b);
  }

  lemma UnpackTake(vs: seq<nat>, w: nat, i: nat, base: nat, pos: nat, acc: nat, nbits: nat)
    requires 1 <= w <= 32 && Fits(vs, w) && i < |vs| && w <= nbits
    requires UnpackState(vs, w, i, base, pos, acc, nbits)
    ensures And(acc, Mask64(w)) == vs[i]
    ensures UnpackState(vs, w, i + 1, base + w, pos, Shr(acc, w), nbits - w)
  {
    assert vs[i..][1..] == vs[i + 1..];
    TakeDigit(Val(vs[i..], w), w, Val(vs[i + 1..], w), vs[i], nbits);
    MulSucc(w, i + 1);
  }

  lemma TakeDigit(x: nat, w: nat, hi: nat, lo: nat, nbits: nat)
    requires w < 64 && w <= nbits && lo < Pow2(w) && x == lo + Shl(hi, w)
    ensures And(Low(x, nbits), Mask64(w)) == lo
    ensures Shr(Low(x, nbits), w) == Low(hi, nbits - w)
  {
    TakeLow(x, w, hi, lo, nbits - w);
    AndMask(Low(x, nbits), w);
  }

  lemma TakeLow(x: nat, w: nat, hi: nat, lo: nat, b: nat)
    requires lo < Pow2(w) && x == lo + Shl(hi, w)
    ensures Low(Low(x, w + b), w) == lo && Shr(Low(x, w + b), w) == Low(hi, b)
  {
    HighLow(x, w, hi, lo);
    SplitBits(x, w, b);
  }

  // ----- LEB128

  function Uvarint(x: nat): (bs: seq<byte>)
    ensures |bs| >= 1
  {
    if x < 0x80 then [x] else [x % 0x80 + 0x80] + Uvarint(x / 0x80)
  }

  lemma Pow2Seven(k: nat)
    ensures Pow2(k + 7) == 0x80 * Pow2(k)
  {
    assert Pow2(k + 2) == 4 * Pow2(k);
    assert Pow2(k + 4) == 4 * Pow2(k + 2);
    assert Pow2(k + 6) == 4 * Pow2(k + 4);
  }

  /** No shorter string of seven-bit groups holds x. */
  lemma {:induction false} UvarintIsShortest(x: nat, n: nat)
    requires n >= 1
    ensures x < Pow2(7 * n) <==> |Uvarint(x)| <= n
  {
    Pow2Seven(7 * (n - 1));
    if x < 0x80 {
      Pow2Monotone(0, 7 * (n - 1));
    } else if n > 1 {
      UvarintIsShortest(x / 0x80, n - 1);
    }
  }

  method AppendUvarint(dst: seq<byte>, x0: uint64) returns (r: seq<byte>)
    ensures r == dst + Uvarint(x0)
  {
    var x: nat := x0;
    r := dst;
    while x >= 0x80
      invariant r + Uvarint(x) == dst + Uvarint(x0)
    {
      ContinuationByte(x);
      r := r + [Or(x % 0x100, 0x80)];
      x := Shr(x, 7);
    }
    r := r + [x];
  }

  lemma ContinuationByte(x: nat)
    ensures Or(x % 0x100, 0x80) == x % 0x80 + 0x80
    ensures Shr(x, 7) == x / 0x80
  {
    Pow2Byte();
    ByteOf(x);
    OrHighBit(x % 0x100, x % 0x80, x % 0x100 / 0x80);
    ShlSeven(x / 0x80);
    HighLow(x, 7, x / 0x80, x % 0x80);
  }

  lemma ByteOf(x: nat)
    ensures x % 0x100 == x % 0x80 + 0x80 * (x % 0x100 / 0x80) && x % 0x100 / 0x80 < 2
  {
    var b := x % 0x100;
    assert b % 0x80 == x % 0x80 by {
      var q := x / 0x100;
      assert x == 0x80 * (2 * q) + b;
      SameRemainder(2 * q, b);
    }
  }

  lemma {:induction false} SameRemainder(q: nat, b: nat)
    ensures (0x80 * q + b) % 0x80 == b % 0x80
  {
  }

  lemma OrHighBit(b: nat, lo: nat, hi: nat)
    requires lo < Pow2(7) && hi < 2 && b == lo + 0x80 * hi
    ensures Or(b, 0x80) == lo + 0x80
  {
    ShlSeven(1);
    ShlSeven(hi);
    OrSplit(7, lo, hi, 1);
    OrBit(hi);
  }

  lemma OrBit(b: nat)
    requires b < 2
    ensures Or(b, 1) == 1
  {
    assert Or(0, 0) == 0;
  }

  /** x holds the low s bits of x0, and rest, still to be read, the bits above them. */
  ghost predicate ReadState(x0: uint64, i: nat, x: nat, rest: nat)
  {
    && i < |Uvarint(x0)|
    && Uvarint(rest) == Uvarint(x0)[i..]
    && x < Pow2(7 * i)
    && x + Shl(rest, 7 * i) == x0
  }

  /** If src starts with the varint, the state is that of its first i bytes. */
  ghost predicate ReadSoFar(src: seq<byte>, x0: uint64, i: nat, x: nat, rest: nat)
  {
    Uvarint(x0) <= src ==> ReadState(x0, i, x, rest)
  }

  lemma UvarintStep(src: seq<byte>, x0: uint64, i: nat, x: nat, rest: nat)
    requires i < |src| && ReadSoFar(src, x0, i, x, rest)
    ensures src[i] < 0x80 && Uvarint(x0) <= src ==> Or(x, Shl64(src[i], 7 * i)) == x0 && i + 1 == |Uvarint(x0)|
    ensures src[i] >= 0x80 ==> ReadSoFar(src, x0, i + 1, Or(x, Shl64(And(src[i], 0x7f), 7 * i)), rest / 0x80)
  {
    if Uvarint(x0) <= src {
      assert Uvarint(x0)[i] == src[i];
      if src[i] < 0x80 {
        UvarintLast(x0, i, x, rest);
      } else {
        MaskSeven(src[i]);
        UvarintMore(x0, i, x, rest);
      }
    }
  }

  lemma MaskSeven(b: nat)
    ensures And(b, 0x7f) == Low(b, 7)
  {
    AndMask(b, 7);
  }

  /** Reads one varint; (0, 0) when src ends inside one. */
  method ReadUvarint(src: seq<byte>, ghost x0: uint64) returns (x: nat, n: nat)
    ensures Uvarint(x0) <= src ==> x == x0 && n == |Uvarint(x0)|
    ensures (forall k :: 0 <= k < |src| ==> src[k] >= 0x80) ==> x == 0 && n == 0
    ensures n <= |src|
  {
    x := 0;
    var s: nat := 0;
    ghost var rest: nat := x0;
    for i := 0 to |src|
      invariant s == 7 * i && ReadSoFar(src, x0, i, x, rest)
    {
      var b := src[i];
      UvarintStep(src, x0, i, x, rest);
      if b < 0x80 {
        return Or(x, Shl64(b, s)), i + 1;
      }
      x := Or(x, Shl64(And(b, 0x7f), s));
      s := s + 7;
      rest := rest / 0x80;
    }
    return 0, 0;
  }

  lemma UvarintLast(x0: uint64, i: nat, x: nat, rest: nat)
    requires ReadState(x0, i, x, rest) && Uvarint(x0)[i] < 0x80
    ensures Or(x, Shl64(Uvarint(x0)[i], 7 * i)) == x0 && i + 1 == |Uvarint(x0)|
  {
    assert Uvarint(x0)[i] == Uvarint(rest)[0] == rest;
    Pow2Word();
    LowSmall(Shl(rest, 7 * i), 64);
    OrDisjoint(7 * i, x, rest);
  }

  lemma UvarintMore(x0: uint64, i: nat, x: nat, rest: nat)
    requires ReadState(x0, i, x, rest) && Uvarint(x0)[i] >= 0x80
    ensures ReadState(x0, i + 1, Or(x, Shl64(Low(Uvarint(x0)[i], 7), 7 * i)), rest / 0x80)
  {
    var b, lo, hi := Uvarint(x0)[i], rest % 0x80, rest / 0x80;
    assert b == Uvarint(rest)[0] == lo + 0x80;
    assert Low(b, 7) == lo by {
      Pow2Byte();
      ShlSeven(1);
      HighLow(b, 7, 1, lo);
    }
    assert Uvarint(hi) == Uvarint(rest)[1..] == Uvarint(x0)[i..][1..] == Uvarint(x0)[i + 1..];
    ShlSeven(hi);
    UvarintAccumulate(x0, x, rest, lo, hi, 7 * i);
  }

  lemma UvarintAccumulate(x0: uint64, x: nat, rest: nat, lo: nat, hi: nat, s: nat)
    requires x < Pow2(s) && x + Shl(rest, s) == x0
    requires lo < 0x80 && rest == lo + Shl(hi, 7)
    ensures var y := Or(x, Shl64(lo, s)); y < Pow2(s + 7) && y + Shl(hi, s + 7) == x0
  {
    ShlAdd(lo, Shl(hi, 7), s);
    ShlShl(hi, 7, s);
    assert x0 < Pow2(64) by { Pow2Word(); }
    LowSmall(Shl(lo, s), 64);
    OrDisjoint(s, x, lo);
    Pow2Byte();
    ShlBound(lo, x, 7, s);
  }
}
