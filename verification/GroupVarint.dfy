/** Group-varint framing: four values behind one control byte (index/postings/groupvarint.go). */
module GroupVarint {
  import opened Bits

  /** The number of bytes (1..4) needed to hold v. */
  function ByteLen(v: uint32): (l: nat)
    ensures 1 <= l <= 4
  {
    if v < 0x100 then 1 else if v < 0x1_0000 then 2 else if v < 0x100_0000 then 3 else 4
  }

  lemma ByteLenFits(v: uint32)
    ensures v < Pow2(8 * ByteLen(v))
  {
    Pow2Byte();
    Pow2Word();
  }

  /** Fewer bytes do not hold v. */
  lemma ByteLenIsLeast(v: uint32, l: nat)
    requires l >= 1
    ensures v < Pow2(8 * l) <==> ByteLen(v) <= l
  {
    Pow2Byte();
    Pow2Word();
    ByteLenFits(v);
    if ByteLen(v) <= l { Pow2Monotone(8 * ByteLen(v), 8 * l); } else { Pow2Monotone(8 * l, 8 * (ByteLen(v) - 1)); }
  }

  ghost function Lengths(g: seq<uint32>): (ls: seq<nat>)
    ensures |ls| == |g|
  {
    seq(|g|, j requires 0 <= j < |g| => ByteLen(g[j]) - 1)
  }

  lemma LengthsFit(g: seq<uint32>)
    ensures Fits(Lengths(g), 2)
  {
    assert Pow2(2) == 4;
  }

  ghost function LittleEndian(v: uint32): (bs: seq<byte>)
    ensures |bs| == ByteLen(v)
  {
    Pow2Byte();
    Digits(v, ByteLen(v), 8)
  }

  ghost function Data(g: seq<uint32>): seq<byte>
  {
    if g == [] then [] else LittleEndian(g[0]) + Data(g[1..])
  }

  ghost function Control(g: seq<uint32>): byte
    requires |g| <= 4
  {
    LengthsFit(g);
    ControlBound(Lengths(g));
    Val(Lengths(g), 2)
  }

  lemma ControlBound(ls: seq<nat>)
    requires |ls| <= 4 && Fits(ls, 2)
    ensures Val(ls, 2) < 0x100
  {
    ValBound(ls, 2);
    Pow2Monotone(2 * |ls|, 8);
    Pow2Byte();
  }

  ghost function Group(g: seq<uint32>): seq<byte>
    requires |g| <= 4
  {
    [Control(g)] + Data(g)
  }

  function GroupSize(left: nat): (n: nat)
    ensures n <= 4 && n <= left
  {
    if left < 4 then left else 4
  }

  ghost function Encoded(vs: seq<uint32>): seq<byte>
  {
    if vs == [] then []
    else Group(vs[..GroupSize(|vs|)]) + Encoded(vs[GroupSize(|vs|)..])
  }

  lemma EncodedAt(vs: seq<uint32>, i: nat, n: nat)
    requires i < |vs| && n == GroupSize(|vs| - i)
    ensures Encoded(vs[i..]) == Group(vs[i..i + n]) + Encoded(vs[i + n..])
  {
    assert vs[i..][..n] == vs[i..i + n] && vs[i..][n..] == vs[i + n..];
  }

  lemma {:induction false} DataSnoc(g: seq<uint32>, v: uint32)
    ensures Data(g + [v]) == Data(g) + LittleEndian(v)
  {
    if g == [] {
      assert Data([v]) == LittleEndian(v) + Data([]);
    } else {
      assert (g + [v])[1..] == g[1..] + [v];
      DataSnoc(g[1..], v);
    }
  }

  method AppendGroupVarint(dst: seq<byte>, vs: seq<uint32>) returns (r: seq<byte>)
    ensures r == dst + Encoded(vs)
  {
    r := dst;
    var i := 0;
    ghost var done: seq<byte> := [];
    assert vs[0..] == vs;
    while i < |vs|
      invariant 0 <= i <= |vs|
      invariant r == dst + done && done + Encoded(vs[i..]) == Encoded(vs)
    {
      var n := GroupSize(|vs| - i);
      EncodedAt(vs, i, n);
      ghost var g, tail := Group(vs[i..i + n]), Encoded(vs[i + n..]);
      Assoc(dst, done, g);
      Assoc(done, g, tail);
      r := AppendGroup(r, vs[i..i + n]);
      done := done + g;
      i := i + n;
    }
    assert vs[i..] == [];
  }

  /** One group: the control byte built from the lengths, then the data bytes. */
  method ControlOf(g: seq<uint32>) returns (ctrl: byte, lens: seq<nat>)
    requires |g| <= 4
    ensures ctrl == Control(g) && |lens| == |g| && forall k :: 0 <= k < |g| ==> lens[k] == ByteLen(g[k])
  {
    var c: nat := 0;
    lens := [];
    LengthsFit(g);
    for j := 0 to |g|
      invariant |lens| == j && forall k :: 0 <= k < j ==> lens[k] == ByteLen(g[k])
      invariant c == Val(Lengths(g)[..j], 2)
    {
      var l := ByteLen(g[j]);
      lens := lens + [l];
      ControlStep(Lengths(g), j);
      c := Or(c, Shl(l - 1, 2 * j));
    }
    assert Lengths(g)[..|g|] == Lengths(g);
    ControlBound(Lengths(g));
    ctrl := c;
  }

  method AppendGroup(dst: seq<byte>, g: seq<uint32>) returns (r: seq<byte>)
    requires |g| <= 4
    ensures r == dst + Group(g)
  {
    var ctrl, lens := ControlOf(g);
    r := dst + [ctrl];
    for j := 0 to |g|
      invariant r == dst + [Control(g)] + Data(g[..j])
    {
      assert g[..j + 1] == g[..j] + [g[j]];
      DataSnoc(g[..j], g[j]);
      r := AppendBytes(r, g[j], lens[j]);
    }
    assert g[..|g|] == g;
  }

  lemma ControlStep(ls: seq<nat>, j: nat)
    requires Fits(ls, 2) && j < |ls| <= 4
    ensures Val(ls[..j], 2) < Pow2(2 * j)
    ensures Or(Val(ls[..j], 2), Shl(ls[j], 2 * j)) == Val(ls[..j + 1], 2) < Pow2(2 * (j + 1))
  {
    assert ls[..j + 1] == ls[..j] + [ls[j]];
    ValBound(ls[..j], 2);
    ValBound(ls[..j + 1], 2);
    ValSnoc(ls[..j], ls[j], 2);
    OrDisjoint(2 * j, Val(ls[..j], 2), ls[j]);
  }

  /** The innermost loop: l bytes of v, low byte first. */
  method AppendBytes(dst: seq<byte>, v0: uint32, l: nat) returns (r: seq<byte>)
    requires l == ByteLen(v0)
    ensures r == dst + LittleEndian(v0)
  {
    var v: nat := v0;
    r := dst;
    ghost var all := Digits(v0, l, 8);
    for b := 0 to l
      invariant v == Shr(v0, 8 * b)
      invariant r == dst + LittleEndian(v0)[..b]
    {
      DigitsAt(v0, l, 8, b);
      SplitBits(v0, 8 * b, 8);
      Pow2Byte();
      assert LittleEndian(v0)[b] == Low(v, 8);
      assert LittleEndian(v0)[..b + 1] == LittleEndian(v0)[..b] + [LittleEndian(v0)[b]];
      r := r + [Low(v, 8)];
      v := Shr(v, 8);
    }
    assert LittleEndian(v0)[..l] == LittleEndian(v0);
  }

  /** Reads count values; src starts with the framing of vs. */
  /** The groups of vs from i on are in src at pos. */
  ghost predicate GroupsAt(src: seq<byte>, pos: nat, vs: seq<uint32>, i: nat)
    requires i <= |vs|
  {
    pos + |Encoded(vs[i..])| == |Encoded(vs)| <= |src| && Encoded(vs[i..]) <= src[pos..]
  }

  lemma GroupHere(src: seq<byte>, pos: nat, vs: seq<uint32>, i: nat, n: nat)
    requires i < |vs| && n == GroupSize(|vs| - i) && GroupsAt(src, pos, vs, i)
    ensures Group(vs[i..i + n]) <= src[pos..] && GroupsAt(src, pos + |Group(vs[i..i + n])|, vs, i + n)
  {
    EncodedAt(vs, i, n);
    SplitPrefix(src[pos..], Group(vs[i..i + n]), Encoded(vs[i + n..]));
    DropDrop(src, pos, |Group(vs[i..i + n])|);
  }

  lemma TakeTake(vs: seq<uint32>, i: nat, n: nat)
    requires i + n <= |vs|
    ensures vs[..i] + vs[i..i + n] == vs[..i + n]
  {
  }

  method ReadGroupVarint(src: seq<byte>, count: nat, ghost vs: seq<uint32>)
    returns (out: seq<uint32>, pos: nat)
    requires |vs| == count && Encoded(vs) <= src
    ensures out == vs && pos == |Encoded(vs)|
  {
    out, pos := [], 0;
    var i := 0;
    assert vs[0..] == vs && src[0..] == src;
    while i < count
      invariant 0 <= i <= count && out == vs[..i] && GroupsAt(src, pos, vs, i)
    {
      var n := GroupSize(count - i);
      GroupHere(src, pos, vs, i, n);
      var part, used := ReadGroup(src[pos..], n, vs[i..i + n]);
      TakeTake(vs, i, n);
      out := out + part;
      pos := pos + used;
      i := i + n;
    }
  }

  method ReadGroup(src: seq<byte>, n: nat, ghost g: seq<uint32>) returns (out: seq<uint32>, pos: nat)
    requires |g| == n <= 4 && Group(g) <= src
    ensures out == g && pos == |Group(g)|
  {
    SplitPrefix(src, [Control(g)], Data(g));
    var ctrl: nat := src[0];
    out, pos := [], 1;
    assert g[0..] == g;
    for j := 0 to n
      invariant out == g[..j] && pos <= |src|
      invariant pos + |Data(g[j..])| == 1 + |Data(g)|
      invariant Data(g[j..]) <= src[pos..]
    {
      assert g[j..][1..] == g[j + 1..];
      ControlDigit(g, j);
      var l := And(Shr(ctrl, 2 * j), 3) + 1;
      SplitPrefix(src[pos..], LittleEndian(g[j]), Data(g[j + 1..]));
      var v := ReadBytes(src[pos..], l, g[j]);
      DropDrop(src, pos, l);
      pos := pos + l;
      out := out + [v];
    }
  }

  lemma ControlDigit(g: seq<uint32>, j: nat)
    requires j < |g| <= 4
    ensures And(Shr(Control(g), 2 * j), 3) == ByteLen(g[j]) - 1
  {
    LengthsFit(g);
    DigitsOfVal(Lengths(g), 2);
    DigitsAt(Val(Lengths(g), 2), |g|, 2, j);
    assert Pow2(2) == 4;
    AndMask(Shr(Control(g), 2 * j), 2);
  }

  /** The innermost loop: l bytes, low byte first. */
  method ReadBytes(src: seq<byte>, l: nat, ghost v0: uint32) returns (v: uint32)
    requires l == ByteLen(v0) && LittleEndian(v0) <= src
    ensures v == v0
  {
    var acc: nat := 0;
    ghost var bs := LittleEndian(v0);
    Pow2Byte();
    for b := 0 to l
      invariant acc == Val(bs[..b], 8) && acc < Pow2(8 * b)
    {
      assert src[b] == bs[b];
      assert bs[..b + 1] == bs[..b] + [bs[b]];
      ValSnoc(bs[..b], bs[b], 8);
      ValBound(bs[..b + 1], 8);
      OrDisjoint(8 * b, acc, bs[b]);
      acc := Or(acc, Shl(src[b], 8 * b));
    }
    assert bs[..l] == bs;
    ByteLenFits(v0);
    ValOfDigits(v0, l, 8);
    v := acc;
  }
}
