/** Patched Frame-of-Reference with exception records (index/postings/pfordelta.go). */
module PForDelta {
  import opened Bits
  import opened BitPack

  datatype Patch = Patch(at: nat, value: uint32)

  /** The largest value that fits in w bits. */
  function Limit(w: nat): (l: uint32)
    requires 1 <= w <= 32
    ensures l == Pow2(w) - 1
  {
    Pow2Word();
    Pow2Monotone(w, 32);
    if w < 32 then Pow2(w) - 1 else 0xFFFF_FFFF
  }

  // ----- the cost of a width

  function ExceptionCount(vs: seq<uint32>, w: nat): (n: nat)
    requires 1 <= w <= 32
    ensures n <= |vs|
  {
    if vs == [] then 0
    else ExceptionCount(vs[..|vs| - 1], w) + (if vs[|vs| - 1] > Limit(w) then 1 else 0)
  }

  function ExceptionBytes(vs: seq<uint32>, w: nat): nat
    requires 1 <= w <= 32
  {
    if vs == [] then 0
    else
      var v := vs[|vs| - 1];
      ExceptionBytes(vs[..|vs| - 1], w) + (if v > Limit(w) then 1 + |Uvarint(v)| else 0)
  }

  function Cost(vs: seq<uint32>, w: nat): nat
    requires 1 <= w <= 32
  {
    PackedLen(|vs|, w) + ExceptionBytes(vs, w)
  }

  /** The cheapest width up to `upto`, the narrowest one on ties. */
  function BestWidth(vs: seq<uint32>, upto: nat): (w: nat)
    requires 1 <= upto <= 32
    ensures 1 <= w <= upto
    decreases upto, vs
  {
    if upto == 1 then 1
    else
      var b := BestWidth(vs, upto - 1);
      if Cost(vs, upto) < Cost(vs, b) then upto else b
  }

  lemma {:induction false} BestWidthIsCheapest(vs: seq<uint32>, upto: nat, u: nat)
    requires 1 <= u <= upto <= 32
    ensures var w := BestWidth(vs, upto);
            Cost(vs, w) <= Cost(vs, u) && (u < w ==> Cost(vs, w) < Cost(vs, u))
    decreases upto
  {
    if upto > 1 {
      BestWidthIsCheapest(vs, upto - 1, if u == upto then BestWidth(vs, upto - 1) else u);
    }
  }

  method UvarintLen(x0: uint64) returns (n: nat)
    ensures n == |Uvarint(x0)|
  {
    var x: nat := x0;
    n := 1;
    while x >= 0x80
      invariant n + |Uvarint(x)| == 1 + |Uvarint(x0)|
    {
      ContinuationByte(x);
      x := Shr(x, 7);
      n := n + 1;
    }
  }

  method ChooseWidth(vs: seq<uint32>) returns (width: nat, exceptions: nat)
    ensures width == BestWidth(vs, 32) && exceptions == ExceptionCount(vs, width)
  {
    var best, bestW, bestExc := -1, 1, 0;
    for w := 1 to 33
      invariant w == 1 ==> best < 0
      invariant w > 1 ==>
                  && bestW == BestWidth(vs, w - 1)
                  && best == Cost(vs, bestW) && bestExc == ExceptionCount(vs, bestW)
    {
      var limit := Limit(w);
      var exc, excBytes := 0, 0;
      for i := 0 to |vs|
        invariant exc == ExceptionCount(vs[..i], w) && excBytes == ExceptionBytes(vs[..i], w)
      {
        assert vs[..i + 1][..i] == vs[..i];
        if vs[i] > limit {
          exc := exc + 1;
          var l := UvarintLen(vs[i]);
          excBytes := excBytes + 1 + l;
        }
      }
      assert vs[..|vs|] == vs;
      var cost := PackedLen(|vs|, w) + excBytes;
      if best < 0 || cost < best {
        best, bestW, bestExc := cost, w, exc;
      }
    }
    return bestW, bestExc;
  }

  // ----- the layout

  /** The values that do not fit in w bits, with their positions, in order. */
  ghost function Patches(vs: seq<uint32>, w: nat): (ps: seq<Patch>)
    requires 1 <= w <= 32
    ensures |ps| == ExceptionCount(vs, w)
    ensures forall i :: 0 <= i < |ps| ==> ps[i].at < |vs|
  {
    if vs == [] then []
    else
      var k := |vs| - 1;
      var before := Patches(vs[..k], w);
      before + (if vs[k] > Limit(w) then [Patch(k, vs[k])] else [])
  }

  lemma {:induction false} PatchesCover(vs: seq<uint32>, w: nat)
    requires 1 <= w <= 32
    ensures var ps := Patches(vs, w);
            && (forall i :: 0 <= i < |ps| ==> vs[ps[i].at] == ps[i].value > Limit(w))
            && (forall k :: 0 <= k < |vs| && vs[k] > Limit(w) ==> Patch(k, vs[k]) in ps)
    decreases |vs|
  {
    if vs != [] {
      PatchesCover(vs[..|vs| - 1], w);
    }
  }

  ghost predicate Positioned(ps: seq<Patch>)
  {
    forall i :: 0 <= i < |ps| ==> ps[i].at < BLOCK_SIZE
  }

  ghost function Records(ps: seq<Patch>): seq<byte>
    requires Positioned(ps)
  {
    if ps == [] then [] else [ps[0].at] + Uvarint(ps[0].value) + Records(ps[1..])
  }

  lemma {:induction false} RecordsSnoc(ps: seq<Patch>, p: Patch)
    requires Positioned(ps) && p.at < BLOCK_SIZE
    ensures Records(ps + [p]) == Records(ps) + ([p.at] + Uvarint(p.value))
  {
    if ps == [] {
      assert Records([p]) == [p.at] + Uvarint(p.value) + Records([]);
    } else {
      assert (ps + [p])[1..] == ps[1..] + [p];
      RecordsSnoc(ps[1..], p);
    }
  }

  ghost function LowBits(vs: seq<uint32>, w: nat): (ls: seq<uint32>)
    requires 1 <= w <= 32
    ensures |ls| == |vs| && Fits(ls, w)
  {
    Pow2Word();
    Pow2Monotone(w, 32);
    seq(|vs|, i requires 0 <= i < |vs| => Low(vs[i], w))
  }

  /** Width, exception count, exception records, packed low bits. */
  ghost function Encoded(vs: seq<uint32>, w: nat): seq<byte>
    requires 1 <= w <= 32 && |vs| <= BLOCK_SIZE
  {
    [w, ExceptionCount(vs, w)] + Records(Patches(vs, w)) + Packed(LowBits(vs, w), w)
  }

  /** The cost minimised is the encoded length, less the two header bytes. */
  lemma EncodedLength(vs: seq<uint32>, w: nat)
    requires 1 <= w <= 32 && |vs| <= BLOCK_SIZE
    ensures |Encoded(vs, w)| == 2 + Cost(vs, w)
  {
    RecordsLength(vs, w);
  }

  lemma {:induction false} RecordsLength(vs: seq<uint32>, w: nat)
    requires 1 <= w <= 32 && |vs| <= BLOCK_SIZE
    ensures |Records(Patches(vs, w))| == ExceptionBytes(vs, w)
    decreases |vs|
  {
    if vs != [] {
      var k := |vs| - 1;
      RecordsLength(vs[..k], w);
      if vs[k] > Limit(w) {
        RecordsSnoc(Patches(vs[..k], w), Patch(k, vs[k]));
      } else {
        assert Patches(vs, w) == Patches(vs[..k], w);
      }
    }
  }

  /** No other width gives a shorter block. */
  lemma ChosenWidthIsOptimal(vs: seq<uint32>, w: nat)
    requires |vs| <= BLOCK_SIZE && 1 <= w <= 32
    ensures |Encoded(vs, BestWidth(vs, 32))| <= |Encoded(vs, w)|
  {
    EncodedLength(vs, w);
    EncodedLength(vs, BestWidth(vs, 32));
    BestWidthIsCheapest(vs, 32, w);
  }

  method AppendPForDelta(dst: seq<byte>, vs: seq<uint32>) returns (r: seq<byte>)
    requires |vs| <= BLOCK_SIZE
    ensures r == dst + Encoded(vs, BestWidth(vs, 32))
  {
    var w, _ := ChooseWidth(vs);
    var low, excPos, excCount := SplitExceptions(vs, w);
    r := dst + [w, excCount];
    r := r + excPos;
    r := PackBits(r, low, w);
    Assoc(dst, [w, excCount], excPos);
    Assoc(dst, [w, excCount] + excPos, Packed(low, w));
  }

  lemma PatchesStep(vs: seq<uint32>, w: nat, i: nat)
    requires |vs| <= BLOCK_SIZE && 1 <= w <= 32 && i < |vs|
    ensures ExceptionCount(vs[..i + 1], w) == ExceptionCount(vs[..i], w) + if vs[i] > Limit(w) then 1 else 0
    ensures Records(Patches(vs[..i + 1], w)) ==
            Records(Patches(vs[..i], w)) + if vs[i] > Limit(w) then [i] + Uvarint(vs[i]) else []
  {
    assert vs[..i + 1][..i] == vs[..i];
    if vs[i] > Limit(w) {
      RecordsSnoc(Patches(vs[..i], w), Patch(i, vs[i]));
      assert Patches(vs[..i + 1], w) == Patches(vs[..i], w) + [Patch(i, vs[i])];
    } else {
      assert Patches(vs[..i + 1], w) == Patches(vs[..i], w);
    }
  }

  method SplitExceptions(vs: seq<uint32>, w: nat)
    returns (low: seq<uint32>, excPos: seq<byte>, excCount: nat)
    requires |vs| <= BLOCK_SIZE && 1 <= w <= 32
    ensures low == LowBits(vs, w) && excCount == ExceptionCount(vs, w)
    ensures excPos == Records(Patches(vs, w))
  {
    var limit := Limit(w);
    low, excPos, excCount := [], [], 0;
    for i := 0 to |vs|
      invariant low == LowBits(vs, w)[..i]
      invariant excCount == ExceptionCount(vs[..i], w)
      invariant excPos == Records(Patches(vs[..i], w))
    {
      AndMask(vs[i], w);
      low := low + [And(vs[i], limit)];
      PatchesStep(vs, w, i);
      if vs[i] > limit {
        Assoc(excPos, [i], Uvarint(vs[i]));
        excCount := excCount + 1;
        excPos := AppendUvarint(excPos + [i], vs[i]);
      }
    }
    assert vs[..|vs|] == vs;
  }

  // ----- reading

  /** Reads count values; src starts with an encoding of vs at some width. */
  method ReadPForDelta(src: seq<byte>, count: nat, ghost vs: seq<uint32>, ghost w0: nat)
    returns (out: seq<uint32>, pos: nat)
    requires |vs| == count <= BLOCK_SIZE && 1 <= w0 <= 32 && Encoded(vs, w0) <= src
    ensures out == vs && pos == |Encoded(vs, w0)|
  {
    ghost var ps, low := Patches(vs, w0), LowBits(vs, w0);
    EncodedParts(src, vs, w0);
    var w := src[0];
    var excCount := src[1];
    var patches;
    patches, pos := ReadPatches(src[2..], excCount, ps, Packed(low, w0));
    pos := pos + 2;
    var used;
    out, used := UnpackBits(src[pos..], count, w, low);
    pos := pos + used;
    out := ApplyPatches(out, patches, vs, w);
  }

  lemma EncodedParts(src: seq<byte>, vs: seq<uint32>, w: nat)
    requires |vs| <= BLOCK_SIZE && 1 <= w <= 32 && Encoded(vs, w) <= src
    ensures |src| >= 2 && src[0] == w && src[1] == |Patches(vs, w)|
    ensures Records(Patches(vs, w)) + Packed(LowBits(vs, w), w) <= src[2..]
    ensures Packed(LowBits(vs, w), w) <= src[2 + |Records(Patches(vs, w))|..]
    ensures |Encoded(vs, w)| == 2 + |Records(Patches(vs, w))| + PackedLen(|vs|, w)
  {
    ThreeParts(src, [w, ExceptionCount(vs, w)], Records(Patches(vs, w)), Packed(LowBits(vs, w), w));
  }

  lemma ThreeParts(s: seq<byte>, head: seq<byte>, mid: seq<byte>, tail: seq<byte>)
    requires head + mid + tail <= s
    ensures head <= s && mid + tail <= s[|head|..] && tail <= s[|head| + |mid|..]
  {
    Assoc(head, mid, tail);
    SplitPrefix(s, head, mid + tail);
    SplitPrefix(s[|head|..], mid, tail);
    DropDrop(s, |head|, |mid|);
  }

  method ReadPatches(src: seq<byte>, excCount: nat, ghost ps: seq<Patch>, ghost body: seq<byte>)
    returns (patches: seq<Patch>, pos: nat)
    requires |ps| == excCount && Positioned(ps) && Records(ps) + body <= src
    ensures patches == ps && pos == |Records(ps)|
  {
    patches, pos := [], 0;
    assert ps[0..] == ps && src[0..] == src;
    for i := 0 to excCount
      invariant patches == ps[..i]
      invariant pos + |Records(ps[i..])| == |Records(ps)| <= |src|
      invariant Records(ps[i..]) + body <= src[pos..]
    {
      RecordsAt(ps, i, body);
      ghost var p, rest := ps[i], Records(ps[i + 1..]) + body;
      var one, n := ReadPatch(src[pos..], p, rest);
      DropDrop(src, pos, n);
      pos := pos + n;
      patches := patches + [one];
    }
  }

  /** One record: a position byte and the full value as a varint. */
  method ReadPatch(src: seq<byte>, ghost p: Patch, ghost rest: seq<byte>) returns (r: Patch, n: nat)
    requires p.at < BLOCK_SIZE && [p.at] + (Uvarint(p.value) + rest) <= src
    ensures r == p && n == 1 + |Uvarint(p.value)| <= |src| && rest <= src[n..]
  {
    SplitPrefix(src, [p.at], Uvarint(p.value) + rest);
    SplitPrefix(src[1..], Uvarint(p.value), rest);
    var v, m := ReadUvarint(src[1..], p.value);
    DropDrop(src, 1, m);
    return Patch(src[0], v), 1 + m;
  }

  lemma RecordsAt(ps: seq<Patch>, i: nat, body: seq<byte>)
    requires Positioned(ps) && i < |ps|
    ensures Records(ps[i..]) + body == [ps[i].at] + (Uvarint(ps[i].value) + (Records(ps[i + 1..]) + body))
    ensures |Records(ps[i..])| == 1 + |Uvarint(ps[i].value)| + |Records(ps[i + 1..])|
  {
    assert ps[i..][0] == ps[i] && ps[i..][1..] == ps[i + 1..];
    var a, u, t := [ps[i].at], Uvarint(ps[i].value), Records(ps[i + 1..]);
    Assoc(a + u, t, body);
    Assoc(a, u, t + body);
  }

  method ApplyPatches(low: seq<uint32>, patches: seq<Patch>, ghost vs: seq<uint32>, ghost w: nat)
    returns (out: seq<uint32>)
    requires 1 <= w <= 32 && low == LowBits(vs, w) && patches == Patches(vs, w)
    ensures out == vs
  {
    PatchesCover(vs, w);
    out := low;
    for i := 0 to |patches|
      invariant |out| == |vs|
      invariant forall k :: 0 <= k < |vs| && vs[k] <= Limit(w) ==> out[k] == low[k]
      invariant forall j :: 0 <= j < i ==> out[patches[j].at] == vs[patches[j].at]
    {
      out := out[patches[i].at := patches[i].value];
    }
    forall k | 0 <= k < |vs|
      ensures out[k] == vs[k]
    {
      if vs[k] <= Limit(w) {
        LowSmall(vs[k], w);
      } else {
        var j :| 0 <= j < |patches| && patches[j] == Patch(k, vs[k]);
      }
    }
  }
}
