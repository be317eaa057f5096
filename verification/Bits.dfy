/** Machine integers as naturals: shifts, masks and bitwise operators, one binary digit at a time. */
module Bits {

  type byte = x: int | 0 <= x < 0x100
  type uint32 = x: int | 0 <= x < 0x1_0000_0000
  type uint64 = x: int | 0 <= x < 0x1_0000_0000_0000_0000

  function Pow2(n: nat): (r: nat)
    ensures r > 0
  {
    if n == 0 then 1 else 2 * Pow2(n - 1)
  }

  /** `x << n` with no word size. */
  function Shl(x: nat, n: nat): nat
  {
    if n == 0 then x else 2 * Shl(x, n - 1)
  }

  /** `x >> n`. */
  function Shr(x: nat, n: nat): nat
    decreases n, x
  {
    if n == 0 then x else Shr(x / 2, n - 1)
  }

  /** The low n bits of x. */
  function Low(x: nat, n: nat): (r: nat)
    ensures r < Pow2(n)
    decreases n, x
  {
    if n == 0 then 0 else x % 2 + 2 * Low(x / 2, n - 1)
  }

  /** `x << n` on a uint64: bits shifted past the top are lost. */
  function Shl64(x: nat, n: nat): nat
  {
    Low(Shl(x, n), 64)
  }

  function Or(a: nat, b: nat): nat
    decreases a + b
  {
    if a == 0 && b == 0 then 0
    else 2 * Or(a / 2, b / 2) + (if a % 2 == 1 || b % 2 == 1 then 1 else 0)
  }

  function And(a: nat, b: nat): nat
    decreases a + b
  {
    if a == 0 && b == 0 then 0
    else 2 * And(a / 2, b / 2) + (if a % 2 == 1 && b % 2 == 1 then 1 else 0)
  }

  /** `1 << n - 1` on a uint64. */
  function Mask64(n: nat): (m: nat)
    requires n < 64
    ensures m == Pow2(n) - 1
  {
    ShlExact(1, n, 1);
    ShlOne(n);
    Shl64(1, n) - 1
  }

  // ----- byte strings

  lemma Assoc(a: seq<byte>, b: seq<byte>, c: seq<byte>)
    ensures a + b + c == a + (b + c)
  {
  }

  /** A string that starts with h + t starts with h, and what follows h starts with t. */
  lemma SplitPrefix(s: seq<byte>, h: seq<byte>, t: seq<byte>)
    ensures h + t <= s ==> |h| <= |s| && h <= s && t <= s[|h|..]
  {
    if h + t <= s {
      assert h == (h + t)[..|h|] == s[..|h|];
      assert forall k :: 0 <= k < |t| ==> t[k] == (h + t)[|h| + k] == s[|h| + k];
    }
  }

  lemma DropDrop(s: seq<byte>, a: nat, b: nat)
    requires a + b <= |s|
    ensures s[a..][b..] == s[a + b..]
  {
  }

  // ----- powers of two and shifts

  lemma Pow2Byte()
    ensures Pow2(7) == 0x80 && Pow2(8) == 0x100
  {
  }

  lemma Pow2Word()
    ensures Pow2(16) == 0x1_0000 && Pow2(24) == 0x100_0000
    ensures Pow2(32) == 0x1_0000_0000 && Pow2(64) == 0x1_0000_0000_0000_0000
  {
    Pow2Byte();
    assert Pow2(16) == 0x100 * Pow2(8);
    assert Pow2(24) == 0x100 * Pow2(16);
    assert Pow2(32) == 0x100 * Pow2(24);
    assert Pow2(40) == 0x100 * Pow2(32);
    assert Pow2(48) == 0x100 * Pow2(40);
    assert Pow2(56) == 0x100 * Pow2(48);
    assert Pow2(64) == 0x100 * Pow2(56);
  }

  lemma {:induction false} Pow2Monotone(a: nat, b: nat)
    requires a <= b
    ensures Pow2(a) <= Pow2(b)
  {
    if a < b {
      Pow2Monotone(a, b - 1);
    }
  }

  lemma {:induction false} ShlOne(n: nat)
    ensures Shl(1, n) == Pow2(n)
  {
    if n > 0 { ShlOne(n - 1); }
  }

  lemma {:induction false} ShlZero(n: nat)
    ensures Shl(0, n) == 0
  {
    if n > 0 { ShlZero(n - 1); }
  }

  lemma ShlSeven(x: nat)
    ensures Shl(x, 7) == 0x80 * x
  {
    assert Shl(x, 3) == 8 * x by { assert Shl(x, 1) == 2 * x; }
    assert Shl(x, 5) == 4 * Shl(x, 3);
    assert Shl(x, 7) == 4 * Shl(x, 5);
  }

  lemma {:induction false} ShlAdd(x: nat, y: nat, n: nat)
    ensures Shl(x + y, n) == Shl(x, n) + Shl(y, n)
  {
    if n > 0 { ShlAdd(x, y, n - 1); }
  }

  lemma {:induction false} ShlShl(x: nat, a: nat, b: nat)
    ensures Shl(Shl(x, a), b) == Shl(x, a + b)
  {
    if b > 0 { ShlShl(x, a, b - 1); }
  }

  /** Below `hi` high bits and `n` low ones there is room for `hi + n` bits. */
  lemma {:induction false} ShlBound(h: nat, l: nat, bits: nat, n: nat)
    requires h < Pow2(bits) && l < Pow2(n)
    ensures l + Shl(h, n) < Pow2(bits + n)
  {
    if n > 0 {
      ShlBound(h, l / 2, bits, n - 1);
    }
  }

  /** A shift that stays inside the word loses nothing. */
  lemma ShlExact(x: nat, n: nat, bits: nat)
    requires x < Pow2(bits) && bits + n <= 64
    ensures Shl64(x, n) == Shl(x, n) < Pow2(bits + n)
  {
    ShlBound(x, 0, bits, n);
    Pow2Monotone(bits + n, 64);
    LowSmall(Shl(x, n), 64);
  }

  // ----- high and low parts

  lemma Halve(lo: nat, y: nat)
    ensures (lo + 2 * y) / 2 == lo / 2 + y && (lo + 2 * y) % 2 == lo % 2
  {
  }

  /** A value is its high and low parts, and they are determined by it. */
  lemma {:induction false} HighLow(x: nat, n: nat, hi: nat, lo: nat)
    requires lo < Pow2(n) && x == lo + Shl(hi, n)
    ensures Shr(x, n) == hi && Low(x, n) == lo
    decreases n
  {
    if n > 0 {
      Halve(lo, Shl(hi, n - 1));
      HighLow(x / 2, n - 1, hi, lo / 2);
    }
  }

  lemma {:induction false} Recompose(x: nat, n: nat)
    ensures x == Low(x, n) + Shl(Shr(x, n), n)
    decreases n
  {
    if n > 0 { Recompose(x / 2, n - 1); }
  }

  lemma LowSmall(x: nat, n: nat)
    requires x < Pow2(n)
    ensures Low(x, n) == x && Shr(x, n) == 0
  {
    ShlZero(n);
    HighLow(x, n, 0, x);
  }

  /** The low `a + b` bits of x are its low `a` bits and the next `b` bits above them;
      and shifting by `a` then by `b` is shifting by `a + b`. */
  lemma {:induction false} SplitBits(x: nat, a: nat, b: nat)
    ensures Low(x, a + b) == Low(x, a) + Shl(Low(Shr(x, a), b), a)
    ensures Shr(Low(x, a + b), a) == Low(Shr(x, a), b)
    ensures Low(Low(x, a + b), a) == Low(x, a)
    ensures Shr(Shr(x, a), b) == Shr(x, a + b)
    decreases a
  {
    if a == 0 {
    } else {
      SplitBits(x / 2, a - 1, b);
      assert a + b - 1 == a - 1 + b;
      HighLow(Low(x, a + b), a, Low(Shr(x, a), b), Low(x, a));
    }
  }

  // ----- bitwise operators are arithmetic on disjoint bits

  lemma OrStep(u: nat, v: nat)
    ensures Or(u, v) == 2 * Or(u / 2, v / 2) + (if u % 2 == 1 || v % 2 == 1 then 1 else 0)
  {
  }

  lemma {:induction false} OrSplit(n: nat, lo: nat, a: nat, b: nat)
    requires lo < Pow2(n)
    ensures Or(lo + Shl(a, n), Shl(b, n)) == lo + Shl(Or(a, b), n)
  {
    if n == 0 {
    } else {
      OrSplit(n - 1, lo / 2, a, b);
      Halve(lo, Shl(a, n - 1));
      Halve(0, Shl(b, n - 1));
      OrStep(lo + Shl(a, n), Shl(b, n));
    }
  }

  /** Or-ing a value shifted above `n` bits into an `n`-bit accumulator adds it. */
  lemma OrDisjoint(n: nat, acc: nat, v: nat)
    requires acc < Pow2(n)
    ensures Or(acc, Shl(v, n)) == acc + Shl(v, n)
  {
    ShlZero(n);
    OrSplit(n, acc, 0, v);
    OrZero(v);
  }

  lemma {:induction false} OrZero(v: nat)
    ensures Or(0, v) == v
  {
    if v > 0 { OrZero(v / 2); }
  }

  lemma AndStep(u: nat, v: nat)
    ensures And(u, v) == 2 * And(u / 2, v / 2) + (if u % 2 == 1 && v % 2 == 1 then 1 else 0)
  {
  }

  /** Masking with `2^n - 1` keeps the low `n` bits. */
  lemma {:induction false} AndMask(x: nat, n: nat)
    ensures And(x, Pow2(n) - 1) == Low(x, n)
    decreases n
  {
    if n == 0 {
      AndZero(x);
    } else {
      AndMask(x / 2, n - 1);
      AndStep(x, Pow2(n) - 1);
    }
  }

  lemma {:induction false} AndZero(x: nat)
    ensures And(x, 0) == 0
  {
    if x > 0 { AndZero(x / 2); }
  }

  // ----- little-endian positional numbers, w bits a digit

  ghost predicate Fits(ds: seq<nat>, w: nat)
  {
    forall i :: 0 <= i < |ds| ==> ds[i] < Pow2(w)
  }

  ghost function Val(ds: seq<nat>, w: nat): nat
  {
    if ds == [] then 0 else ds[0] + Shl(Val(ds[1..], w), w)
  }

  ghost function Digits(n: nat, len: nat, w: nat): (ds: seq<nat>)
    ensures |ds| == len
    ensures Fits(ds, w)
    decreases len, n
  {
    if len == 0 then [] else [Low(n, w)] + Digits(Shr(n, w), len - 1, w)
  }

  lemma MulSucc(w: nat, k: nat)
    requires k > 0
    ensures w + w * (k - 1) == w * k
  {
  }

  lemma {:induction false} DigitsAt(n: nat, len: nat, w: nat, k: nat)
    requires k < len
    ensures Digits(n, len, w)[k] == Low(Shr(n, w * k), w)
    decreases len
  {
    if k == 0 {
      assert w * k == 0;
    } else {
      DigitsAt(Shr(n, w), len - 1, w, k - 1);
      SplitBits(n, w, w * (k - 1));
      MulSucc(w, k);
    }
  }

  lemma {:induction false} DigitsOfVal(ds: seq<nat>, w: nat)
    requires Fits(ds, w)
    ensures Digits(Val(ds, w), |ds|, w) == ds
    decreases |ds|
  {
    if ds != [] {
      DigitsOfVal(ds[1..], w);
      HighLow(Val(ds, w), w, Val(ds[1..], w), ds[0]);
      assert ds == [ds[0]] + ds[1..];
    }
  }

  lemma {:induction false} ValOfDigits(n: nat, len: nat, w: nat)
    requires n < Pow2(w * len)
    ensures Val(Digits(n, len, w), w) == n
    decreases len
  {
    if len == 0 {
      assert w * len == 0;
    } else {
      MulSucc(w, len);
      SplitBits(n, w, w * (len - 1));
      LowSmall(n, w * len);
      ValOfDigits(Shr(n, w), len - 1, w);
      Recompose(n, w);
      assert Digits(n, len, w)[1..] == Digits(Shr(n, w), len - 1, w);
    }
  }

  /** Dropping k digits shifts out `w k` bits. */
  lemma {:induction false} ValDrop(ds: seq<nat>, w: nat, k: nat)
    requires Fits(ds, w) && k <= |ds|
    ensures Shr(Val(ds, w), w * k) == Val(ds[k..], w)
    decreases k
  {
    if k == 0 {
      assert ds[0..] == ds;
    } else {
      ValDrop(ds[1..], w, k - 1);
      assert ds[1..][k - 1..] == ds[k..];
      HighLow(Val(ds, w), w, Val(ds[1..], w), ds[0]);
      SplitBits(Val(ds, w), w, w * (k - 1));
      MulSucc(w, k);
    }
  }

  lemma {:induction false} ValSnoc(ds: seq<nat>, d: nat, w: nat)
    ensures Val(ds + [d], w) == Val(ds, w) + Shl(d, w * |ds|)
    decreases |ds|
  {
    if ds == [] {
      ShlZero(w);
      assert w * |ds| == 0;
    } else {
      ValSnoc(ds[1..], d, w);
      assert (ds + [d])[1..] == ds[1..] + [d];
      MulSucc(w, |ds|);
      ShlAdd(Val(ds[1..], w), Shl(d, w * (|ds| - 1)), w);
      ShlShl(d, w * (|ds| - 1), w);
    }
  }

  /** Moving the low digit of acc to the end of ds keeps the number they spell. */
  lemma EmitDigit(ds: seq<nat>, acc: nat, w: nat, e: nat)
    requires e == w * |ds|
    ensures Val(ds + [Low(acc, w)], w) + Shl(Shr(acc, w), w + e) == Val(ds, w) + Shl(acc, e)
  {
    ValSnoc(ds, Low(acc, w), w);
    RescaleParts(acc, w, e);
  }

  lemma RescaleParts(acc: nat, w: nat, e: nat)
    ensures Shl(acc, e) == Shl(Low(acc, w), e) + Shl(Shr(acc, w), w + e)
  {
    Recompose(acc, w);
    ShlAdd(Low(acc, w), Shl(Shr(acc, w), w), e);
    ShlShl(Shr(acc, w), w, e);
  }

  lemma {:induction false} ValBound(ds: seq<nat>, w: nat)
    requires Fits(ds, w)
    ensures Val(ds, w) < Pow2(w * |ds|)
    decreases |ds|
  {
    if ds == [] {
      assert w * |ds| == 0;
    } else {
      ValBound(ds[1..], w);
      MulSucc(w, |ds|);
      ShlBound(Val(ds[1..], w), ds[0], w * (|ds| - 1), w);
    }
  }
}
