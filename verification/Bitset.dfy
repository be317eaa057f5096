/** The live-docs bitset (index/segment/bitset.go). */
module Bitset {
  import opened Bits

  /** Bit k of w. */
  predicate Bit(w: nat, k: nat)
    decreases k, w
  {
    if k == 0 then w % 2 == 1 else Bit(w / 2, k - 1)
  }

  /** `a &^ b`. */
  function AndNot(a: nat, b: nat): (r: nat)
    ensures r <= a
  {
    if a == 0 then 0 else 2 * AndNot(a / 2, b / 2) + (if a % 2 == 1 && b % 2 == 0 then 1 else 0)
  }

  lemma {:induction false} ZeroBit(k: nat)
    ensures !Bit(0, k)
  {
    if k > 0 { ZeroBit(k - 1); }
  }

  /** Testing with a shifted one tests the bit. */
  lemma {:induction false} AndBit(w: nat, k: nat)
    ensures And(w, Shl(1, k)) != 0 <==> Bit(w, k)
    decreases k
  {
    AndStep(w, Shl(1, k));
    if k == 0 {
      AndZero(w / 2);
    } else {
      AndBit(w / 2, k - 1);
    }
  }

  /** Clearing with a shifted one clears that bit only. */
  lemma {:induction false} AndNotBit(w: nat, k: nat, j: nat)
    ensures Bit(AndNot(w, Shl(1, k)), j) <==> Bit(w, j) && j != k
    decreases k + j
  {
    if w == 0 {
      ZeroBit(j);
    } else if k == 0 {
      AndNotZero(w / 2);
    } else if j > 0 {
      AndNotBit(w / 2, k - 1, j - 1);
    }
  }

  lemma {:induction false} AndNotZero(w: nat)
    ensures AndNot(w, 0) == w
  {
    if w > 0 { AndNotZero(w / 2); }
  }

  /** A word of n ones. */
  lemma {:induction false} OnesBit(n: nat, k: nat)
    ensures Bit(Pow2(n) - 1, k) <==> k < n
    decreases n
  {
    if n == 0 {
      ZeroBit(k);
    } else if k > 0 {
      OnesBit(n - 1, k - 1);
    }
  }

  const ALL: uint64 := 0xFFFF_FFFF_FFFF_FFFF

  /** Word i of a full set: ones up to n. */
  lemma FullWord(n: nat, i: nat, k: nat)
    requires i < (n + 63) / 64
    ensures n % 64 != 0 && i == (n + 63) / 64 - 1 ==> (Bit(Pow2(n % 64) - 1, k) <==> k < 64 && 64 * i + k < n)
    ensures n % 64 == 0 || i < (n + 63) / 64 - 1 ==> (Bit(ALL, k) <==> k < 64 && 64 * i + k < n)
  {
    Pow2Word();
    OnesBit(64, k);
    OnesBit(n % 64, k);
    WordsOf(n);
  }

  lemma WordsOf(n: nat)
    ensures n == 64 * (n / 64) + n % 64 && (n + 63) / 64 == n / 64 + if n % 64 == 0 then 0 else 1
  {
  }

  /** The bits of a set of n as a sequence. */
  ghost function BitSeq(words: seq<uint64>, n: nat): (r: seq<bool>)
    requires |words| == (n + 63) / 64
    ensures |r| == n
  {
    seq(n, i requires 0 <= i < n => Bit(words[i / 64], i % 64))
  }

  class LiveDocs {
    const n: nat
    const words: array<uint64>

    constructor (n: nat)
      ensures this.n == n && Valid() && fresh(words) && forall i :: 0 <= i < n ==> !Get(i)
    {
      this.n := n;
      words := new uint64[(n + 63) / 64](_ => 0);
      new;
      forall i, k | 0 <= i < words.Length ensures !Bit(words[i], k) { ZeroBit(k); }
    }

    ghost predicate Valid()
      reads this, words
    {
      && words.Length == (n + 63) / 64
      && forall i: nat, k: nat :: i < words.Length && Bit(words[i], k) ==> k < 64 && 64 * i + k < n
    }

    /** Whether document i is live; ids outside the set are not. */
    predicate Get(i: int)
      requires words.Length == (n + 63) / 64
      reads this, words
    {
      0 <= i < n && Bit(words[i / 64], i % 64)
    }

    method IsSet(i: int) returns (r: bool)
      requires Valid()
      ensures r <==> Get(i)
    {
      if i < 0 || i >= n {
        return false;
      }
      AndBit(words[i / 64], i % 64);
      return And(words[i / 64], Shl(1, i % 64)) != 0;
    }

    method SetAll()
      requires Valid()
      modifies words
      ensures Valid() && forall i :: 0 <= i < n ==> Get(i)
    {
      for i := 0 to words.Length
        invariant forall j :: 0 <= j < i ==> words[j] == ALL
      {
        words[i] := ALL;
      }
      var rem := n % 64;
      if rem != 0 {
        Pow2Word();
        Pow2Monotone(rem, 64);
        words[words.Length - 1] := Mask64(rem);
      }
      forall i: nat, k: nat | i < words.Length ensures Bit(words[i], k) <==> k < 64 && 64 * i + k < n {
        FullWord(n, i, k);
      }
    }

    method Clear(i: int)
      requires Valid()
      modifies words
      ensures Valid() && forall j :: Get(j) <==> old(Get(j)) && j != i
    {
      if i < 0 || i >= n {
        return;
      }
      var w, k := i / 64, i % 64;
      forall j: nat ensures Bit(AndNot(words[w], Shl(1, k)), j) <==> Bit(words[w], j) && j != k {
        AndNotBit(words[w], k, j);
      }
      words[w] := AndNot(words[w], Shl(1, k));
    }
  }
}
