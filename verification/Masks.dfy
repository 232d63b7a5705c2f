/**
 The bit masks of kernel/src/io/bcache.c: rounding an offset down to its block with a 32-bit mask,
 and the test that a block size is a power of two.
 */
module Masks {
  import opened Common

  /** Bitwise and. */
  function And(a: nat, b: nat): nat {
    if a == 0 then 0 else 2 * And(a / 2, b / 2) + if a % 2 == 1 && b % 2 == 1 then 1 else 0
  }

  lemma {:induction false} AndZero(a: nat)
    ensures And(a, 0) == 0
  {
    if a > 0 {
      AndZero(a / 2);
    }
  }

  lemma {:induction false} AndSelf(a: nat)
    ensures And(a, a) == a
  {
    if a > 0 {
      AndSelf(a / 2);
    }
  }

  lemma AndDouble(a: nat, m: nat, b: nat)
    requires b < 2
    ensures And(a, 2 * m + b) == 2 * And(a / 2, m) + if a % 2 == 1 && b == 1 then 1 else 0
  {
    assert (2 * m + b) / 2 == m && (2 * m + b) % 2 == b;
  }

  /** The low `k` bits. */
  function LowBits(a: nat, k: nat): (r: nat)
    ensures r < Pow2(k) && r <= a
  {
    if k == 0 then 0 else 2 * LowBits(a / 2, k - 1) + a % 2
  }

  lemma MulGrows(p: nat, d: int)
    ensures d >= 1 ==> p * d >= p
    ensures d <= -1 ==> p * d + p <= 0
  {
  }

  lemma RemainderIs(a: nat, q: nat, p: nat, r: nat)
    requires a == p * q + r && r < p
    ensures a % p == r
  {
    var d := a / p - q;
    assert a == p * (a / p) + a % p;
    assert p * d == p * (a / p) - p * q;
    MulGrows(p, d);
  }

  lemma DoubleRemainder(a: nat, p: nat)
    requires p > 0
    ensures a % (2 * p) == 2 * (a / 2 % p) + a % 2
  {
    var h := a / 2;
    var q, r := h / p, h % p;
    assert h == p * q + r;
    assert (2 * p) * q == 2 * (p * q);
    RemainderIs(a, q, 2 * p, 2 * r + a % 2);
  }

  /** The low bits are the remainder by 2^k. */
  lemma {:induction false} LowBitsAreRemainder(a: nat, k: nat)
    ensures LowBits(a, k) == a % Pow2(k)
  {
    if k == 0 {
      RemainderIs(a, a, 1, 0);
    } else {
      LowBitsAreRemainder(a / 2, k - 1);
      DoubleRemainder(a, Pow2(k - 1));
    }
  }

  /** `a & (2^k - 1)` keeps the low bits. */
  lemma {:induction false} LowMask(a: nat, k: nat)
    ensures And(a, Pow2(k) - 1) == LowBits(a, k)
  {
    if k == 0 {
      AndZero(a);
    } else {
      LowMask(a / 2, k - 1);
      AndDouble(a, Pow2(k - 1) - 1, 1);
    }
  }

  /** `a & ~(2^k - 1)`, the complement taken in n bits, keeps bits k to n - 1. */
  lemma {:induction false} HighMask(a: nat, k: nat, n: nat)
    requires k <= n
    ensures Pow2(k) <= Pow2(n)
    ensures And(a, Pow2(n) - Pow2(k)) == LowBits(a, n) - LowBits(a, k)
  {
    Pow2Monotone(k, n);
    if k == 0 {
      LowMask(a, n);
    } else {
      HighMask(a / 2, k - 1, n - 1);
      var m := Pow2(n - 1) - Pow2(k - 1);
      AndDouble(a, m, 0);
      assert Pow2(n) - Pow2(k) == 2 * m + 0;
      assert And(a, 2 * m + 0) == 2 * And(a / 2, m);
    }
  }

  /** What is left by clearing the low k of n bits is aligned and a whole block below 2^n. */
  lemma {:induction false} ClearedIsAligned(a: nat, k: nat, n: nat)
    requires k <= n
    ensures LowBits(a, n) >= LowBits(a, k)
    ensures LowBits(LowBits(a, n) - LowBits(a, k), k) == 0
    ensures LowBits(a, n) - LowBits(a, k) + Pow2(k) <= Pow2(n)
  {
    if k > 0 {
      ClearedIsAligned(a / 2, k - 1, n - 1);
      var c := LowBits(a / 2, n - 1) - LowBits(a / 2, k - 1);
      assert LowBits(a, n) - LowBits(a, k) == 2 * c && (2 * c) / 2 == c;
      assert LowBits(2 * c, k) == 2 * LowBits(c, k - 1);
    }
  }

  /** Different aligned numbers are at least 2^k apart. */
  lemma {:induction false} AlignedApart(a: nat, b: nat, k: nat)
    requires LowBits(a, k) == 0 && LowBits(b, k) == 0 && a < b
    ensures a + Pow2(k) <= b
  {
    if k > 0 {
      AlignedApart(a / 2, b / 2, k - 1);
    }
  }

  /** The test of IoBlockCacheCreate accepts exactly the powers of two. */
  lemma {:induction false} PowerOfTwoIff(n: nat)
    requires n > 0
    ensures And(n, n - 1) == 0 <==> exists k :: Pow2(k) == n
  {
    var m := n / 2;
    if n == 1 {
      AndZero(1);
      assert Pow2(0) == 1;
    } else if n % 2 == 1 {
      assert (n - 1) / 2 == m && (n - 1) % 2 == 0;
      AndSelf(m);
      forall k: nat
        ensures Pow2(k) != n
      {
        assert k > 0 ==> Pow2(k) == 2 * Pow2(k - 1);
      }
    } else {
      assert (n - 1) / 2 == m - 1;
      PowerOfTwoIff(m);
      if k: nat :| Pow2(k) == m {
        assert Pow2(k + 1) == n;
      }
      if k: nat :| Pow2(k) == n {
        assert k > 0;
        assert Pow2(k) == 2 * Pow2(k - 1);
        assert Pow2(k - 1) == m;
      }
    }
  }

  /** `off & ~(blockSize - 1)`, where the mask has only 32 bits. */
  function Align(off: nat, size: nat): nat
    requires size <= WORD
  {
    And(off, WORD - size)
  }

  /** `off & (blockSize - 1)`. */
  function InBlock(off: nat, size: nat): nat
    requires size > 0
  {
    And(off, size - 1)
  }

  /** The sizes the model covers: powers of two that are positive as a C `int`. */
  ghost predicate BlockSize(size: nat) {
    exists k: nat :: k <= 30 && size == Pow2(k)
  }

  lemma BlockSizeBounds(size: nat)
    requires BlockSize(size)
    ensures 0 < size <= WORD / 4
  {
    var k: nat :| k <= 30 && size == Pow2(k);
    Pow2Values();
    Pow2Monotone(k, 30);
    assert Pow2(31) == 2 * Pow2(30);
  }

  /** The block and the place in it are those of the offset's low 32 bits. */
  lemma BlockOf(off: nat, size: nat)
    requires BlockSize(size)
    ensures 0 < size <= WORD / 4
    ensures Align(off, size) + InBlock(off, size) == off % WORD && InBlock(off, size) < size
    ensures Align(off, size) + size <= WORD && InBlock(Align(off, size), size) == 0
  {
    BlockSizeBounds(size);
    var k: nat :| k <= 30 && size == Pow2(k);
    Pow2Values();
    InBlockIs(off, size, k);
    AlignIs(off, size, k);
    ClearedIsAligned(off, k, 32);
    LowBitsAreRemainder(off, 32);
    InBlockIs(Align(off, size), size, k);
  }

  lemma InBlockIs(off: nat, size: nat, k: nat)
    requires size == Pow2(k)
    ensures InBlock(off, size) == LowBits(off, k)
  {
    LowMask(off, k);
  }

  lemma AlignIs(off: nat, size: nat, k: nat)
    requires size == Pow2(k) && k <= 32
    ensures size <= WORD && Align(off, size) == LowBits(off, 32) - LowBits(off, k)
  {
    Pow2Values();
    HighMask(off, k, 32);
  }

  /** The mask finds the offset's own block exactly when the offset fits in 32 bits. */
  lemma AlignIsRightIff(off: nat, size: nat)
    requires BlockSize(size) && 0 < size <= WORD
    ensures Align(off, size) == off - InBlock(off, size) <==> off < WORD
  {
    BlockOf(off, size);
  }

  lemma BlocksApart(a: nat, b: nat, size: nat)
    requires BlockSize(size) && size > 0 && InBlock(a, size) == 0 && InBlock(b, size) == 0 && a < b
    ensures a + size <= b
  {
    var k: nat :| k <= 30 && size == Pow2(k);
    LowMask(a, k);
    LowMask(b, k);
    AlignedApart(a, b, k);
  }
}
