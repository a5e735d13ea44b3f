/**
 * Bit-level arithmetic on 32-bit words, written on integers: the bitwise
 * exclusive or, the population count that `BitDifference` applies to XORed
 * words, and the reference count of differing bit positions.
 */
module Bits {

  /** An unsigned 32-bit word (`uint32_t`). */
  type Word = w: int | 0 <= w < 0x1_0000_0000

  function Pow2(k: nat): (p: nat)
    ensures p >= 1
  {
    if k == 0 then 1 else 2 * Pow2(k - 1)
  }

  lemma Pow2Word()
    ensures Pow2(32) == 0x1_0000_0000
  {
    assert Pow2(8) == 0x100;
    assert Pow2(16) == 0x1_0000;
    assert Pow2(24) == 0x100_0000;
  }

  /** The exclusive or of the lowest `k` bits of `x` and `y`, bit by bit from the lowest. */
  function XorBelow(x: nat, y: nat, k: nat): (z: nat)
    ensures z < Pow2(k)
  {
    if k == 0 then 0
    else (if x % 2 != y % 2 then 1 else 0) + 2 * XorBelow(x / 2, y / 2, k - 1)
  }

  /**
   * `x ^ y` on 32-bit words: its set bits are exactly the positions where
   * `x` and `y` differ, so it is zero exactly when they are equal.
   */
  function Xor(x: Word, y: Word): (z: Word)
    ensures PopCount(z) == DifferingBitsBelow(x, y, 32)
    ensures z == 0 <==> x == y
  {
    Pow2Word();
    PopCountXorCountsDifferences(x, y, 32);
    XorBelowZero(x, y, 32);
    XorBelow(x, y, 32)
  }

  /** Among values below `2^k`, the exclusive or of the low `k` bits is zero exactly for equal values. */
  lemma {:induction false} XorBelowZero(x: nat, y: nat, k: nat)
    requires x < Pow2(k) && y < Pow2(k)
    ensures XorBelow(x, y, k) == 0 <==> x == y
  {
    if k > 0 {
      XorBelowZero(x / 2, y / 2, k - 1);
    }
  }

  /** The number of set bits among the lowest `k` bits of `w`. */
  function PopCountBelow(w: nat, k: nat): (n: nat)
    ensures n <= k
  {
    if k == 0 then 0 else w % 2 + PopCountBelow(w / 2, k - 1)
  }

  /** The number of set bits of a word: at most 32, and zero only for the zero word. */
  function PopCount(w: Word): (n: nat)
    ensures n <= 32
    ensures n == 0 <==> w == 0
  {
    Pow2Word();
    PopCountBelowZero(w, 32);
    PopCountBelow(w, 32)
  }

  /** Among values below `2^k`, no set bit means the value zero. */
  lemma {:induction false} PopCountBelowZero(w: nat, k: nat)
    requires w < Pow2(k)
    ensures PopCountBelow(w, k) == 0 <==> w == 0
  {
    if k > 0 {
      PopCountBelowZero(w / 2, k - 1);
    }
  }

  /** Reference definition: how many of the lowest `k` bit positions differ in `x` and `y`. */
  function DifferingBitsBelow(x: nat, y: nat, k: nat): (n: nat)
    ensures n <= k
  {
    if k == 0 then 0
    else (if x % 2 != y % 2 then 1 else 0) + DifferingBitsBelow(x / 2, y / 2, k - 1)
  }

  /** The population count of an exclusive or counts exactly the positions where the operands differ. */
  lemma {:induction false} PopCountXorCountsDifferences(x: nat, y: nat, k: nat)
    ensures PopCountBelow(XorBelow(x, y, k), k) == DifferingBitsBelow(x, y, k)
  {
    if k > 0 {
      var z, rest := XorBelow(x, y, k), XorBelow(x / 2, y / 2, k - 1);
      assert z % 2 == (if x % 2 != y % 2 then 1 else 0) && z / 2 == rest;
      PopCountXorCountsDifferences(x / 2, y / 2, k - 1);
    }
  }

  /** Among values below `2^k`, no differing position means equal values. */
  lemma {:induction false} DifferingBitsZero(x: nat, y: nat, k: nat)
    requires x < Pow2(k) && y < Pow2(k)
    ensures DifferingBitsBelow(x, y, k) == 0 <==> x == y
  {
    if k > 0 {
      DifferingBitsZero(x / 2, y / 2, k - 1);
    }
  }

  lemma {:induction false} DifferingBitsTriangle(x: nat, y: nat, z: nat, k: nat)
    ensures DifferingBitsBelow(x, z, k) <= DifferingBitsBelow(x, y, k) + DifferingBitsBelow(y, z, k)
  {
    if k > 0 {
      DifferingBitsTriangle(x / 2, y / 2, z / 2, k - 1);
    }
  }

  lemma {:induction false} DifferingBitsSymmetric(x: nat, y: nat, k: nat)
    ensures DifferingBitsBelow(x, y, k) == DifferingBitsBelow(y, x, k)
  {
    if k > 0 {
      DifferingBitsSymmetric(x / 2, y / 2, k - 1);
    }
  }

  /** A value differs from itself in no position. */
  lemma {:induction false} DifferingBitsZeroes(x: nat, k: nat)
    ensures DifferingBitsBelow(x, x, k) == 0
  {
    if k > 0 {
      DifferingBitsZeroes(x / 2, k - 1);
    }
  }

  /** On words, no differing position means equal words. */
  lemma WordDifferences(x: Word, y: Word)
    ensures DifferingBitsBelow(x, y, 32) == 0 <==> x == y
  {
    Pow2Word();
    DifferingBitsZero(x, y, 32);
  }

}
