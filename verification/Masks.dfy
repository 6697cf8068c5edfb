/** Bitwise operations on 32-bit words, bit by bit, and the masked replacement the
    register tools build on. */
module Masks {
  import opened Common

  function AndBits(a: nat, b: nat): nat
    decreases a, b
  {
    if a == 0 || b == 0 then 0
    else (if a % 2 == 1 && b % 2 == 1 then 1 else 0) + 2 * AndBits(a / 2, b / 2)
  }

  function OrBits(a: nat, b: nat): nat
    decreases a, b
  {
    if a == 0 then b else if b == 0 then a
    else (if a % 2 == 1 || b % 2 == 1 then 1 else 0) + 2 * OrBits(a / 2, b / 2)
  }

  /** a & ~mask */
  function ClearBits(a: nat, mask: nat): nat
    decreases a, mask
  {
    if a == 0 then 0 else if mask == 0 then a
    else (if mask % 2 == 1 then 0 else a % 2) + 2 * ClearBits(a / 2, mask / 2)
  }

  /** `v` with the bits under `mask` replaced by those of `bits`. */
  function MergeBits(mask: nat, bits: nat, v: nat): nat
    decreases mask, bits, v
  {
    if mask == 0 then v
    else (if mask % 2 == 1 then bits % 2 else v % 2) + 2 * MergeBits(mask / 2, bits / 2, v / 2)
  }

  function Pow2(n: nat): nat {
    if n == 0 then 1 else 2 * Pow2(n - 1)
  }

  /** (v & ~mask) | (bits & mask) */
  lemma {:induction false} MergeIsOr(mask: nat, bits: nat, v: nat)
    ensures MergeBits(mask, bits, v) == OrBits(ClearBits(v, mask), AndBits(bits, mask))
    decreases mask
  {
    if mask > 0 {
      MergeIsOr(mask / 2, bits / 2, v / 2);
      ClearHalves(v, mask);
      AndHalves(bits, mask);
      OrHalves(ClearBits(v, mask), AndBits(bits, mask));
    }
  }

  lemma LowAndHigh(low: nat, high: nat)
    requires low <= 1
    ensures (low + 2 * high) % 2 == low && (low + 2 * high) / 2 == high
  {
  }

  lemma AndHalves(a: nat, b: nat)
    ensures AndBits(a, b) % 2 == (if a % 2 == 1 && b % 2 == 1 then 1 else 0)
    ensures AndBits(a, b) / 2 == AndBits(a / 2, b / 2)
  {
    LowAndHigh(if a % 2 == 1 && b % 2 == 1 then 1 else 0, AndBits(a / 2, b / 2));
  }

  lemma OrHalves(a: nat, b: nat)
    ensures OrBits(a, b) == (if a % 2 == 1 || b % 2 == 1 then 1 else 0) + 2 * OrBits(a / 2, b / 2)
  {
  }

  lemma ClearHalves(a: nat, mask: nat)
    ensures ClearBits(a, mask) % 2 == (if mask % 2 == 1 then 0 else a % 2)
    ensures ClearBits(a, mask) / 2 == ClearBits(a / 2, mask / 2)
  {
    LowAndHigh(if mask % 2 == 1 then 0 else a % 2, ClearBits(a / 2, mask / 2));
  }

  lemma MergeHalves(mask: nat, bits: nat, v: nat)
    ensures MergeBits(mask, bits, v) % 2 == (if mask % 2 == 1 then bits % 2 else v % 2)
    ensures MergeBits(mask, bits, v) / 2 == MergeBits(mask / 2, bits / 2, v / 2)
  {
    LowAndHigh(if mask % 2 == 1 then bits % 2 else v % 2, MergeBits(mask / 2, bits / 2, v / 2));
  }

  /** `w` has the bits of `bits` under the mask and those of `v` elsewhere. */
  predicate Merged(mask: nat, bits: nat, v: nat, w: nat) {
    AndBits(w, mask) == AndBits(bits, mask) && ClearBits(w, mask) == ClearBits(v, mask)
  }

  /** The merge has these bits, and nothing else has. */
  lemma {:induction false} MergedIff(mask: nat, bits: nat, v: nat, w: nat)
    ensures Merged(mask, bits, v, w) <==> w == MergeBits(mask, bits, v)
    decreases mask
  {
    if mask > 0 {
      MergedIff(mask / 2, bits / 2, v / 2, w / 2);
      AndHalves(w, mask);
      AndHalves(bits, mask);
      ClearHalves(w, mask);
      ClearHalves(v, mask);
      MergeHalves(mask, bits, v);
      HalvesEqual(AndBits(w, mask), AndBits(bits, mask));
      HalvesEqual(ClearBits(w, mask), ClearBits(v, mask));
    } else {
      AndZero(w);
      AndZero(bits);
      ClearZero(w);
      ClearZero(v);
    }
  }

  lemma HalvesEqual(a: nat, b: nat)
    ensures a == b <==> a % 2 == b % 2 && a / 2 == b / 2
  {
  }

  lemma AndZero(a: nat)
    ensures AndBits(a, 0) == 0
  {
  }

  lemma ClearZero(a: nat)
    ensures ClearBits(a, 0) == a
  {
  }

  lemma {:induction false} MergeTwiceBits(mask: nat, bits: nat, v: nat)
    ensures MergeBits(mask, bits, MergeBits(mask, bits, v)) == MergeBits(mask, bits, v)
    decreases mask
  {
    if mask > 0 {
      MergeTwiceBits(mask / 2, bits / 2, v / 2);
      MergeHalves(mask, bits, v);
    }
  }

  lemma {:induction false} MergeBound(mask: nat, bits: nat, v: nat, n: nat)
    requires bits < Pow2(n) && v < Pow2(n) && mask < Pow2(n)
    ensures MergeBits(mask, bits, v) < Pow2(n)
    decreases mask
  {
    if mask > 0 {
      MergeBound(mask / 2, bits / 2, v / 2, n - 1);
    }
  }

  lemma Pow2Halves(n: nat)
    requires n > 0
    ensures (Pow2(n) - 1) % 2 == 1 && (Pow2(n) - 1) / 2 == Pow2(n - 1) - 1
    ensures forall x: nat :: x < Pow2(n) ==> x / 2 < Pow2(n - 1)
  {
  }

  lemma BelowOne(x: nat)
    requires x < Pow2(0)
    ensures x == 0
  {
  }

  lemma NoMask(bits: nat, v: nat)
    ensures MergeBits(0, bits, v) == v && AndBits(0, bits) == 0
  {
  }

  /** All-ones as a mask takes every bit. */
  lemma {:induction false} OnesMask(bits: nat, v: nat, n: nat)
    requires bits < Pow2(n) && v < Pow2(n)
    ensures MergeBits(Pow2(n) - 1, bits, v) == bits
    ensures AndBits(Pow2(n) - 1, bits) == bits
    decreases n
  {
    if n == 0 {
      BelowOne(bits);
      BelowOne(v);
      NoMask(bits, v);
    } else {
      Pow2Halves(n);
      OnesMask(bits / 2, v / 2, n - 1);
      OnesMaskStep(Pow2(n) - 1, bits, v);
    }
  }

  lemma OnesMaskStep(mask: nat, bits: nat, v: nat)
    requires mask % 2 == 1
    requires MergeBits(mask / 2, bits / 2, v / 2) == bits / 2 && AndBits(mask / 2, bits / 2) == bits / 2
    ensures MergeBits(mask, bits, v) == bits && AndBits(mask, bits) == bits
  {
    hide MergeBits, AndBits;
    MergeHalves(mask, bits, v);
    AndHalves(mask, bits);
    HalvesEqual(MergeBits(mask, bits, v), bits);
    HalvesEqual(AndBits(mask, bits), bits);
  }

  lemma WordIs32Bits()
    ensures Pow2(32) == 0x1_0000_0000
  {
    assert Pow2(8) == 256;
    assert Pow2(16) == 0x10000;
    assert Pow2(24) == 0x1000000;
  }

  // ---- on words ------------------------------------------------------------------

  function Merge(mask: Word, bits: Word, v: Word): Word {
    WordIs32Bits();
    MergeBound(mask, bits, v, 32);
    MergeBits(mask, bits, v)
  }

  lemma MergeTwice(mask: Word, bits: Word, v: Word)
    ensures Merge(mask, bits, Merge(mask, bits, v)) == Merge(mask, bits, v)
  {
    MergeTwiceBits(mask, bits, v);
  }

  lemma MergeAllOnes(bits: Word, v: Word)
    ensures Merge(ALL_ONES, bits, v) == bits
  {
    WordIs32Bits();
    OnesMask(bits, v, 32);
  }

  /** Reading back all-ones where the merge was written agrees under the mask only if the
      programmed bits are all ones there. */
  lemma OnesReadback(mask: Word, bits: Word, v: Word)
    ensures AndBits(ALL_ONES, mask) == AndBits(Merge(mask, bits, v), mask) <==> AndBits(bits, mask) == mask
  {
    WordIs32Bits();
    OnesMask(mask, 0, 32);
    MergedIff(mask, bits, v, MergeBits(mask, bits, v));
  }
}
