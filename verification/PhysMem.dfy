/** Byte-addressed physical memory and little-endian values in it. */
module PhysMem {
  import opened Common

  type Byte = x: int | 0 <= x < 256

  /** Bytes never stored read as zero. */
  type Mem = map<nat, Byte>

  function Load(mem: Mem, a: nat): Byte {
    if a in mem then mem[a] else 0
  }

  /** The `n`-byte little-endian value at `a`. */
  function Value(mem: Mem, a: nat, n: nat): nat
    decreases n, a
  {
    if n == 0 then 0 else Load(mem, a) + 256 * Value(mem, a + 1, n - 1)
  }

  function Store(mem: Mem, a: nat, v: nat, n: nat): Mem
    decreases n, a
  {
    if n == 0 then mem else Store(mem[a := v % 256], a + 1, v / 256, n - 1)
  }

  /** RtlCopyMemory between ranges that do not overlap. */
  function Copy(mem: Mem, dst: nat, src: nat, n: nat): Mem {
    CopyFrom(mem, mem, dst, src, n)
  }

  function CopyFrom(mem: Mem, from: Mem, dst: nat, src: nat, n: nat): Mem
    decreases n, dst
  {
    if n == 0 then mem else CopyFrom(mem[dst := Load(from, src)], from, dst + 1, src + 1, n - 1)
  }

  function Pow256(n: nat): nat {
    if n == 0 then 1 else 256 * Pow256(n - 1)
  }

  lemma WordBounds()
    ensures Pow256(4) == 0x1_0000_0000 && Pow256(8) == 0x1_0000_0000_0000_0000
  {
    assert Pow256(2) == 0x10000;
    assert Pow256(6) == 0x1_0000_0000_0000;
  }

  lemma {:induction false} ValueBound(mem: Mem, a: nat, n: nat)
    ensures Value(mem, a, n) < Pow256(n)
    decreases n
  {
    if n > 0 {
      ValueBound(mem, a + 1, n - 1);
    }
  }

  /** The value depends on its own bytes only. */
  lemma {:induction false} ValueSame(m1: Mem, a1: nat, m2: Mem, a2: nat, n: nat)
    requires forall k :: a1 <= k < a1 + n ==> Load(m1, k) == Load(m2, k - a1 + a2)
    ensures Value(m1, a1, n) == Value(m2, a2, n)
    decreases n
  {
    if n > 0 {
      ValueSame(m1, a1 + 1, m2, a2 + 1, n - 1);
    }
  }

  lemma Reassociate(p: nat, x: nat, y: nat)
    ensures 256 * (x + p * y) == 256 * x + (256 * p) * y
  {
  }

  lemma {:induction false} ValueSplit(mem: Mem, a: nat, n: nat, k: nat)
    requires k <= n
    ensures Value(mem, a, n) == Value(mem, a, k) + Pow256(k) * Value(mem, a + k, n - k)
    decreases k
  {
    if k > 0 {
      ValueSplit(mem, a + 1, n - 1, k - 1);
      Reassociate(Pow256(k - 1), Value(mem, a + 1, k - 1), Value(mem, a + k, n - k));
    }
  }

  lemma {:induction false} StoreFrame(mem: Mem, a: nat, v: nat, n: nat, b: nat)
    requires b < a || a + n <= b
    ensures Load(Store(mem, a, v, n), b) == Load(mem, b)
    decreases n
  {
    if n > 0 {
      StoreFrame(mem[a := v % 256], a + 1, v / 256, n - 1, b);
    }
  }

  lemma {:induction false} StoreValue(mem: Mem, a: nat, v: nat, n: nat)
    requires v < Pow256(n)
    ensures Value(Store(mem, a, v, n), a, n) == v
    decreases n
  {
    if n > 0 {
      var mem1 := mem[a := v % 256];
      StoreValue(mem1, a + 1, v / 256, n - 1);
      StoreFrame(mem1, a + 1, v / 256, n - 1, a);
    }
  }

  lemma {:induction false} CopyFromLoad(mem: Mem, from: Mem, dst: nat, src: nat, n: nat, b: nat)
    ensures Load(CopyFrom(mem, from, dst, src, n), b)
         == if dst <= b < dst + n then Load(from, b - dst + src) else Load(mem, b)
    decreases n
  {
    if n > 0 {
      CopyFromLoad(mem[dst := Load(from, src)], from, dst + 1, src + 1, n - 1, b);
    }
  }

  lemma CopyLoad(mem: Mem, dst: nat, src: nat, n: nat, b: nat)
    ensures Load(Copy(mem, dst, src, n), b) == if dst <= b < dst + n then Load(mem, b - dst + src) else Load(mem, b)
  {
    CopyFromLoad(mem, mem, dst, src, n, b);
  }

  /** A copy reproduces the value it moves, whatever its width. */
  lemma CopyValue(mem: Mem, dst: nat, src: nat, n: nat)
    ensures Value(Copy(mem, dst, src, n), dst, n) == Value(mem, src, n)
  {
    forall k | dst <= k < dst + n ensures Load(Copy(mem, dst, src, n), k) == Load(mem, k - dst + src) {
      CopyLoad(mem, dst, src, n, k);
    }
    ValueSame(Copy(mem, dst, src, n), dst, mem, src, n);
  }

  function LoadWord(mem: Mem, a: nat): Word {
    WordBounds();
    ValueBound(mem, a, 4);
    Value(mem, a, 4)
  }
}
