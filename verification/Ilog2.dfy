/** The portable bit scans, and the size classes the small allocator picks with them. */
module Ilog2 {
  import opened Bits

  /** `n` is what is left of `word` after dropping `x` low bits, and fits in `k` bits. */
  ghost predicate Window(word: nat, n: nat, x: nat, k: nat) {
    if word == 0 then n == 0 && x == 0
    else n > 0 && Log2(n) < k && Log2(word) == x + Log2(n)
  }

  lemma Narrow(word: nat, n: nat, x: nat, k: nat)
    requires Window(word, n, x, 2 * k)
    ensures if Shr(n, k) > 0 then Window(word, Shr(n, k), x + k, k) else Window(word, n, x, k)
  {
    if word == 0 {
      ShrOfZero(k);
    } else {
      ShiftLowersLog(n, k);
    }
  }

  lemma LogBelow(n: nat, k: nat)
    requires 0 < n < Pow2(k)
    ensures Log2(n) < k
  {
    if Log2(n) >= k {
      Pow2Monotone(k, Log2(n));
    }
  }

  lemma WordLog(word: nat)
    requires 0 < word < 0x1_0000_0000_0000_0000
    ensures Log2(word) < 64
  {
    TwoTo64();
    LogBelow(word, 64);
  }

  /** The scan's step: when anything is left above the low `k` bits, keep only that. */
  method DropTop(ghost word: nat, n0: nat, x0: nat, k: nat) returns (n: nat, x: nat)
    requires Window(word, n0, x0, 2 * k)
    ensures Window(word, n, x, k)
  {
    n, x := n0, x0;
    Narrow(word, n, x, k);
    if Shr(n, k) > 0 {
      x := x + k;
      n := Shr(n, k);
    }
  }

  /** Leading zeros of a 64-bit word, by halving the window that holds its top bit. */
  method Clz64(word: nat) returns (r: nat)
    requires word < 0x1_0000_0000_0000_0000
    ensures word == 0 ==> r == 64
    ensures word > 0 ==> r <= 63 && Pow2(63 - r) <= word < Pow2(64 - r) && 63 - r == Log2(word)
  {
    var n, x := word, 0;
    if word > 0 {
      WordLog(word);
    }
    n, x := DropTop(word, n, x, 32);
    n, x := DropTop(word, n, x, 16);
    n, x := DropTop(word, n, x, 8);
    n, x := DropTop(word, n, x, 4);
    n, x := DropTop(word, n, x, 2);
    TopTwoBits(word, n, x);
    x := x + Shr(n, 1);
    n := Or(Shr(n, 1), And(n, 1));
    x := x + n;
    r := 64 - x;
    if word > 0 {
      LeadingZeros(word, r);
    }
  }

  lemma LeadingZeros(word: nat, r: nat)
    requires word > 0 && r <= 63 && 64 - r == Log2(word) + 1
    ensures Pow2(63 - r) <= word < Pow2(64 - r)
  {
  }

  lemma TopTwoBits(word: nat, n: nat, x: nat)
    requires Window(word, n, x, 2) && word < 0x1_0000_0000_0000_0000
    ensures var y := x + Shr(n, 1) + Or(Shr(n, 1), And(n, 1));
      if word == 0 then y == 0 else y == Log2(word) + 1 <= 64
  {
    if word > 0 {
      WordLog(word);
      assert n < Pow2(2) by {
        Pow2Monotone(Log2(n) + 1, 2);
      }
      assert n == 1 || n == 2 || n == 3;
    }
  }

  /** `ilog2` as the kernel computes it from `clz64`. */
  method ComputeLog2(word: nat) returns (r: nat)
    requires 0 < word < 0x1_0000_0000_0000_0000
    ensures r == Log2(word)
  {
    var z := Clz64(word);
    r := 63 - z;
  }

  /** Trailing zeros of a nonzero 64-bit word: the largest power of two dividing it. */
  method Ctz64(word: nat) returns (rv: nat)
    requires 0 < word < 0x1_0000_0000_0000_0000
    ensures rv <= 63 && Aligned(word, rv) && !Aligned(word, rv + 1)
  {
    var x: nat := word;
    rv := 0;
    assert !Aligned(word, 64) by {
      TwoTo64();
      SmallNotAligned(word, 64);
    }
    x, rv := DropZeros(word, x, rv, 32);
    x, rv := DropZeros(word, x, rv, 16);
    x, rv := DropZeros(word, x, rv, 8);
    x, rv := DropZeros(word, x, rv, 4);
    x, rv := DropZeros(word, x, rv, 2);
    x, rv := DropZeros(word, x, rv, 1);
  }

  /** `rv` zeros have been dropped, and fewer than `k` are left at the bottom of `x`. */
  ghost predicate Dropped(word: nat, x: nat, rv: nat, k: nat) {
    && Aligned(word, rv) && x == Shr(word, rv)
    && !Aligned(word, rv + k)
  }

  /** The scan's step: when the low `bits` bits are all zero, drop them. */
  method DropZeros(ghost word: nat, x0: nat, rv0: nat, bits: nat) returns (x: nat, rv: nat)
    requires Dropped(word, x0, rv0, 2 * bits)
    ensures Dropped(word, x, rv, bits) && rv0 <= rv <= rv0 + bits
  {
    x, rv := x0, rv0;
    MaskTestsAlignment(x, bits);
    ShiftLowersAlignment(word, rv, bits);
    if And(x, Pow2(bits) - 1) == 0 {
      rv := rv + bits;
      x := Shr(x, bits);
      ShrShr(word, rv0, bits);
    }
  }

  lemma {:induction false} ShrShr(n: nat, a: nat, b: nat)
    ensures Shr(Shr(n, a), b) == Shr(n, a + b)
  {
    if a > 0 {
      ShrShr(n / 2, a - 1, b);
    }
  }

  // ---- size classes ----

  /** Size of class `i`: 32, 64, ... 2048 bytes. */
  function ClassSize(i: nat): nat {
    32 * Pow2(i)
  }

  /** The seven sizes. */
  lemma ClassSizes()
    ensures ClassSize(0) == 32 && ClassSize(1) == 64 && ClassSize(2) == 128 && ClassSize(3) == 256
    ensures ClassSize(4) == 512 && ClassSize(5) == 1024 && ClassSize(6) == 2048
  {
    assert Pow2(6) == 2 * Pow2(5) == 4 * Pow2(4) == 8 * Pow2(3) == 16 * Pow2(2) == 32 * Pow2(1) == 64 * Pow2(0);
  }

  lemma LogRange(n: nat)
    requires 31 <= n <= 2047
    ensures Log2(31) == 4 && 4 <= Log2(n) <= 10
  {
    Pow2IsUnique(31, 4);
    if Log2(n) < 4 {
      Pow2Monotone(Log2(n) + 1, 4);
    }
    if Log2(n) > 10 {
      Pow2Monotone(11, Log2(n));
    }
  }

  /** The class a small request is served from. */
  function ClassOf(size: nat): (i: nat)
    requires 1 <= size <= 2048
    ensures i <= 6
  {
    var s := if size < 32 then 32 else size;
    LogRange(s - 1);
    Log2(s - 1) - Log2(31)
  }

  /** A request of up to 2048 bytes gets the smallest of the seven classes that can hold it. */
  lemma SmallestClassThatFits(size: nat)
    requires 1 <= size <= 2048
    ensures size <= ClassSize(ClassOf(size))
    ensures forall j: nat :: j < ClassOf(size) ==> ClassSize(j) < size
  {
    ClassBounds(size, ClassOf(size));
    ThirtyTwoTimes(ClassOf(size));
    forall j: nat | j < ClassOf(size)
      ensures ClassSize(j) < size
    {
      SmallerClass(size, ClassOf(size), j);
    }
  }

  lemma ClassBounds(size: nat, i: nat)
    requires 1 <= size <= 2048 && i == ClassOf(size)
    ensures size <= Pow2(i + 5) && (i > 0 ==> Pow2(i + 4) < size)
  {
    LogRange((if size < 32 then 32 else size) - 1);
  }

  lemma SmallerClass(size: nat, i: nat, j: nat)
    requires 1 <= size <= 2048 && j < i == ClassOf(size)
    ensures ClassSize(j) < size
  {
    ClassBounds(size, i);
    ThirtyTwoTimes(j);
    Pow2Monotone(j + 5, i + 4);
  }

  /** The index computation of `kmalloc`, by the bit scans. */
  method PickClass(size: nat) returns (i: nat)
    requires 1 <= size <= 2048
    ensures i <= 6 && i == ClassOf(size)
  {
    var wanted := if size < 32 then 32 else size;
    LogRange(wanted - 1);
    var top := ComputeLog2(wanted - 1);
    var bottom := ComputeLog2(31);
    i := top - bottom;
  }

  lemma {:induction false} ThirtyTwoTimes(i: nat)
    ensures 32 * Pow2(i) == Pow2(i + 5)
  {
    if i > 0 {
      ThirtyTwoTimes(i - 1);
    } else {
      assert Pow2(5) == 2 * Pow2(4) == 4 * Pow2(3) == 8 * Pow2(2) == 16 * Pow2(1);
    }
  }

  const PAGE_BYTES: nat := 4096

  /** Order of the page block asked for when `bytes` are wanted; this rounds down. */
  function CalculOrder(bytes: nat): int
    requires bytes > 0
  {
    Log2(bytes) - Log2(PAGE_BYTES)
  }

  lemma SlabBytes(i: nat)
    ensures ClassSize(i) * 128 == 4096 * Pow2(i) == Pow2(i + 12)
  {
    PageTimes(i);
  }

  /** A slab of class `i` is a block of order `i`: exactly 128 cells. */
  lemma SlabOrder(i: nat)
    requires i <= 6
    ensures CalculOrder(ClassSize(i) * 128) == i
    ensures 4096 * Pow2(i) == ClassSize(i) * 128
  {
    SlabBytes(i);
    LogOfPow2(i + 12);
    LogOfPage();
  }

  lemma LogOfPow2(k: nat)
    ensures Log2(Pow2(k)) == k
  {
    Pow2IsUnique(Pow2(k), k);
  }

  lemma LogOfPage()
    ensures Log2(PAGE_BYTES) == 12
  {
    PageTimes(0);
    LogOfPow2(12);
  }

  /** The block covers the request exactly when the request is a power of two of whole pages. */
  lemma OrderCoversIffPowerOfTwo(bytes: nat)
    requires bytes >= 4096
    ensures CalculOrder(bytes) >= 0
    ensures 4096 * Pow2(CalculOrder(bytes)) <= bytes < 2 * (4096 * Pow2(CalculOrder(bytes)))
    ensures bytes <= 4096 * Pow2(CalculOrder(bytes)) <==> bytes == Pow2(Log2(bytes))
  {
    LogOfPage();
    if Log2(bytes) < 12 {
      Pow2Monotone(Log2(bytes) + 1, 12);
    }
    var i := Log2(bytes) - 12;
    PageTimes(i);
  }
}
