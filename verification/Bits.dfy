/** Powers of two, alignment, and the bitwise operators the kernel applies to page indices.
    Alignment is defined by halving, so that every fact about it follows by halving induction. */
module Bits {

  function Pow2(n: nat): (r: nat)
    ensures r >= 1
  {
    if n == 0 then 1 else 2 * Pow2(n - 1)
  }

  /** The low `o` bits of `i` are zero. */
  predicate Aligned(i: nat, o: nat)
  {
    o == 0 || (i % 2 == 0 && Aligned(i / 2, o - 1))
  }

  /** `a & b` on unsigned integers. */
  function And(a: nat, b: nat): nat
  {
    if a == 0 || b == 0 then 0
    else 2 * And(a / 2, b / 2) + (if a % 2 == 1 && b % 2 == 1 then 1 else 0)
  }

  /** `a ^ b` on unsigned integers. */
  function Xor(a: nat, b: nat): nat
  {
    if a == 0 && b == 0 then 0
    else 2 * Xor(a / 2, b / 2) + (if a % 2 == b % 2 then 0 else 1)
  }

  lemma {:induction false} AlignedWeaken(i: nat, o: nat, k: nat)
    requires o <= k && Aligned(i, k)
    ensures Aligned(i, o)
  {
    if o > 0 {
      AlignedWeaken(i / 2, o - 1, k - 1);
    }
  }

  lemma {:induction false} AlignedSum(a: nat, b: nat, o: nat)
    requires Aligned(a, o) && Aligned(b, o)
    ensures Aligned(a + b, o)
  {
    if o > 0 {
      AlignedSum(a / 2, b / 2, o - 1);
      assert (a + b) / 2 == a / 2 + b / 2;
    }
  }

  lemma {:induction false} AlignedPow2(o: nat, k: nat)
    requires o <= k
    ensures Aligned(Pow2(k), o)
  {
    if o > 0 {
      AlignedPow2(o - 1, k - 1);
      assert Pow2(k) == 2 * Pow2(k - 1);
    }
  }

  /** Two different multiples of 2^o are at least 2^o apart. */
  lemma {:induction false} AlignedGap(a: nat, b: nat, o: nat)
    requires Aligned(a, o) && Aligned(b, o) && a < b
    ensures a + Pow2(o) <= b
  {
    if o > 0 {
      AlignedGap(a / 2, b / 2, o - 1);
    }
  }

  /** An aligned run that starts inside a larger aligned block lies inside it. */
  lemma {:induction false} AlignedNested(h: nat, k: nat, i: nat, o: nat)
    requires o <= k && Aligned(h, k) && Aligned(i, o)
    requires h <= i < h + Pow2(k)
    ensures i + Pow2(o) <= h + Pow2(k)
  {
    if o > 0 {
      AlignedNested(h / 2, k - 1, i / 2, o - 1);
    }
  }

  /** A larger aligned block that holds the second half of an aligned run holds all of it. */
  lemma {:induction false} AlignedCovers(h: nat, k: nat, i: nat, o: nat)
    requires o < k && Aligned(h, k) && Aligned(i, o + 1)
    requires h <= i + Pow2(o) < h + Pow2(k)
    ensures h <= i < h + Pow2(k)
  {
    if h > i {
      AlignedWeaken(h, o + 1, k);
      AlignedGap(i, h, o + 1);
    }
  }

  lemma {:induction false} Pow2Monotone(o: nat, k: nat)
    requires o <= k
    ensures Pow2(o) <= Pow2(k)
  {
    if o < k {
      Pow2Monotone(o, k - 1);
    }
  }

  lemma {:induction false} XorZero(a: nat)
    ensures Xor(a, 0) == a
  {
    if a > 0 {
      XorZero(a / 2);
    }
  }

  lemma {:induction false} XorHalf(a: nat, b: nat)
    ensures Xor(a, b) / 2 == Xor(a / 2, b / 2)
    ensures Xor(a, b) % 2 == if a % 2 == b % 2 then 0 else 1
  {
    if a > 0 || b > 0 {
      var h := Xor(a / 2, b / 2);
      assert (2 * h) / 2 == h && (2 * h + 1) / 2 == h;
    }
  }

  lemma {:induction false} AndHalf(a: nat, b: nat)
    ensures And(a, b) / 2 == And(a / 2, b / 2)
    ensures And(a, b) % 2 == if a % 2 == 1 && b % 2 == 1 then 1 else 0
  {
    if a > 0 && b > 0 {
      var h := And(a / 2, b / 2);
      assert (2 * h) / 2 == h && (2 * h + 1) / 2 == h;
    }
  }

  /** Index of the other half of the enclosing block of twice the size. */
  function OtherHalf(i: nat, o: nat): nat
    requires Aligned(i, o)
  {
    if Aligned(i, o + 1) then i + Pow2(o)
    else
      ParentAligned(i, o);
      i - Pow2(o)
  }

  lemma {:induction false} ParentAligned(i: nat, o: nat)
    requires Aligned(i, o) && !Aligned(i, o + 1)
    ensures i >= Pow2(o) && Aligned(i - Pow2(o), o + 1)
  {
    if o > 0 {
      ParentAligned(i / 2, o - 1);
      assert (i - Pow2(o)) / 2 == i / 2 - Pow2(o - 1);
    }
  }

  /** A number is its half and its lowest bit. */
  lemma Halves(a: nat)
    ensures a == 2 * (a / 2) + a % 2
  {
  }

  lemma OtherHalfHalves(i: nat, o: nat)
    requires Aligned(i, o)
    ensures o == 0 ==> OtherHalf(i, o) / 2 == i / 2 && OtherHalf(i, o) % 2 != i % 2
    ensures o > 0 ==> Aligned(i / 2, o - 1) && OtherHalf(i, o) == 2 * OtherHalf(i / 2, o - 1)
  {
    assert Aligned(i, o + 1) <==> i % 2 == 0 && Aligned(i / 2, o);
    if o == 0 {
      assert Aligned(i / 2, 0);
    } else if !Aligned(i, o + 1) {
      ParentAligned(i, o);
      ParentAligned(i / 2, o - 1);
    }
  }

  lemma {:induction false} XorGivesOtherHalf(i: nat, o: nat)
    requires Aligned(i, o)
    ensures Xor(i, Pow2(o)) == OtherHalf(i, o)
  {
    OtherHalfHalves(i, o);
    XorHalf(i, Pow2(o));
    Halves(Xor(i, Pow2(o)));
    if o == 0 {
      assert Pow2(0) / 2 == 0 && Pow2(0) % 2 == 1;
      XorZero(i / 2);
      Halves(OtherHalf(i, 0));
    } else {
      XorGivesOtherHalf(i / 2, o - 1);
      assert Pow2(o) == 2 * Pow2(o - 1);
    }
  }

  lemma {:induction false} AndGivesParent(i: nat, o: nat)
    requires Aligned(i, o)
    ensures And(i, OtherHalf(i, o)) == if Aligned(i, o + 1) then i else i - Pow2(o)
  {
    OtherHalfHalves(i, o);
    AndHalf(i, OtherHalf(i, o));
    Halves(And(i, OtherHalf(i, o)));
    if o == 0 {
      AndSelf(i / 2);
    } else {
      AndGivesParent(i / 2, o - 1);
    }
  }

  /** Flipping bit `o` of a multiple of 2^o moves it one block up or down, to the other half
      of the enclosing block of twice the size; `&` of the two is the start of that block. */
  lemma BuddyArithmetic(i: nat, o: nat)
    requires Aligned(i, o)
    ensures Xor(i, Pow2(o)) == if Aligned(i, o + 1) then i + Pow2(o) else i - Pow2(o)
    ensures And(i, Xor(i, Pow2(o))) == if Aligned(i, o + 1) then i else i - Pow2(o)
    ensures Aligned(And(i, Xor(i, Pow2(o))), o + 1)
  {
    XorGivesOtherHalf(i, o);
    AndGivesParent(i, o);
    if !Aligned(i, o + 1) {
      ParentAligned(i, o);
    }
  }

  lemma {:induction false} AndSelf(a: nat)
    ensures And(a, a) == a
  {
    if a > 0 {
      AndSelf(a / 2);
    }
  }

  lemma {:induction false} AndCommutes(a: nat, b: nat)
    ensures And(a, b) == And(b, a)
  {
    if a > 0 && b > 0 {
      AndCommutes(a / 2, b / 2);
    }
  }

  /** Clearing the lowest set bit of an index strictly inside an aligned block moves it down
      without leaving the block. */
  lemma {:induction false} ClearLowestBitStaysInside(h: nat, k: nat, j: nat)
    requires Aligned(h, k) && h < j < h + Pow2(k)
    ensures h <= And(j, j - 1) < j
  {
    if j % 2 == 1 {
      AndSelf(j / 2);
      assert (j - 1) / 2 == j / 2;
      assert And(j, j - 1) == if j == 1 then 0 else 2 * And(j / 2, (j - 1) / 2);
    } else {
      assert (j - 1) / 2 == j / 2 - 1;
      ClearLowestBitStaysInside(h / 2, k - 1, j / 2);
      assert And(j, j - 1) == 2 * And(j / 2, j / 2 - 1);
    }
  }

  lemma TwiceProduct(q: nat, x: nat)
    ensures q * (2 * x) == 2 * (q * x)
  {
  }

  lemma {:induction false} AlignedQuotient(i: nat, o: nat) returns (q: nat)
    requires Aligned(i, o)
    ensures i == q * Pow2(o)
  {
    if o == 0 {
      q := i;
    } else {
      q := AlignedQuotient(i / 2, o - 1);
      TwiceProduct(q, Pow2(o - 1));
    }
  }

  lemma {:induction false} MultipleIsAligned(q: nat, o: nat)
    ensures Aligned(q * Pow2(o), o)
  {
    if o > 0 {
      MultipleIsAligned(q, o - 1);
      TwiceProduct(q, Pow2(o - 1));
      var half := q * Pow2(o - 1);
      assert q * Pow2(o) == 2 * half;
    }
  }

  /** Alignment in the terms of a modulus. */
  lemma AlignedIsMultiple(i: nat, o: nat)
    ensures Aligned(i, o) <==> exists q: nat :: i == q * Pow2(o)
  {
    if Aligned(i, o) {
      var q := AlignedQuotient(i, o);
    }
    if q: nat :| i == q * Pow2(o) {
      MultipleIsAligned(q, o);
    }
  }

  lemma {:induction false} XorInvolution(a: nat, b: nat)
    ensures Xor(Xor(a, b), b) == a
  {
    if a > 0 || b > 0 {
      var x := Xor(a, b);
      XorHalf(a, b);
      XorHalf(x, b);
      XorInvolution(a / 2, b / 2);
      assert Xor(x, b) == 2 * (a / 2) + a % 2;
    }
  }

  /** `a | b` on unsigned integers. */
  function Or(a: nat, b: nat): nat
  {
    if a == 0 && b == 0 then 0
    else 2 * Or(a / 2, b / 2) + (if a % 2 == 1 || b % 2 == 1 then 1 else 0)
  }

  /** `n >> k`. */
  function Shr(n: nat, k: nat): nat
  {
    if k == 0 then n else Shr(n / 2, k - 1)
  }

  /** Position of the highest set bit. */
  function Log2(n: nat): (r: nat)
    requires n > 0
    ensures Pow2(r) <= n < Pow2(r + 1)
  {
    if n == 1 then 0 else 1 + Log2(n / 2)
  }

  lemma {:induction false} ShiftLowersLog(n: nat, k: nat)
    requires n > 0
    ensures Shr(n, k) > 0 <==> Log2(n) >= k
    ensures Shr(n, k) > 0 ==> Log2(Shr(n, k)) == Log2(n) - k
  {
    if k > 0 {
      if n == 1 {
        ShrOfZero(k - 1);
      } else {
        ShiftLowersLog(n / 2, k - 1);
      }
    }
  }

  lemma {:induction false} ShrOfZero(k: nat)
    ensures Shr(0, k) == 0
  {
    if k > 0 {
      ShrOfZero(k - 1);
    }
  }

  /** The low `k` bits are zero exactly when masking them gives zero. */
  lemma {:induction false} MaskTestsAlignment(n: nat, k: nat)
    ensures And(n, Pow2(k) - 1) == 0 <==> Aligned(n, k)
  {
    if k > 0 && n > 0 {
      MaskTestsAlignment(n / 2, k - 1);
      assert (Pow2(k) - 1) / 2 == Pow2(k - 1) - 1 && (Pow2(k) - 1) % 2 == 1;
    } else if k > 0 {
      AlignedZero(k);
    }
  }

  lemma {:induction false} AlignedZero(k: nat)
    ensures Aligned(0, k)
  {
    if k > 0 {
      AlignedZero(k - 1);
    }
  }

  lemma {:induction false} ShiftLowersAlignment(n: nat, k: nat, j: nat)
    requires Aligned(n, k)
    ensures Aligned(n, k + j) <==> Aligned(Shr(n, k), j)
  {
    if k > 0 {
      ShiftLowersAlignment(n / 2, k - 1, j);
    }
  }

  /** A number below 2^k is a multiple of 2^k only if it is zero. */
  lemma {:induction false} SmallNotAligned(n: nat, k: nat)
    requires 0 < n < Pow2(k)
    ensures !Aligned(n, k)
  {
    if k > 0 && n % 2 == 0 {
      SmallNotAligned(n / 2, k - 1);
    }
  }

  lemma {:induction false} Pow2IsUnique(n: nat, r: nat)
    requires Pow2(r) <= n < Pow2(r + 1)
    ensures Log2(n) == r
  {
    if n > 1 && r > 0 {
      Pow2IsUnique(n / 2, r - 1);
    }
  }

  lemma {:induction false} PageTimes(i: nat)
    ensures 4096 * Pow2(i) == Pow2(i + 12)
  {
    if i > 0 {
      PageTimes(i - 1);
    } else {
      assert Pow2(12) == 2 * Pow2(11) == 4 * Pow2(10) == 8 * Pow2(9) == 16 * Pow2(8) == 32 * Pow2(7);
      assert Pow2(7) == 2 * Pow2(6) == 4 * Pow2(5) == 8 * Pow2(4) == 16 * Pow2(3) == 32 * Pow2(2);
    }
  }

  lemma TwoTo64()
    ensures Pow2(64) == 0x1_0000_0000_0000_0000
  {
    PageTimes(0);
    PageTimes(12);
    PageTimes(24);
    PageTimes(36);
    PageTimes(48);
    assert Pow2(64) == 16 * Pow2(60);
  }
}
