/** Little-endian machine words over bytes, and the bit tricks played on them. */
module Words {

  /** The 32-bit word whose bytes, lowest first, are given. */
  function Pack32(b0: bv8, b1: bv8, b2: bv8, b3: bv8): bv32 {
    (b0 as bv32) | ((b1 as bv32) << 8) | ((b2 as bv32) << 16) | ((b3 as bv32) << 24)
  }

  function Byte(w: bv32, k: nat): bv8
    requires k < 4
  {
    if k == 0 then (w & 0xff) as bv8
    else if k == 1 then ((w >> 8) & 0xff) as bv8
    else if k == 2 then ((w >> 16) & 0xff) as bv8
    else ((w >> 24) & 0xff) as bv8
  }

  /** The 64-bit word made of two 32-bit words, the lower one first. */
  function Pack64(lo: bv32, hi: bv32): bv64 {
    (lo as bv64) | ((hi as bv64) << 32)
  }

  function Low32(w: bv64): bv32 {
    (w & 0xffff_ffff) as bv32
  }

  function High32(w: bv64): bv32 {
    ((w >> 32) & 0xffff_ffff) as bv32
  }

  lemma BytesOfPack(b0: bv8, b1: bv8, b2: bv8, b3: bv8, w: bv32)
    requires w == Pack32(b0, b1, b2, b3)
    ensures Byte(w, 0) == b0 && Byte(w, 1) == b1 && Byte(w, 2) == b2 && Byte(w, 3) == b3
  {
  }

  lemma HalvesOfPack(lo: bv32, hi: bv32, w: bv64)
    requires w == Pack64(lo, hi)
    ensures Low32(w) == lo && High32(w) == hi
  {
  }

  /** Two adjacent words, shifted and merged, give the word that starts three bytes in. */
  lemma MergeAt3(b0: bv8, b1: bv8, b2: bv8, b3: bv8, c0: bv8, c1: bv8, c2: bv8, c3: bv8, w: bv32, x: bv32)
    requires w == Pack32(b0, b1, b2, b3) && x == Pack32(c0, c1, c2, c3)
    ensures (w >> 24) | (x << 8) == Pack32(b3, c0, c1, c2)
  {
  }

  lemma MergeAt2(b0: bv8, b1: bv8, b2: bv8, b3: bv8, c0: bv8, c1: bv8, c2: bv8, c3: bv8, w: bv32, x: bv32)
    requires w == Pack32(b0, b1, b2, b3) && x == Pack32(c0, c1, c2, c3)
    ensures (w >> 16) | (x << 16) == Pack32(b2, b3, c0, c1)
  {
  }

  lemma MergeAt1(b0: bv8, b1: bv8, b2: bv8, b3: bv8, c0: bv8, c1: bv8, c2: bv8, c3: bv8, w: bv32, x: bv32)
    requires w == Pack32(b0, b1, b2, b3) && x == Pack32(c0, c1, c2, c3)
    ensures (w >> 8) | (x << 24) == Pack32(b1, b2, b3, c0)
  {
  }

  /** The byte in all four places of a word. */
  function Repeat32(c: bv8): bv32 {
    0x0101_0101 * (c as bv32)
  }

  lemma RepeatFills(c: bv8)
    ensures Repeat32(c) == Pack32(c, c, c, c)
  {
  }

  function HasZero(w: bv64): bv64 {
    (w - 0x0101_0101_0101_0101) & !w & 0x8080_8080_8080_8080
  }

  /** The test is nonzero exactly when one of the eight bytes is zero. */
  lemma HasZeroFindsZero(b0: bv8, b1: bv8, b2: bv8, b3: bv8, c0: bv8, c1: bv8, c2: bv8, c3: bv8, w: bv64)
    requires w == Pack64(Pack32(b0, b1, b2, b3), Pack32(c0, c1, c2, c3))
    ensures HasZero(w) != 0 <==>
            b0 == 0 || b1 == 0 || b2 == 0 || b3 == 0 || c0 == 0 || c1 == 0 || c2 == 0 || c3 == 0
  {
  }
}
