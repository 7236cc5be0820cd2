/** `memcpy`: aligned words where possible, and shifted pairs of words where source and destination
    disagree on alignment. The two windows are arrays of exactly the bytes the caller named, so
    every index proved in range is an access proved to stay inside them; addresses matter only for
    alignment. */
module MemCopy {
  import opened Words

  /** `w` is the little-endian word at `m[i]`. */
  ghost predicate WordAt(w: bv32, m: seq<bv8>, i: nat) {
    i + 4 <= |m| && w == Pack32(m[i], m[i + 1], m[i + 2], m[i + 3])
  }

  lemma MergedAt3(m: seq<bv8>, i: nat, w: bv32, x: bv32)
    requires WordAt(w, m, i) && WordAt(x, m, i + 4)
    ensures WordAt((w >> 24) | (x << 8), m, i + 3)
  {
    MergeAt3(m[i], m[i + 1], m[i + 2], m[i + 3], m[i + 4], m[i + 5], m[i + 6], m[i + 7], w, x);
  }

  lemma MergedAt2(m: seq<bv8>, i: nat, w: bv32, x: bv32)
    requires WordAt(w, m, i) && WordAt(x, m, i + 4)
    ensures WordAt((w >> 16) | (x << 16), m, i + 2)
  {
    MergeAt2(m[i], m[i + 1], m[i + 2], m[i + 3], m[i + 4], m[i + 5], m[i + 6], m[i + 7], w, x);
  }

  lemma MergedAt1(m: seq<bv8>, i: nat, w: bv32, x: bv32)
    requires WordAt(w, m, i) && WordAt(x, m, i + 4)
    ensures WordAt((w >> 8) | (x << 24), m, i + 1)
  {
    MergeAt1(m[i], m[i + 1], m[i + 2], m[i + 3], m[i + 4], m[i + 5], m[i + 6], m[i + 7], w, x);
  }

  /** The first `p` bytes of the source are in place. */
  ghost predicate Copied(dst: array<bv8>, src: array<bv8>, p: nat)
    reads dst, src
  {
    p <= dst.Length && p <= src.Length && forall j :: 0 <= j < p ==> dst[j] == src[j]
  }

  /** An aligned 32-bit load. */
  method Load32(m: array<bv8>, base: nat, i: nat) returns (w: bv32)
    requires i + 4 <= m.Length && (base + i) % 4 == 0
    ensures WordAt(w, m[..], i)
  {
    w := Pack32(m[i], m[i + 1], m[i + 2], m[i + 3]);
  }

  /** An aligned 32-bit store of the word found at `src[p]`, which is where `dst` has got to. */
  method Store32(dst: array<bv8>, base: nat, p: nat, w: bv32, ghost src: array<bv8>)
    requires dst != src && Copied(dst, src, p) && p + 4 <= dst.Length && (base + p) % 4 == 0
    requires WordAt(w, src[..], p)
    modifies dst
    ensures Copied(dst, src, p + 4)
  {
    BytesOfPack(src[p], src[p + 1], src[p + 2], src[p + 3], w);
    dst[p], dst[p + 1], dst[p + 2], dst[p + 3] := Byte(w, 0), Byte(w, 1), Byte(w, 2), Byte(w, 3);
  }

  /** A 64-bit load and store, both at least 4-byte aligned. */
  method Move64(dst: array<bv8>, src: array<bv8>, p: nat)
    requires dst != src && Copied(dst, src, p) && p + 8 <= dst.Length && p + 8 <= src.Length
    modifies dst
    ensures Copied(dst, src, p + 8)
  {
    var lo := Pack32(src[p], src[p + 1], src[p + 2], src[p + 3]);
    var hi := Pack32(src[p + 4], src[p + 5], src[p + 6], src[p + 7]);
    var w := Pack64(lo, hi);
    HalvesOfPack(lo, hi, w);
    BytesOfPack(src[p], src[p + 1], src[p + 2], src[p + 3], Low32(w));
    BytesOfPack(src[p + 4], src[p + 5], src[p + 6], src[p + 7], High32(w));
    dst[p], dst[p + 1], dst[p + 2], dst[p + 3] := Byte(Low32(w), 0), Byte(Low32(w), 1), Byte(Low32(w), 2), Byte(Low32(w), 3);
    dst[p + 4], dst[p + 5], dst[p + 6], dst[p + 7] := Byte(High32(w), 0), Byte(High32(w), 1), Byte(High32(w), 2), Byte(High32(w), 3);
  }

  /** `count` single bytes. */
  method MoveBytes(dst: array<bv8>, src: array<bv8>, p: nat, count: nat)
    requires dst != src && Copied(dst, src, p) && p + count <= dst.Length && p + count <= src.Length
    modifies dst
    ensures Copied(dst, src, p + count)
  {
    for j := 0 to count
      invariant Copied(dst, src, p + j)
    {
      dst[p + j] := src[p + j];
    }
  }

  /** `2^k` bytes if that bit of the count is set. */
  method MoveIfSet(dst: array<bv8>, src: array<bv8>, p0: nat, bit: bool, count: nat) returns (p: nat)
    requires dst != src && Copied(dst, src, p0)
    requires bit ==> p0 + count <= dst.Length && p0 + count <= src.Length
    modifies dst
    ensures p == (if bit then p0 + count else p0) && Copied(dst, src, p)
  {
    p := p0;
    if bit {
      MoveBytes(dst, src, p, count);
      p := p + count;
    }
  }

  /** The lowest bits of a number, one by one. */
  lemma LowBits(n: nat)
    requires n < 32
    ensures n == 16 * (n / 16 % 2) + n % 16
    ensures n % 16 == 8 * (n / 8 % 2) + n % 8
    ensures n % 8 == 4 * (n / 4 % 2) + n % 4
    ensures n % 4 == 2 * (n / 2 % 2) + n % 2
  {
  }

  /** The last bytes, taken bit by bit of their number. */
  method MoveLast(dst: array<bv8>, src: array<bv8>, p0: nat, n: nat)
    requires dst != src && dst.Length == src.Length == p0 + n % 4 && n < 32 && Copied(dst, src, p0)
    modifies dst
    ensures dst[..] == src[..]
  {
    assert n % 4 == 2 * (n / 2 % 2) + n % 2 by {
      LowBits(n);
    }
    var p := MoveIfSet(dst, src, p0, n / 2 % 2 == 1, 2);
    p := MoveIfSet(dst, src, p, n % 2 == 1, 1);
    assert p == dst.Length;
  }

  /** What is left after the word loops, taken bit by bit of its length. */
  method MoveRest(dst: array<bv8>, src: array<bv8>, p0: nat, n: nat)
    requires dst != src && dst.Length == src.Length == p0 + n && n < 32 && Copied(dst, src, p0)
    modifies dst
    ensures dst[..] == src[..]
  {
    LowBits(n);
    var p := MoveIfSet(dst, src, p0, n / 16 % 2 == 1, 16);
    p := MoveIfSet(dst, src, p, n / 8 % 2 == 1, 8);
    p := MoveIfSet(dst, src, p, n / 4 % 2 == 1, 4);
    MoveLast(dst, src, p, n);
  }

  /** Sixteen bytes as two 64-bit words. */
  method Move128(dst: array<bv8>, src: array<bv8>, da: nat, sa: nat, p: nat)
    requires dst != src && Copied(dst, src, p) && p + 16 <= dst.Length && p + 16 <= src.Length
    requires (da + p) % 4 == 0 && (sa + p) % 4 == 0
    modifies dst
    ensures Copied(dst, src, p + 16) && (da + p + 16) % 4 == 0 && (sa + p + 16) % 4 == 0
  {
    Move64(dst, src, p);
    Move64(dst, src, p + 8);
    SamePhase(da + p);
    SamePhase(sa + p);
  }

  /** The word copies for pointers that are both 4-byte aligned. */
  method CopyAlignedWords(dst: array<bv8>, src: array<bv8>, da: nat, sa: nat, p0: nat, n0: nat) returns (p: nat, n: nat)
    requires dst != src && dst.Length == src.Length == p0 + n0 && Copied(dst, src, p0)
    requires (da + p0) % 4 == 0 && (sa + p0) % 4 == 0
    modifies dst
    ensures n < 16 && p == dst.Length - n % 4 && Copied(dst, src, p)
  {
    p, n := p0, n0;
    while n >= 16
      invariant p + n == dst.Length && Copied(dst, src, p)
      invariant (da + p) % 4 == 0 && (sa + p) % 4 == 0
    {
      Move128(dst, src, da, sa, p);
      p, n := p + 16, n - 16;
    }
    p := CopyLastWords(dst, src, da, sa, p, n);
  }

  /** Up to three words: a 64-bit one and a 32-bit one, as the bits of the count say. */
  method CopyLastWords(dst: array<bv8>, src: array<bv8>, da: nat, sa: nat, p0: nat, n: nat) returns (p: nat)
    requires dst != src && dst.Length == src.Length == p0 + n && n < 16 && Copied(dst, src, p0)
    requires (da + p0) % 4 == 0 && (sa + p0) % 4 == 0
    modifies dst
    ensures p == dst.Length - n % 4 && Copied(dst, src, p)
  {
    p := p0;
    LowBits(n);
    if n / 8 % 2 == 1 {
      Move64(dst, src, p);
      SamePhase(da + p);
      SamePhase(sa + p);
      p := p + 8;
    }
    if n / 4 % 2 == 1 {
      var w := Load32(src, sa, p);
      Store32(dst, da, p, w, src);
      p := p + 4;
    }
  }

  /** Destination aligned: words, then the last bytes. When bytes remain, the source is aligned too. */
  method CopyAligned(dst: array<bv8>, src: array<bv8>, da: nat, sa: nat, p0: nat, n0: nat)
    requires dst != src && dst.Length == src.Length == p0 + n0 && Copied(dst, src, p0)
    requires (da + p0) % 4 == 0 && (n0 > 0 ==> (sa + p0) % 4 == 0)
    modifies dst
    ensures dst[..] == src[..]
  {
    if n0 == 0 {
      return;
    }
    var p, n := CopyAlignedWords(dst, src, da, sa, p0, n0);
    MoveLast(dst, src, p, n);
  }

  lemma SamePhase(a: nat)
    ensures (a + 4) % 4 == (a + 8) % 4 == (a + 12) % 4 == (a + 16) % 4 == a % 4
  {
  }

  /** One word of the loop for a destination one byte past an aligned address: the next source word is
      loaded and merged with the one before it, 24 and 8 bits apart. */
  method MergeStep1(dst: array<bv8>, src: array<bv8>, da: nat, sa: nat, p: nat, w: bv32) returns (x: bv32)
    requires dst != src && Copied(dst, src, p) && p >= 3 && p + 4 <= dst.Length && p + 5 <= src.Length
    requires (da + p) % 4 == 0 && (sa + p) % 4 == 3 && WordAt(w, src[..], p - 3)
    modifies dst
    ensures Copied(dst, src, p + 4) && WordAt(x, src[..], p + 1)
  {
    x := Load32(src, sa, p + 1);
    MergedAt3(src[..], p - 3, w, x);
    Store32(dst, da, p, (w >> 24) | (x << 8), src);
  }

  /** Four such words in a row. */
  method MergeWords1(dst: array<bv8>, src: array<bv8>, da: nat, sa: nat, p: nat, w0: bv32) returns (w: bv32)
    requires dst != src && Copied(dst, src, p) && p >= 3 && p + 16 <= dst.Length && p + 17 <= src.Length
    requires (da + p) % 4 == 0 && (sa + p) % 4 == 3 && WordAt(w0, src[..], p - 3)
    modifies dst
    ensures Copied(dst, src, p + 16) && WordAt(w, src[..], p + 13)
    ensures (da + p + 16) % 4 == 0 && (sa + p + 16) % 4 == 3
  {
    SamePhase(da + p);
    SamePhase(sa + p);
    var x := MergeStep1(dst, src, da, sa, p, w0);
    w := MergeStep1(dst, src, da, sa, p + 4, x);
    x := MergeStep1(dst, src, da, sa, p + 8, w);
    w := MergeStep1(dst, src, da, sa, p + 12, x);
  }

  method CopyShifted1(dst: array<bv8>, src: array<bv8>, da: nat, sa: nat, p0: nat, n0: nat) returns (p: nat, n: nat)
    requires dst != src && dst.Length == src.Length == p0 + n0 && n0 >= 32 && Copied(dst, src, p0)
    requires (sa + p0) % 4 == 0 && (da + p0) % 4 == 1
    modifies dst
    ensures p + n == dst.Length && n < 32 && Copied(dst, src, p)
  {
    var w := Load32(src, sa, p0);
    MoveBytes(dst, src, p0, 3);
    p, n := p0 + 3, n0 - 3;
    while n >= 17
      invariant p + n == dst.Length && Copied(dst, src, p) && p >= 3
      invariant (sa + p) % 4 == 3 && (da + p) % 4 == 0
      invariant WordAt(w, src[..], p - 3)
    {
      w := MergeWords1(dst, src, da, sa, p, w);
      p, n := p + 16, n - 16;
    }
  }

  /** One word of the loop for a destination two bytes past an aligned address: the next source word is
      loaded and merged with the one before it, 16 and 16 bits apart. */
  method MergeStep2(dst: array<bv8>, src: array<bv8>, da: nat, sa: nat, p: nat, w: bv32) returns (x: bv32)
    requires dst != src && Copied(dst, src, p) && p >= 2 && p + 4 <= dst.Length && p + 6 <= src.Length
    requires (da + p) % 4 == 0 && (sa + p) % 4 == 2 && WordAt(w, src[..], p - 2)
    modifies dst
    ensures Copied(dst, src, p + 4) && WordAt(x, src[..], p + 2)
  {
    x := Load32(src, sa, p + 2);
    MergedAt2(src[..], p - 2, w, x);
    Store32(dst, da, p, (w >> 16) | (x << 16), src);
  }

  /** Four such words in a row. */
  method MergeWords2(dst: array<bv8>, src: array<bv8>, da: nat, sa: nat, p: nat, w0: bv32) returns (w: bv32)
    requires dst != src && Copied(dst, src, p) && p >= 2 && p + 16 <= dst.Length && p + 18 <= src.Length
    requires (da + p) % 4 == 0 && (sa + p) % 4 == 2 && WordAt(w0, src[..], p - 2)
    modifies dst
    ensures Copied(dst, src, p + 16) && WordAt(w, src[..], p + 14)
    ensures (da + p + 16) % 4 == 0 && (sa + p + 16) % 4 == 2
  {
    SamePhase(da + p);
    SamePhase(sa + p);
    var x := MergeStep2(dst, src, da, sa, p, w0);
    w := MergeStep2(dst, src, da, sa, p + 4, x);
    x := MergeStep2(dst, src, da, sa, p + 8, w);
    w := MergeStep2(dst, src, da, sa, p + 12, x);
  }

  method CopyShifted2(dst: array<bv8>, src: array<bv8>, da: nat, sa: nat, p0: nat, n0: nat) returns (p: nat, n: nat)
    requires dst != src && dst.Length == src.Length == p0 + n0 && n0 >= 32 && Copied(dst, src, p0)
    requires (sa + p0) % 4 == 0 && (da + p0) % 4 == 2
    modifies dst
    ensures p + n == dst.Length && n < 32 && Copied(dst, src, p)
  {
    var w := Load32(src, sa, p0);
    MoveBytes(dst, src, p0, 2);
    p, n := p0 + 2, n0 - 2;
    while n >= 18
      invariant p + n == dst.Length && Copied(dst, src, p) && p >= 2
      invariant (sa + p) % 4 == 2 && (da + p) % 4 == 0
      invariant WordAt(w, src[..], p - 2)
    {
      w := MergeWords2(dst, src, da, sa, p, w);
      p, n := p + 16, n - 16;
    }
  }

  /** One word of the loop for a destination three bytes past an aligned address: the next source word is
      loaded and merged with the one before it, 8 and 24 bits apart. */
  method MergeStep3(dst: array<bv8>, src: array<bv8>, da: nat, sa: nat, p: nat, w: bv32) returns (x: bv32)
    requires dst != src && Copied(dst, src, p) && p >= 1 && p + 4 <= dst.Length && p + 7 <= src.Length
    requires (da + p) % 4 == 0 && (sa + p) % 4 == 1 && WordAt(w, src[..], p - 1)
    modifies dst
    ensures Copied(dst, src, p + 4) && WordAt(x, src[..], p + 3)
  {
    x := Load32(src, sa, p + 3);
    MergedAt1(src[..], p - 1, w, x);
    Store32(dst, da, p, (w >> 8) | (x << 24), src);
  }

  /** Four such words in a row. */
  method MergeWords3(dst: array<bv8>, src: array<bv8>, da: nat, sa: nat, p: nat, w0: bv32) returns (w: bv32)
    requires dst != src && Copied(dst, src, p) && p >= 1 && p + 16 <= dst.Length && p + 19 <= src.Length
    requires (da + p) % 4 == 0 && (sa + p) % 4 == 1 && WordAt(w0, src[..], p - 1)
    modifies dst
    ensures Copied(dst, src, p + 16) && WordAt(w, src[..], p + 15)
    ensures (da + p + 16) % 4 == 0 && (sa + p + 16) % 4 == 1
  {
    SamePhase(da + p);
    SamePhase(sa + p);
    var x := MergeStep3(dst, src, da, sa, p, w0);
    w := MergeStep3(dst, src, da, sa, p + 4, x);
    x := MergeStep3(dst, src, da, sa, p + 8, w);
    w := MergeStep3(dst, src, da, sa, p + 12, x);
  }

  method CopyShifted3(dst: array<bv8>, src: array<bv8>, da: nat, sa: nat, p0: nat, n0: nat) returns (p: nat, n: nat)
    requires dst != src && dst.Length == src.Length == p0 + n0 && n0 >= 32 && Copied(dst, src, p0)
    requires (sa + p0) % 4 == 0 && (da + p0) % 4 == 3
    modifies dst
    ensures p + n == dst.Length && n < 32 && Copied(dst, src, p)
  {
    var w := Load32(src, sa, p0);
    MoveBytes(dst, src, p0, 1);
    p, n := p0 + 1, n0 - 1;
    while n >= 19
      invariant p + n == dst.Length && Copied(dst, src, p) && p >= 1
      invariant (sa + p) % 4 == 1 && (da + p) % 4 == 0
      invariant WordAt(w, src[..], p - 1)
    {
      w := MergeWords3(dst, src, da, sa, p, w);
      p, n := p + 16, n - 16;
    }
  }

  /** Copies the source window to the destination window, for every length and every pair of
      alignments. `da` and `sa` are the addresses of the two windows. */
  method MemCpy(dst: array<bv8>, src: array<bv8>, da: nat, sa: nat)
    requires dst != src && dst.Length == src.Length
    modifies dst
    ensures dst[..] == src[..]
  {
    var p, n := 0, src.Length;
    while (sa + p) % 4 != 0 && n != 0
      invariant p + n == dst.Length && Copied(dst, src, p)
      decreases n
    {
      dst[p] := src[p];
      p, n := p + 1, n - 1;
    }
    if (da + p) % 4 == 0 {
      CopyAligned(dst, src, da, sa, p, n);
      return;
    }
    if n >= 32 {
      match (da + p) % 4
      case 1 => p, n := CopyShifted1(dst, src, da, sa, p, n);
      case 2 => p, n := CopyShifted2(dst, src, da, sa, p, n);
      case _ => p, n := CopyShifted3(dst, src, da, sa, p, n);
    }
    MoveRest(dst, src, p, n);
  }
}
