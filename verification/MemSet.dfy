/** `memset`: bytes at both ends, then overlapping 32-bit fills from both ends, then 32 bytes at a
    time. The window is an array of exactly the bytes the caller named; `base` is its address. */
module MemSet {
  import opened Words

  /** Every byte of `[lo, hi)` is `c`. */
  ghost predicate Filled(m: array<bv8>, c: bv8, lo: int, hi: int)
    reads m
  {
    forall j :: 0 <= j < m.Length && lo <= j < hi ==> m[j] == c
  }

  /** Two byte stores, one near each end of the window. */
  method SetPair(m: array<bv8>, c: bv8, i: nat, j: nat)
    requires i < m.Length && j < m.Length
    modifies m
    ensures m[i] == c && m[j] == c
    ensures forall k :: 0 <= k < m.Length && k != i && k != j ==> m[k] == old(m[k])
  {
    m[i] := c;
    m[j] := c;
  }

  /** An aligned 32-bit store of the repeated byte. */
  method Fill32(m: array<bv8>, c: bv8, base: nat, i: nat)
    requires i + 4 <= m.Length && (base + i) % 4 == 0
    modifies m
    ensures forall k :: 0 <= k < m.Length ==> m[k] == if i <= k < i + 4 then c else old(m[k])
  {
    var w := Repeat32(c);
    RepeatFills(c);
    BytesOfPack(c, c, c, c, w);
    m[i], m[i + 1], m[i + 2], m[i + 3] := Byte(w, 0), Byte(w, 1), Byte(w, 2), Byte(w, 3);
  }

  /** An aligned 64-bit store of the repeated byte. */
  method Fill64(m: array<bv8>, c: bv8, base: nat, i: nat)
    requires i + 8 <= m.Length && (base + i) % 8 == 0
    modifies m
    ensures forall k :: 0 <= k < m.Length ==> m[k] == if i <= k < i + 8 then c else old(m[k])
  {
    var w := Pack64(Repeat32(c), Repeat32(c));
    HalvesOfPack(Repeat32(c), Repeat32(c), w);
    RepeatFills(c);
    BytesOfPack(c, c, c, c, Low32(w));
    m[i], m[i + 1], m[i + 2], m[i + 3] := Byte(Low32(w), 0), Byte(Low32(w), 1), Byte(Low32(w), 2), Byte(Low32(w), 3);
    m[i + 4], m[i + 5], m[i + 6], m[i + 7] := Byte(High32(w), 0), Byte(High32(w), 1), Byte(High32(w), 2), Byte(High32(w), 3);
  }

  /** The byte fills: everything when there are at most 8 bytes, else 4 bytes at each end. */
  method FillEnds(m: array<bv8>, c: bv8)
    modifies m
    ensures m.Length <= 8 ==> Filled(m, c, 0, m.Length)
    ensures m.Length > 8 ==> Filled(m, c, 0, 4) && Filled(m, c, m.Length - 4, m.Length)
  {
    var n := m.Length;
    if n == 0 {
      return;
    }
    SetPair(m, c, 0, n - 1);
    if n <= 2 {
      return;
    }
    SetPair(m, c, 1, 2);
    SetPair(m, c, n - 2, n - 3);
    if n <= 6 {
      return;
    }
    SetPair(m, c, 3, n - 4);
  }

  /** The 32-bit fills over `[s, s + n)`: everything when n is at most 24, else 28 bytes at each end. */
  method FillWordEnds(m: array<bv8>, c: bv8, base: nat, s: nat, n: nat)
    requires n >= 4 && n % 4 == 0 && s + n <= m.Length && (base + s) % 4 == 0
    modifies m
    ensures forall k :: 0 <= k < m.Length && !(s <= k < s + n) ==> m[k] == old(m[k])
    ensures n <= 24 ==> Filled(m, c, s, s + n)
    ensures n > 24 ==> Filled(m, c, s, s + 28) && Filled(m, c, s + n - 28, s + n)
  {
    Fill32(m, c, base, s);
    Fill32(m, c, base, s + n - 4);
    if n <= 8 {
      return;
    }
    FillTwo(m, c, base, s + 4);
    FillTwo(m, c, base, s + n - 12);
    if n <= 24 {
      return;
    }
    FillFour(m, c, base, s + 12);
    FillFour(m, c, base, s + n - 28);
  }

  /** Two 32-bit stores in a row. */
  method FillTwo(m: array<bv8>, c: bv8, base: nat, i: nat)
    requires i + 8 <= m.Length && (base + i) % 4 == 0
    modifies m
    ensures forall k :: 0 <= k < m.Length ==> m[k] == if i <= k < i + 8 then c else old(m[k])
  {
    Fill32(m, c, base, i);
    Fill32(m, c, base, i + 4);
  }

  /** Four 32-bit stores in a row. */
  method FillFour(m: array<bv8>, c: bv8, base: nat, i: nat)
    requires i + 16 <= m.Length && (base + i) % 4 == 0
    modifies m
    ensures forall k :: 0 <= k < m.Length ==> m[k] == if i <= k < i + 16 then c else old(m[k])
  {
    FillTwo(m, c, base, i);
    FillTwo(m, c, base, i + 8);
  }

  /** Four 64-bit stores in a row. */
  method Fill32Bytes(m: array<bv8>, c: bv8, base: nat, s: nat)
    requires s + 32 <= m.Length && (base + s) % 8 == 0
    modifies m
    ensures forall k :: 0 <= k < m.Length ==> m[k] == if s <= k < s + 32 then c else old(m[k])
    ensures (base + s + 32) % 8 == 0
  {
    Fill64(m, c, base, s);
    Fill64(m, c, base, s + 8);
    Fill64(m, c, base, s + 16);
    Fill64(m, c, base, s + 24);
  }

  lemma RoundsUpTo8(a: nat)
    requires a % 4 == 0
    ensures (a + 24 + a / 4 % 2 * 4) % 8 == 0
  {
  }

  /** 32 bytes at a time; what is left at the end is shorter than the 28 bytes already filled. */
  method FillMiddle(m: array<bv8>, c: bv8, base: nat, s0: nat, n0: nat)
    requires n0 > 24 && n0 % 4 == 0 && s0 + n0 <= m.Length && (base + s0) % 4 == 0
    requires Filled(m, c, s0, s0 + 28) && Filled(m, c, s0 + n0 - 28, s0 + n0)
    modifies m
    ensures forall k :: 0 <= k < m.Length && !(s0 <= k < s0 + n0) ==> m[k] == old(m[k])
    ensures Filled(m, c, s0, s0 + n0)
  {
    var k := 24 + (base + s0) / 4 % 2 * 4;
    RoundsUpTo8(base + s0);
    var s, n := s0 + k, n0 - k;
    while n >= 32
      invariant s0 + 24 <= s && s + n == s0 + n0 && n % 4 == 0 && (base + s) % 8 == 0
      invariant Filled(m, c, s0, s) && Filled(m, c, s0 + n0 - 28, s0 + n0)
      invariant forall j :: 0 <= j < m.Length && !(s0 <= j < s0 + n0) ==> m[j] == old(m[j])
    {
      Fill32Bytes(m, c, base, s);
      n, s := n - 32, s + 32;
    }
  }

  /** Sets every byte of the window, for every length and alignment. */
  method MemSet(m: array<bv8>, c: bv8, base: nat)
    modifies m
    ensures forall j :: 0 <= j < m.Length ==> m[j] == c
  {
    FillEnds(m, c);
    var n := m.Length;
    if n <= 8 {
      return;
    }
    var k := (4 - base % 4) % 4;
    var s := k;
    n := n - k;
    n := n - n % 4;
    FillWordEnds(m, c, base, s, n);
    if n <= 24 {
      return;
    }
    FillMiddle(m, c, base, s, n);
  }
}
