/** `strlen`: bytes up to an aligned address, then 64-bit words until one holds a zero byte, then
    bytes again. `limit` bounds what may be read; it need only reach the end of the aligned word
    that holds the terminator, so nothing past that word is read. */
module StrLen {
  import opened Words

  /** `z` is the first zero byte at or after `s`. */
  ghost predicate FirstZero(m: array<bv8>, s: nat, z: nat)
    reads m
  {
    s <= z < m.Length && m[z] == 0 && forall j :: s <= j < z ==> m[j] != 0
  }

  /** One past the aligned word that holds index `z`, for a window at address `base`. */
  function WordEnd(base: nat, z: nat): int {
    (base + z) / 8 * 8 + 8 - base
  }

  method Load64(m: array<bv8>, base: nat, i: nat, ghost limit: nat) returns (w: bv64)
    requires i + 8 <= limit <= m.Length && (base + i) % 8 == 0
    ensures w == Pack64(Pack32(m[i], m[i + 1], m[i + 2], m[i + 3]), Pack32(m[i + 4], m[i + 5], m[i + 6], m[i + 7]))
  {
    w := Pack64(Pack32(m[i], m[i + 1], m[i + 2], m[i + 3]), Pack32(m[i + 4], m[i + 5], m[i + 6], m[i + 7]));
  }

  method LoadByte(m: array<bv8>, i: nat, ghost limit: nat) returns (b: bv8)
    requires i < limit <= m.Length
    ensures b == m[i]
  {
    b := m[i];
  }

  /** Whether the aligned word at `i` holds a zero byte, by the word test. */
  method WordHasZero(m: array<bv8>, base: nat, i: nat, ghost limit: nat) returns (found: bool)
    requires i + 8 <= limit <= m.Length && (base + i) % 8 == 0
    ensures found <==> exists j :: i <= j < i + 8 && m[j] == 0
  {
    var w := Load64(m, base, i, limit);
    HasZeroFindsZero(m[i], m[i + 1], m[i + 2], m[i + 3], m[i + 4], m[i + 5], m[i + 6], m[i + 7], w);
    found := HasZero(w) != 0;
  }

  lemma WordReaches(base: nat, i: nat, z: nat)
    requires (base + i) % 8 == 0 && i <= z
    ensures i + 8 <= WordEnd(base, z)
  {
  }

  lemma ByteReaches(base: nat, z: nat)
    ensures z < WordEnd(base, z)
  {
  }

  /** The length of the string at `a` is the distance to its first zero byte, for every start
      alignment, reading nothing at or past `limit`. */
  method StrLen(m: array<bv8>, base: nat, a: nat, ghost z: nat, ghost limit: nat) returns (length: nat)
    requires FirstZero(m, a, z) && WordEnd(base, z) <= limit <= m.Length
    ensures length == z - a
  {
    var s := a;
    ByteReaches(base, z);
    while (base + s) % 8 != 0
      invariant a <= s <= z
      decreases z - s
    {
      var b := LoadByte(m, s, limit);
      if b == 0 {
        return s - a;
      }
      s := s + 1;
    }
    WordReaches(base, s, z);
    var found := WordHasZero(m, base, s, limit);
    while !found
      invariant a <= s <= z && (base + s) % 8 == 0 && s + 8 <= limit
      invariant found <==> exists j :: s <= j < s + 8 && m[j] == 0
      decreases z - s, found
    {
      s := s + 8;
      WordReaches(base, s, z);
      found := WordHasZero(m, base, s, limit);
    }
    var b := LoadByte(m, s, limit);
    while b != 0
      invariant a <= s <= z && b == m[s]
      decreases z - s
    {
      s := s + 1;
      b := LoadByte(m, s, limit);
    }
    return s - a;
  }
}
