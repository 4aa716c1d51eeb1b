/** Machine bytes and 32-bit words, and the usual optional value.
    `u32` is a subset of the integers, not a wrapping type: every value assigned to a
    variable of type `u32` carries the proof obligation that it fits in 32 bits. */
module Bytes {

  datatype Option<+T> = None | Some(value: T)

  const WORD := 0x1_0000_0000

  type byte = x: int | 0 <= x < 256

  type u32 = x: int | 0 <= x < 0x1_0000_0000

  type bytes = seq<byte>

  function Le16(s: bytes, i: nat): (r: nat)
    requires i + 2 <= |s|
    ensures r < 65536
  {
    s[i] as int + 256 * s[i+1] as int
  }

  /** The little-endian 32-bit word stored at offset `i` of a structure in memory. */
  function Le32(s: bytes, i: nat): u32
    requires i + 4 <= |s|
  {
    Le16(s, i) + 65536 * Le16(s, i + 2)
  }

  /** Least significant byte first. */
  lemma Le32Is(s: bytes, k: nat)
    requires k + 4 <= |s|
    ensures Le32(s, k) ==
            s[k] as int + 0x100 * s[k+1] as int + 0x1_0000 * s[k+2] as int + 0x100_0000 * s[k+3] as int
  {
  }

  /** How a 32-bit word is stored. */
  function Le32Bytes(v: u32): (r: bytes)
    ensures |r| == 4
  {
    [v % 256, v / 256 % 256, v / 65536 % 256, v / 0x100_0000]
  }

  lemma Le32OfBytes(s: bytes, k: nat, v: u32)
    requires k + 4 <= |s| && s[k..k + 4] == Le32Bytes(v)
    ensures Le32(s, k) == v
  {
    var w := s[k..k + 4];
    assert s[k] == w[0] && s[k+1] == w[1] && s[k+2] == w[2] && s[k+3] == w[3];
    FourDigits(v);
  }

  lemma FourDigits(v: u32)
    ensures v % 256 + 256 * (v / 256 % 256) + 65536 * (v / 65536 % 256 + 256 * (v / 0x100_0000)) == v
  {
    var q := v / 256;
    var r := q / 256;
    assert r == v / 65536;
    assert r / 256 == v / 0x100_0000;
  }

  /** Which halves of a stored word a change of one of its bytes moves. */
  lemma Le32Update(s: bytes, k: nat, i: nat, v: byte)
    requires k + 4 <= |s| && k <= i < k + 4
    ensures i < k + 2 ==> Le32(s[i := v], k) / 65536 == Le32(s, k) / 65536
    ensures i >= k + 2 ==> Le32(s[i := v], k) % 65536 == Le32(s, k) % 65536
  {
    HalvesOf(s, k);
    HalvesOf(s[i := v], k);
  }

  lemma HalvesOf(s: bytes, k: nat)
    requires k + 4 <= |s|
    ensures Le32(s, k) % 65536 == Le16(s, k) && Le32(s, k) / 65536 == Le16(s, k + 2)
  {
  }

  /** Two stored words are equal only if they are stored the same. */
  lemma Le32Injective(s: bytes, t: bytes, k: nat)
    requires k + 4 <= |s| && k + 4 <= |t| && Le32(s, k) == Le32(t, k)
    ensures forall i :: k <= i < k + 4 ==> s[i] == t[i]
  {
    HalvesOf(s, k);
    HalvesOf(t, k);
    assert s[k] == t[k] && s[k+1] == t[k+1];
    assert s[k+2] == t[k+2] && s[k+3] == t[k+3];
  }

  function Min(a: nat, b: nat): nat {
    if a < b then a else b
  }
}
