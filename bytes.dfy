/** Bytes, the fixed-width unsigned integers of the firmware ABI, and their
    little-endian encoding (the byte order of every multi-byte field on the wire). */
module Bytes {

  type byte = x: int | 0 <= x < 0x100
  type u16 = x: int | 0 <= x < 0x1_0000
  type u32 = x: int | 0 <= x < 0x1_0000_0000
  type u64 = x: int | 0 <= x < 0x1_0000_0000_0000_0000

  /** 256 to the power n: one more than the largest value n bytes can hold. */
  function Pow256(n: nat): (p: nat)
    ensures p >= 1
  {
    if n == 0 then 1 else 256 * Pow256(n - 1)
  }

  lemma Pow256Widths()
    ensures Pow256(2) == 0x1_0000
    ensures Pow256(4) == 0x1_0000_0000
    ensures Pow256(8) == 0x1_0000_0000_0000_0000
  {
  }

  /** The n low bytes of v, least significant first. Bytes above the n-th are
      dropped, as an `as` cast to an n-byte integer drops them. */
  function ToLittleEndian(v: nat, n: nat): (s: seq<byte>)
    ensures |s| == n
  {
    if n == 0 then [] else [v % 256] + ToLittleEndian(v / 256, n - 1)
  }

  /** The value of a little-endian byte string. */
  function FromLittleEndian(s: seq<byte>): (v: nat)
    ensures v < Pow256(|s|)
  {
    if s == [] then 0 else s[0] + 256 * FromLittleEndian(s[1..])
  }

  /** Euclidean division is unique: a quotient and remainder in range are the quotient and remainder. */
  lemma DivModUnique(v: int, d: int, k: int, m: int)
    requires d > 0 && 0 <= m < d && v == d * k + m
    ensures v / d == k && v % d == m
  {
    var q := v / d;
    MulSign(d, k - q);
    assert d * (k - q) == v % d - m;
  }

  lemma MulSign(d: int, x: int)
    requires d > 0
    ensures x >= 1 ==> d * x >= d
    ensures x <= -1 ==> d * x <= -d
  {
  }

  /** Reducing modulo 256 * p peels off the low byte, then reduces the rest modulo p. */
  lemma ModPeel(v: nat, p: nat)
    requires p >= 1
    ensures v % (256 * p) == v % 256 + 256 * ((v / 256) % p)
  {
    var q, r := v / 256, v % 256;
    var k, m := q / p, q % p;
    assert q == p * k + m;
    assert v == (256 * p) * k + (256 * m + r);
    assert 256 * m + r < 256 * p;
    DivModUnique(v, 256 * p, k, 256 * m + r);
  }

  /** Decoding an n-byte encoding gives back the value truncated to n bytes. */
  lemma {:induction false} DecodeEncode(v: nat, n: nat)
    ensures FromLittleEndian(ToLittleEndian(v, n)) == v % Pow256(n)
  {
    if n > 0 {
      var s := ToLittleEndian(v, n);
      assert s[1..] == ToLittleEndian(v / 256, n - 1);
      DecodeEncode(v / 256, n - 1);
      ModPeel(v, Pow256(n - 1));
    }
  }

  /** A value that fits in n bytes survives encoding and decoding unchanged. */
  lemma DecodeEncodeFits(v: nat, n: nat)
    requires v < Pow256(n)
    ensures FromLittleEndian(ToLittleEndian(v, n)) == v
  {
    DecodeEncode(v, n);
  }

  /** Encoding the value of a byte string, at its own width, gives back the byte string. */
  lemma {:induction false} EncodeDecode(s: seq<byte>)
    ensures ToLittleEndian(FromLittleEndian(s), |s|) == s
  {
    if s != [] {
      var v := FromLittleEndian(s);
      var rest := FromLittleEndian(s[1..]);
      assert v == s[0] + 256 * rest;
      assert v % 256 == s[0] && v / 256 == rest;
      EncodeDecode(s[1..]);
      assert ToLittleEndian(v, |s|) == [s[0]] + s[1..];
    }
  }
}
