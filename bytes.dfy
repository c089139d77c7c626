/** Bytes, the XOR that combines them, and Python 2 byte strings. */
module Bytes {

  newtype byte = x: int | 0 <= x < 256

  function Pow2(n: nat): (p: nat)
    ensures p >= 1
  {
    if n == 0 then 1 else 2 * Pow2(n - 1)
  }

  /** Bitwise exclusive or of the low n bits of a and b, least significant bit first. */
  function XorBits(a: nat, b: nat, n: nat): (r: nat)
    ensures r < Pow2(n)
  {
    if n == 0 then 0 else (if a % 2 == b % 2 then 0 else 1) + 2 * XorBits(a / 2, b / 2, n - 1)
  }

  function Xor(a: byte, b: byte): byte {
    XorBits(a as int, b as int, 8) as byte
  }

  /** The low bit and the rest of r + 2 * y, for a bit r. */
  lemma SplitLowBit(r: nat, y: nat)
    requires r < 2
    ensures (r + 2 * y) % 2 == r && (r + 2 * y) / 2 == y
  {
  }

  /** XORing the same b twice restores any a of at most n bits. */
  lemma {:induction false} XorBitsTwice(a: nat, b: nat, n: nat)
    requires a < Pow2(n)
    ensures XorBits(XorBits(a, b, n), b, n) == a
  {
    if n > 0 {
      var r := if a % 2 == b % 2 then 0 else 1;
      var y := XorBits(a / 2, b / 2, n - 1);
      var x := XorBits(a, b, n);
      SplitLowBit(r, y);
      assert Pow2(n) == 2 * Pow2(n - 1);
      XorBitsTwice(a / 2, b / 2, n - 1);
      assert XorBits(x, b, n) == (if r == b % 2 then 0 else 1) + 2 * (a / 2);
      assert (if r == b % 2 then 0 else 1) == a % 2;
    }
  }

  /** In CFB the same keystream byte is XORed in on encryption and out on decryption. */
  lemma XorTwice(p: byte, k: byte)
    ensures Xor(Xor(p, k), k) == p
  {
    assert Pow2(8) == 256;
    XorBitsTwice(p as int, k as int, 8);
  }

  /** A Python 2 str is a string of bytes: every character is below 256. */
  predicate IsByteString(s: string) {
    forall i :: 0 <= i < |s| ==> s[i] as int < 256
  }

  /** The bytes of a Python 2 str (characters of 256 and above, which a str cannot hold, are reduced). */
  function ToBytes(s: string): (bs: seq<byte>)
    ensures |bs| == |s|
    ensures forall i :: 0 <= i < |s| && s[i] as int < 256 ==> bs[i] as int == s[i] as int
  {
    seq(|s|, i requires 0 <= i < |s| => (s[i] as int % 256) as byte)
  }

  /** The Python 2 str holding the given bytes. */
  function FromBytes(bs: seq<byte>): (s: string)
    ensures |s| == |bs| && IsByteString(s)
    ensures forall i :: 0 <= i < |bs| ==> s[i] as int == bs[i] as int
  {
    seq(|bs|, i requires 0 <= i < |bs| => bs[i] as int as char)
  }

  /** Reading back the bytes of a byte string gives the string. */
  lemma FromToBytes(s: string)
    requires IsByteString(s)
    ensures FromBytes(ToBytes(s)) == s
  {
    var t := FromBytes(ToBytes(s));
    assert forall i :: 0 <= i < |s| ==> t[i] as int == s[i] as int;
    assert forall i :: 0 <= i < |s| ==> t[i] == s[i];
  }
}
