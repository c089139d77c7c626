/** Base 16 encoding (RFC 4648, section 8) as Python 2's 'hex' codec does it:
    encoding writes lower-case digits, decoding accepts either case and
    raises a TypeError on an odd length or a character that is not a hex digit. */
module Hex {
  import opened Wrappers
  import opened Bytes

  /** The digits the encoder writes. */
  predicate IsLowerDigit(c: char) {
    '0' <= c <= '9' || 'a' <= c <= 'f'
  }

  /** The lower-case digit for a value below 16. */
  function Digit(n: nat): (c: char)
    requires n < 16
    ensures IsLowerDigit(c)
  {
    if n < 10 then (n + '0' as int) as char else (n - 10 + 'a' as int) as char
  }

  /** The value of one hex digit of either case, or None. */
  function DigitValue(c: char): (v: Option<nat>)
    ensures v.Some? ==> v.value < 16
    ensures v.Some? <==> (IsLowerDigit(c) || 'A' <= c <= 'F')
  {
    if '0' <= c <= '9' then Some(c as int - '0' as int)
    else if 'a' <= c <= 'f' then Some(c as int - 'a' as int + 10)
    else if 'A' <= c <= 'F' then Some(c as int - 'A' as int + 10)
    else None
  }

  /** Each value below 16 is read back from its digit. */
  lemma DigitValueOfDigit(n: nat)
    requires n < 16
    ensures DigitValue(Digit(n)) == Some(n)
  {
  }

  /** Decoding ignores case: an upper-case letter digit has the value of its lower-case form. */
  lemma DigitValueUpper(c: char)
    requires 'a' <= c <= 'f'
    ensures DigitValue((c as int - 32) as char) == DigitValue(c)
  {
  }

  function EncodeByte(b: byte): (s: string)
    ensures |s| == 2 && IsLowerDigit(s[0]) && IsLowerDigit(s[1])
  {
    [Digit(b as int / 16), Digit(b as int % 16)]
  }

  /** binascii.b2a_hex: two lower-case digits per byte, high nibble first. */
  function Encode(bytes: seq<byte>): (s: string)
    ensures |s| == 2 * |bytes|
    ensures forall i :: 0 <= i < |s| ==> IsLowerDigit(s[i])
  {
    if bytes == [] then [] else EncodeByte(bytes[0]) + Encode(bytes[1..])
  }

  /** Every character of the text is a hex digit of either case. */
  predicate AllDigits(s: string) {
    forall i :: 0 <= i < |s| ==> DigitValue(s[i]).Some?
  }

  /** binascii.a2b_hex: succeeds exactly on even-length text of hex digits, and otherwise raises
      TypeError. */
  function Decode(s: string): (r: Result<seq<byte>>)
    ensures r.Ok? ==> |r.value| * 2 == |s|
    ensures r.Ok? <==> |s| % 2 == 0 && AllDigits(s)
    ensures r.Err? ==> r.error.TypeError?
    decreases |s|
  {
    if |s| % 2 == 1 then Err(TypeError("Odd-length string"))
    else if s == [] then Ok([])
    else
      match (DigitValue(s[0]), DigitValue(s[1]))
      case (Some(hi), Some(lo)) =>
        (match Decode(s[2..])
         case Ok(rest) => Ok([(hi * 16 + lo) as byte] + rest)
         case Err(e) => Err(e))
      case _ => Err(TypeError("Non-hexadecimal digit found"))
  }

  /** Encoding distributes over concatenation, so a prefix of the bytes is a prefix of the text. */
  lemma {:induction false} EncodeAppend(a: seq<byte>, b: seq<byte>)
    ensures Encode(a + b) == Encode(a) + Encode(b)
  {
    if a == [] {
      assert a + b == b;
    } else {
      assert (a + b)[0] == a[0] && (a + b)[1..] == a[1..] + b;
      EncodeAppend(a[1..], b);
    }
  }

  /** The two digits of one byte decode back to it. */
  lemma DecodeEncodeByte(b: byte)
    ensures DigitValue(EncodeByte(b)[0]) == Some(b as int / 16)
    ensures DigitValue(EncodeByte(b)[1]) == Some(b as int % 16)
  {
  }

  /** Decoding a text that starts with two hex digits. */
  lemma DecodeStep(s: string, hi: nat, lo: nat)
    requires |s| >= 2 && |s| % 2 == 0
    requires DigitValue(s[0]) == Some(hi) && DigitValue(s[1]) == Some(lo)
    ensures Decode(s) == match Decode(s[2..])
                         case Ok(rest) => Ok([(hi * 16 + lo) as byte] + rest)
                         case Err(e) => Err(e)
  {
  }

  /** Decoding undoes encoding. */
  lemma {:induction false} DecodeEncode(bytes: seq<byte>)
    ensures Decode(Encode(bytes)) == Ok(bytes)
  {
    if bytes != [] {
      var b := bytes[0];
      var hi, lo := b as int / 16, b as int % 16;
      var s := Encode(bytes);
      var rest := Encode(bytes[1..]);
      assert s == EncodeByte(b) + rest;
      assert s[2..] == rest;
      assert s[0] == EncodeByte(b)[0] && s[1] == EncodeByte(b)[1];
      DecodeEncodeByte(b);
      assert |s| % 2 == 0;
      assert DigitValue(s[0]) == Some(hi);
      assert DigitValue(s[1]) == Some(lo);
      DecodeEncode(bytes[1..]);
      DecodeStep(s, hi, lo);
      assert Decode(s) == Ok([b] + bytes[1..]);
      assert [b] + bytes[1..] == bytes;
    }
  }

  /** Encoding is injective: different bytes never give the same text. */
  lemma EncodeInjective(a: seq<byte>, b: seq<byte>)
    requires Encode(a) == Encode(b)
    ensures a == b
  {
    DecodeEncode(a);
    DecodeEncode(b);
  }
}
