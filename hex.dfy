/**
 Base16 encoding with lowercase digits (section 8 of RFC 4648), as produced by
 Python 2's `str.encode('hex')`: each byte becomes two digits, high nibble first.
 */
module Hex {
  import opened Wrappers

  /** An octet, the unit `os.urandom` produces. */
  type Byte = b: int | 0 <= b < 256

  /** The lowercase hexadecimal digits `0-9a-f`. */
  predicate IsHexDigit(c: char)
  {
    '0' <= c <= '9' || 'a' <= c <= 'f'
  }

  predicate IsHexString(s: string)
  {
    forall i :: 0 <= i < |s| ==> IsHexDigit(s[i])
  }

  /** The digit that stands for the nibble `n`. */
  function Digit(n: nat): (c: char)
    requires n < 16
    ensures IsHexDigit(c)
  {
    if n < 10 then ('0' as int + n) as char else ('a' as int + n - 10) as char
  }

  /** The nibble a digit stands for; the inverse of `Digit`. */
  function DigitValue(c: char): (n: nat)
    requires IsHexDigit(c)
    ensures n < 16 && Digit(n) == c
  {
    if c <= '9' then c as int - '0' as int else c as int - 'a' as int + 10
  }

  lemma DigitValueOfDigit(n: nat)
    requires n < 16
    ensures DigitValue(Digit(n)) == n
  {
  }

  /** The two digits of one byte, high nibble first. */
  function EncodeByte(b: Byte): (s: string)
    ensures |s| == 2 && IsHexDigit(s[0]) && IsHexDigit(s[1])
  {
    [Digit(b / 16), Digit(b % 16)]
  }

  /** The byte whose two digits are `hi` and `lo`. */
  function DecodeByte(hi: char, lo: char): (b: Byte)
    requires IsHexDigit(hi) && IsHexDigit(lo)
    ensures EncodeByte(b) == [hi, lo]
  {
    var h, l := DigitValue(hi), DigitValue(lo);
    NibblesOf(h, l);
    h * 16 + l
  }

  lemma NibblesOf(h: nat, l: nat)
    requires h < 16 && l < 16
    ensures h * 16 + l < 256
    ensures (h * 16 + l) / 16 == h && (h * 16 + l) % 16 == l
  {
  }

  /** Base16 encoding: two lowercase digits per byte. */
  function Encode(bytes: seq<Byte>): (s: string)
    ensures |s| == 2 * |bytes|
    ensures IsHexString(s)
  {
    if bytes == [] then [] else EncodeByte(bytes[0]) + Encode(bytes[1..])
  }

  /** Base16 decoding: `None` for an odd length or a character outside `0-9a-f`. */
  function Decode(s: string): (r: Option<seq<Byte>>)
    ensures r.Some? <==> |s| % 2 == 0 && IsHexString(s)
    ensures r.Some? ==> 2 * |r.value| == |s|
  {
    if s == [] then Some([])
    else if |s| == 1 then None
    else
      HexStringSplit(s);
      if !IsHexDigit(s[0]) || !IsHexDigit(s[1]) then None
      else
        match Decode(s[2..])
        case None => None
        case Some(rest) => Some([DecodeByte(s[0], s[1])] + rest)
  }

  lemma HexStringSplit(s: string)
    requires |s| >= 2
    ensures IsHexString(s) <==> IsHexDigit(s[0]) && IsHexDigit(s[1]) && IsHexString(s[2..])
  {
    if IsHexDigit(s[0]) && IsHexDigit(s[1]) && IsHexString(s[2..]) {
      forall i | 2 <= i < |s| ensures IsHexDigit(s[i]) {
        assert s[i] == s[2..][i - 2];
      }
    }
  }

  /** Decoding undoes encoding. */
  lemma {:induction false} DecodeEncode(bytes: seq<Byte>)
    ensures Decode(Encode(bytes)) == Some(bytes)
  {
    if bytes != [] {
      var s := Encode(bytes);
      assert s[2..] == Encode(bytes[1..]);
      DecodeEncode(bytes[1..]);
      var b := DecodeByte(s[0], s[1]);
      assert EncodeByte(b) == EncodeByte(bytes[0]);
      EncodeByteInjective(b, bytes[0]);
      assert [bytes[0]] + bytes[1..] == bytes;
    }
  }

  /** Encoding undoes decoding: a well-formed hex string is the encoding of its bytes. */
  lemma {:induction false} EncodeDecode(s: string)
    requires Decode(s).Some?
    ensures Encode(Decode(s).value) == s
  {
    if s != [] {
      EncodeDecode(s[2..]);
      var bytes := Decode(s).value;
      assert bytes[1..] == Decode(s[2..]).value;
      assert s == [s[0], s[1]] + s[2..];
    }
  }

  lemma EncodeByteInjective(a: Byte, b: Byte)
    requires EncodeByte(a) == EncodeByte(b)
    ensures a == b
  {
    DigitValueOfDigit(a / 16);
    DigitValueOfDigit(a % 16);
    DigitValueOfDigit(b / 16);
    DigitValueOfDigit(b % 16);
    assert EncodeByte(a)[0] == EncodeByte(b)[0] && EncodeByte(a)[1] == EncodeByte(b)[1];
  }
}
