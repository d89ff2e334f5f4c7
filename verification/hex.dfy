/** `bytes.hex()`: lower-case base-16 text, two digits per byte, high nibble first. */
module Hex {

  newtype byte = x: int | 0 <= x < 256

  const Digits: string := "0123456789abcdef"

  predicate IsHexDigit(c: char) {
    '0' <= c <= '9' || 'a' <= c <= 'f'
  }

  predicate IsHexString(s: string) {
    forall i :: 0 <= i < |s| ==> IsHexDigit(s[i])
  }

  /** A visitor token as the search handler mints it: 16 random bytes, so 32 hex digits. */
  predicate IsToken(s: string) {
    |s| == 32 && IsHexString(s)
  }

  /** The value of a hex digit: its position in `Digits`. */
  function DigitValue(c: char): (v: nat)
    requires IsHexDigit(c)
    ensures v < 16 && Digits[v] == c
  {
    if '0' <= c <= '9' then c as int - '0' as int else c as int - 'a' as int + 10
  }

  function Encode(bs: seq<byte>): (s: string)
    ensures |s| == 2 * |bs|
    ensures IsHexString(s)
  {
    if |bs| == 0 then ""
    else [Digits[bs[0] as int / 16], Digits[bs[0] as int % 16]] + Encode(bs[1..])
  }

  function Decode(s: string): (bs: seq<byte>)
    requires |s| % 2 == 0 && IsHexString(s)
    ensures 2 * |bs| == |s|
  {
    if |s| == 0 then []
    else [(DigitValue(s[0]) * 16 + DigitValue(s[1])) as byte] + Decode(s[2..])
  }

  lemma DigitValueOfDigit(v: nat)
    requires v < 16
    ensures IsHexDigit(Digits[v]) && DigitValue(Digits[v]) == v
  {
  }

  /** Decoding the text of `bs` gives `bs` back. */
  lemma {:induction false} DecodeEncode(bs: seq<byte>)
    ensures Decode(Encode(bs)) == bs
  {
    if |bs| > 0 {
      var hi, lo := bs[0] as int / 16, bs[0] as int % 16;
      DigitValueOfDigit(hi);
      DigitValueOfDigit(lo);
      var s := Encode(bs);
      assert s[0] == Digits[hi] && s[1] == Digits[lo];
      assert s[2..] == Encode(bs[1..]);
      DecodeEncode(bs[1..]);
    }
  }

  /** Different bytes never give the same token. */
  lemma EncodeInjective(a: seq<byte>, b: seq<byte>)
    requires Encode(a) == Encode(b)
    ensures a == b
  {
    DecodeEncode(a);
    DecodeEncode(b);
  }
}
