/** Hexadecimal decoding as `Buffer.from(s, 'hex')` performs it. */
module Hex {
  import opened Wrappers

  /** The value of a hexadecimal digit (either case), or -1. */
  function DigitValue(c: char): (v: int)
    ensures -1 <= v < 16
  {
    if '0' <= c <= '9' then c as int - '0' as int
    else if 'a' <= c <= 'f' then c as int - 'a' as int + 10
    else if 'A' <= c <= 'F' then c as int - 'A' as int + 10
    else -1
  }

  predicate IsHexDigit(c: char) {
    DigitValue(c) >= 0
  }

  /** `Buffer.from(s, 'hex')`: one byte per pair of digits, stopping at the
      first pair that is not two hexadecimal digits; an odd last digit is
      dropped. */
  function Decode(s: string): (b: seq<byte>)
    ensures |b| <= |s| / 2
    ensures (|s| % 2 == 0 && forall i :: 0 <= i < |s| ==> IsHexDigit(s[i])) ==> |b| == |s| / 2
  {
    if |s| < 2 || !IsHexDigit(s[0]) || !IsHexDigit(s[1]) then []
    else [DigitValue(s[0]) * 16 + DigitValue(s[1])] + Decode(s[2..])
  }

  /** The lower-case digit of a value below 16. */
  function Digit(v: int): (c: char)
    requires 0 <= v < 16
    ensures DigitValue(c) == v
  {
    if v < 10 then ('0' as int + v) as char else ('a' as int + (v - 10)) as char
  }

  /** `buffer.toString('hex')` */
  function Encode(b: seq<byte>): (s: string)
    ensures |s| == 2 * |b|
  {
    if b == [] then "" else [Digit(b[0] / 16), Digit(b[0] % 16)] + Encode(b[1..])
  }

  /** Decoding recovers every encoded buffer. */
  lemma {:induction false} DecodeEncode(b: seq<byte>)
    ensures Decode(Encode(b)) == b
  {
    if b != [] {
      var s := Encode(b);
      assert s[2..] == Encode(b[1..]);
      DecodeEncode(b[1..]);
      assert b == [b[0]] + b[1..];
    }
  }
}
