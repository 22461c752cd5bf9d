/** Base 64 encoding as `Buffer.toString('base64')` and `Buffer.from(s, 'base64')`
    perform it: the alphabet and padding of section 4 of RFC 4648 for encoding,
    and Node's lenient decoder for decoding. */
module Base64 {
  import opened Wrappers

  /** A 6-bit group: the value of one base 64 character. */
  type sextet = x: int | 0 <= x < 64

  /** The encoding alphabet of section 4 of RFC 4648 (Table 1). */
  function EncodeChar(v: sextet): (c: char)
    ensures DecodeChar(c) == v
    ensures c != '=' && c != ':'
  {
    if v < 26 then ('A' as int + v) as char
    else if v < 52 then ('a' as int + (v - 26)) as char
    else if v < 62 then ('0' as int + (v - 52)) as char
    else if v == 62 then '+'
    else '/'
  }

  /** The value of a character for Node's decoder, or -1 when the character is
      not in the alphabet.  Node also accepts the URL-safe characters of section 5
      of RFC 4648 (`-` and `_`). */
  function DecodeChar(c: char): (v: int)
    ensures -1 <= v < 64
  {
    if 'A' <= c <= 'Z' then c as int - 'A' as int
    else if 'a' <= c <= 'z' then c as int - 'a' as int + 26
    else if '0' <= c <= '9' then c as int - '0' as int + 52
    else if c == '+' || c == '-' then 62
    else if c == '/' || c == '_' then 63
    else -1
  }

  /** The sextets of `b`, three bytes to four sextets; a final group of one or
      two bytes is padded with zero bits to two or three sextets. */
  function Sextets(b: seq<byte>): (v: seq<sextet>)
    ensures |v| == (4 * |b| + 2) / 3
  {
    if |b| == 0 then []
    else if |b| == 1 then [b[0] / 4, (b[0] % 4) * 16]
    else if |b| == 2 then [b[0] / 4, (b[0] % 4) * 16 + b[1] / 16, (b[1] % 16) * 4]
    else [b[0] / 4, (b[0] % 4) * 16 + b[1] / 16, (b[1] % 16) * 4 + b[2] / 64, b[2] % 64]
         + Sextets(b[3..])
  }

  function Chars(v: seq<sextet>): (s: string)
    ensures |s| == |v|
    ensures forall i :: 0 <= i < |s| ==> s[i] == EncodeChar(v[i])
  {
    if v == [] then [] else [EncodeChar(v[0])] + Chars(v[1..])
  }

  /** The `=` characters that complete the last group of four. */
  function Padding(n: nat): string {
    if n % 3 == 1 then "==" else if n % 3 == 2 then "=" else ""
  }

  /** `buffer.toString('base64')` */
  function Encode(b: seq<byte>): (s: string)
    ensures |s| == 4 * ((|b| + 2) / 3)
  {
    Chars(Sextets(b)) + Padding(|b|)
  }

  /** The sextets Node's decoder reads from `s`: characters outside the
      alphabet are skipped and decoding stops at the first `=`. */
  function ReadSextets(s: string): (v: seq<sextet>)
    ensures |v| <= |s|
  {
    if s == [] || s[0] == '=' then []
    else if DecodeChar(s[0]) < 0 then ReadSextets(s[1..])
    else [DecodeChar(s[0]) as sextet] + ReadSextets(s[1..])
  }

  /** Four sextets to three bytes; a final group of two or three sextets gives
      one or two bytes, and a lone final sextet gives none. */
  function Bytes(v: seq<sextet>): (b: seq<byte>)
    ensures |b| == |v| * 3 / 4
  {
    if |v| < 2 then []
    else
      var s0, s1 := v[0] as int, v[1] as int;
      var s2 := if |v| > 2 then v[2] as int else 0;
      if |v| == 2 then [s0 * 4 + s1 / 16]
      else if |v| == 3 then [s0 * 4 + s1 / 16, (s1 % 16) * 16 + s2 / 4]
      else [s0 * 4 + s1 / 16, (s1 % 16) * 16 + s2 / 4, (s2 % 4) * 64 + v[3] as int] + Bytes(v[4..])
  }

  /** `Buffer.from(s, 'base64')` */
  function Decode(s: string): (b: seq<byte>)
    ensures |b| <= |s| * 3 / 4
    ensures |s| < 2 ==> b == []
  {
    Bytes(ReadSextets(s))
  }

  /** An encoding holds nothing but alphabet characters and `=`. */
  lemma EncodeAlphabet(b: seq<byte>)
    ensures forall i :: 0 <= i < |Encode(b)| ==> DecodeChar(Encode(b)[i]) >= 0 || Encode(b)[i] == '='
    ensures ':' !in Encode(b)
  {
    var s := Encode(b);
    forall i | 0 <= i < |s|
      ensures DecodeChar(s[i]) >= 0 || s[i] == '='
    {
      if i >= |Chars(Sextets(b))| {
        assert s[i] == Padding(|b|)[i - |Chars(Sextets(b))|];
      }
    }
  }

  lemma {:induction false} ReadChars(v: seq<sextet>, pad: string)
    requires pad == [] || pad[0] == '='
    ensures ReadSextets(Chars(v) + pad) == v
  {
    if v == [] {
      assert Chars(v) + pad == pad;
    } else {
      assert (Chars(v) + pad)[0] == EncodeChar(v[0]);
      assert (Chars(v) + pad)[1..] == Chars(v[1..]) + pad;
      ReadChars(v[1..], pad);
    }
  }

  /** One group of three bytes survives the trip through four sextets. */
  lemma GroupRoundTrip(b0: byte, b1: byte, b2: byte)
    ensures var s1 := (b0 % 4) * 16 + b1 / 16; b0 / 4 * 4 + s1 / 16 == b0
    ensures var s1, s2 := (b0 % 4) * 16 + b1 / 16, (b1 % 16) * 4 + b2 / 64;
      (s1 % 16) * 16 + s2 / 4 == b1
    ensures var s2 := (b1 % 16) * 4 + b2 / 64; (s2 % 4) * 64 + b2 % 64 == b2
  {
    var s1, s2 := (b0 % 4) * 16 + b1 / 16, (b1 % 16) * 4 + b2 / 64;
    assert s1 / 16 == b0 % 4 && s1 % 16 == b1 / 16;
    assert s2 / 4 == b1 % 16 && s2 % 4 == b2 / 64;
  }

  /** Decoding undoes the byte-to-sextet regrouping. */
  lemma {:induction false} BytesOfSextets(b: seq<byte>)
    ensures Bytes(Sextets(b)) == b
  {
    if |b| >= 3 {
      BytesOfSextets(b[3..]);
      GroupRoundTrip(b[0], b[1], b[2]);
      assert b == b[..3] + b[3..];
    } else if |b| > 0 {
      GroupRoundTrip(b[0], if |b| > 1 then b[1] else 0, 0);
    }
  }

  /** Round trip: Node's decoder recovers every encoded buffer. */
  lemma DecodeEncode(b: seq<byte>)
    ensures Decode(Encode(b)) == b
  {
    ReadChars(Sextets(b), Padding(|b|));
    BytesOfSextets(b);
  }
}
