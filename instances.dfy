/** Concrete primitives that meet every law the model assumes of the foreign
    code, so the hypotheses of the lemmas can all hold at once.  They are not
    AES-GCM or PBKDF2: the "cipher" keeps the key beside the plaintext, which is
    enough to open under that key and to refuse every other one.  The number
    conversions are decimal text, as JavaScript prints an integer. */
module Instances {
  import opened Wrappers
  import opened Crypto
  import opened Records
  import Bookkeeping

  // --- Decimal text of integers ---

  /** The character of a decimal digit. */
  function DigitChar(d: nat): (c: char)
    requires d < 10
    ensures '0' <= c <= '9' && c as int - '0' as int == d
  {
    (d + '0' as int) as char
  }

  /** The value of a decimal digit; other characters count as 0. */
  function DigitValue(c: char): nat {
    if '0' <= c <= '9' then c as int - '0' as int else 0
  }

  /** The decimal digits of `n`, most significant first. */
  function Digits(n: nat): (s: string)
    ensures |s| > 0 && forall i :: 0 <= i < |s| ==> '0' <= s[i] <= '9'
  {
    if n < 10 then [DigitChar(n)] else Digits(n / 10) + [DigitChar(n % 10)]
  }

  /** The number a string of decimal digits spells. */
  function ParseDigits(s: string): nat {
    if s == [] then 0 else ParseDigits(s[..|s| - 1]) * 10 + DigitValue(s[|s| - 1])
  }

  lemma {:induction false} ParseDigitsOfDigits(n: nat)
    ensures ParseDigits(Digits(n)) == n
  {
    if n >= 10 {
      var s := Digits(n);
      assert s[..|s| - 1] == Digits(n / 10);
      ParseDigitsOfDigits(n / 10);
    }
  }

  /** `String(n)` for an integer: an optional minus sign, then the digits. */
  function ShowInt(v: int): string {
    if v < 0 then "-" + Digits(-v) else Digits(v)
  }

  /** `parseFloat` on such text. */
  function ParseInt(s: string): int {
    if |s| > 0 && s[0] == '-' then 0 - ParseDigits(s[1..]) as int else ParseDigits(s)
  }

  lemma ParseIntOfShowInt(v: int)
    ensures ParseInt(ShowInt(v)) == v
    ensures Delimiter !in ShowInt(v)
  {
    if v < 0 {
      assert ShowInt(v)[1..] == Digits(-v);
      ParseDigitsOfDigits(-v);
    } else {
      assert Digits(v)[0] != '-';
      ParseDigitsOfDigits(v);
    }
  }

  // --- Text as bytes, three bytes per character ---

  function CharBytes(c: char): seq<byte> {
    var n := c as int;
    [n / 0x1_0000, n / 0x100 % 0x100, n % 0x100]
  }

  function TextBytes(m: string): seq<byte> {
    if m == [] then [] else CharBytes(m[0]) + TextBytes(m[1..])
  }

  function BytesText(b: seq<byte>): Option<string> {
    if b == [] then Some([])
    else if |b| < 3 then None
    else
      var n: int := b[0] as int * 0x1_0000 + b[1] as int * 0x100 + b[2] as int;
      if !(n < 0xD800 || 0xE000 <= n < 0x11_0000) then None
      else
        match BytesText(b[3..])
        case Some(rest) => Some([n as char] + rest)
        case None => None
  }

  lemma {:induction false} BytesTextOfTextBytes(m: string)
    ensures BytesText(TextBytes(m)) == Some(m)
  {
    if m != [] {
      var b := TextBytes(m);
      assert b[..3] == CharBytes(m[0]) && b[3..] == TextBytes(m[1..]);
      assert b[0] as int * 0x1_0000 + b[1] as int * 0x100 + b[2] as int == m[0] as int;
      BytesTextOfTextBytes(m[1..]);
      assert [m[0]] + m[1..] == m;
    }
  }

  // --- The primitives ---

  /** The first 16 bytes of the key, padded with zeros. */
  function KeyTag(key: seq<byte>): (tag: seq<byte>)
    ensures |tag| == AuthTagLength
  {
    seq(AuthTagLength, i requires 0 <= i < AuthTagLength => if i < |key| then key[i] else 0)
  }

  function KeyedSeal(key: seq<byte>, iv: seq<byte>, m: string): Sealed {
    Sealed(KeyTag(key), key + TextBytes(m))
  }

  function KeyedOpen(key: seq<byte>, iv: seq<byte>, tag: seq<byte>, body: seq<byte>): Option<string> {
    if |key| <= |body| && body[..|key|] == key then BytesText(body[|key|..]) else None
  }

  function ZeroKdf(password: string, salt: seq<byte>, iterations: nat, length: nat): seq<byte> {
    seq(length, i => 0)
  }

  function SamplePrimitives(): Primitives {
    Primitives(KeyedSeal, KeyedOpen, ZeroKdf, ShowInt, ParseInt)
  }

  /** The sample primitives meet every law the model assumes of the foreign code. */
  lemma SamplePrimitivesSound()
    ensures Sound(SamplePrimitives())
    ensures forall v :: Delimiter !in SamplePrimitives().numberToString(v)
  {
    var p := SamplePrimitives();
    forall key, iv, m | |key| == KeyLength
      ensures p.open(key, iv, p.seal(key, iv, m).tag, p.seal(key, iv, m).body) == Some(m)
    {
      var body := key + TextBytes(m);
      assert body[..|key|] == key && body[|key|..] == TextBytes(m);
      BytesTextOfTextBytes(m);
    }
    forall k1, k2, iv, m | |k1| == KeyLength && |k2| == KeyLength && k1 != k2
      ensures p.open(k2, iv, p.seal(k1, iv, m).tag, p.seal(k1, iv, m).body) == None
    {
      assert (k1 + TextBytes(m))[..|k2|] == k1;
    }
    forall v
      ensures p.parseFloat(p.numberToString(v)) == v && Delimiter !in p.numberToString(v)
    {
      ParseIntOfShowInt(v);
    }
  }

  /** The field cipher over the sample primitives meets every codec law the
      bookkeeping and migration lemmas take as a hypothesis. */
  lemma SampleCodecReliable()
    ensures Bookkeeping.Reliable(FieldCodec(SamplePrimitives()))
    ensures SeparatesKeys(FieldCodec(SamplePrimitives()))
    ensures Lawful(FieldCodec(SamplePrimitives()), SamplePrimitives())
  {
    SamplePrimitivesSound();
    Bookkeeping.FieldCodecReliable(SamplePrimitives());
    FieldCodecLawful(SamplePrimitives());
  }
}
