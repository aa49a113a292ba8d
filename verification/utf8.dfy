/** `String.getBytes(StandardCharsets.UTF_8)` for the text the CSV writer
    builds, with the decoder it is checked against. Dafny characters are
    Unicode scalar values, so every character has an encoding. */
module Utf8 {
  import opened Wrappers

  newtype Byte = b: int | 0 <= b < 256

  /** The one to four bytes of one character. */
  function EncodeChar(c: char): (bs: seq<Byte>)
    ensures 1 <= |bs| <= 4
    ensures |bs| == 1 <==> c as int < 0x80
    ensures |bs| == 1 ==> bs[0] as int == c as int
  {
    var n := c as int;
    if n < 0x80 then [n as Byte]
    else if n < 0x800 then [(0xC0 + n / 64) as Byte, (0x80 + n % 64) as Byte]
    else if n < 0x10000 then
      [(0xE0 + n / 4096) as Byte, (0x80 + (n / 64) % 64) as Byte, (0x80 + n % 64) as Byte]
    else
      [(0xF0 + n / 262144) as Byte, (0x80 + (n / 4096) % 64) as Byte,
       (0x80 + (n / 64) % 64) as Byte, (0x80 + n % 64) as Byte]
  }

  function Encode(s: string): (bs: seq<Byte>)
    ensures |bs| >= |s|
  {
    if s == [] then [] else EncodeChar(s[0]) + Encode(s[1..])
  }

  predicate IsCont(b: Byte) {
    0x80 <= b < 0xC0
  }

  predicate IsScalar(n: int) {
    (0 <= n < 0xD800) || (0xE000 <= n < 0x110000)
  }

  /** Reads one character from the front: the character and the number of
      bytes it took. Overlong forms and surrogates are rejected. */
  function DecodeChar(bs: seq<Byte>): (r: Option<(char, nat)>)
    ensures r.Some? ==> 1 <= r.value.1 <= |bs|
  {
    if bs == [] then None
    else
      var b0 := bs[0] as int;
      if b0 < 0x80 then Some((b0 as char, 1))
      else if 0xC0 <= b0 < 0xE0 && |bs| >= 2 && IsCont(bs[1]) then
        var n := (b0 - 0xC0) * 64 + (bs[1] as int - 0x80);
        if 0x80 <= n then Some((n as char, 2)) else None
      else if 0xE0 <= b0 < 0xF0 && |bs| >= 3 && IsCont(bs[1]) && IsCont(bs[2]) then
        var n := (b0 - 0xE0) * 4096 + (bs[1] as int - 0x80) * 64 + (bs[2] as int - 0x80);
        if 0x800 <= n && IsScalar(n) then Some((n as char, 3)) else None
      else if 0xF0 <= b0 < 0xF8 && |bs| >= 4 && IsCont(bs[1]) && IsCont(bs[2]) && IsCont(bs[3]) then
        var n := (b0 - 0xF0) * 262144 + (bs[1] as int - 0x80) * 4096
                 + (bs[2] as int - 0x80) * 64 + (bs[3] as int - 0x80);
        if 0x10000 <= n < 0x110000 then Some((n as char, 4)) else None
      else None
  }

  function Decode(bs: seq<Byte>): Option<string>
    decreases |bs|
  {
    if bs == [] then Some([])
    else
      var (c, k) :- DecodeChar(bs);
      var rest :- Decode(bs[k..]);
      Some([c] + rest)
  }

  lemma Split64(n: int)
    requires n >= 0
    ensures n == 64 * (n / 64) + n % 64
    ensures (n / 64) / 64 == n / 4096
    ensures (n / 4096) / 64 == n / 262144
  {
  }

  lemma DecodeEncodeChar(c: char, rest: seq<Byte>)
    ensures DecodeChar(EncodeChar(c) + rest) == Some((c, |EncodeChar(c)|))
  {
    var n := c as int;
    if n < 0x80 {
    } else if n < 0x800 {
      DecodeTwo(c, rest);
    } else if n < 0x10000 {
      DecodeThree(c, rest);
    } else {
      DecodeFour(c, rest);
    }
  }

  lemma DecodeTwo(c: char, rest: seq<Byte>)
    requires 0x80 <= c as int < 0x800
    ensures DecodeChar(EncodeChar(c) + rest) == Some((c, 2))
  {
    var n := c as int;
    var bs := EncodeChar(c) + rest;
    Split64(n);
    assert bs[0] as int == 0xC0 + n / 64 && bs[1] as int == 0x80 + n % 64;
    assert (bs[0] as int - 0xC0) * 64 + (bs[1] as int - 0x80) == n;
  }

  lemma DecodeThree(c: char, rest: seq<Byte>)
    requires 0x800 <= c as int < 0x10000
    ensures DecodeChar(EncodeChar(c) + rest) == Some((c, 3))
  {
    var n := c as int;
    var bs := EncodeChar(c) + rest;
    Split64(n);
    Split64(n / 64);
    assert bs[0] as int == 0xE0 + n / 4096;
    assert bs[1] as int == 0x80 + (n / 64) % 64 && bs[2] as int == 0x80 + n % 64;
    assert (bs[0] as int - 0xE0) * 4096 + (bs[1] as int - 0x80) * 64 + (bs[2] as int - 0x80) == n;
  }

  lemma DecodeFour(c: char, rest: seq<Byte>)
    requires 0x10000 <= c as int
    ensures DecodeChar(EncodeChar(c) + rest) == Some((c, 4))
  {
    var n := c as int;
    var bs := EncodeChar(c) + rest;
    Split64(n);
    Split64(n / 64);
    Split64(n / 4096);
    assert bs[0] as int == 0xF0 + n / 262144 && bs[1] as int == 0x80 + (n / 4096) % 64;
    assert bs[2] as int == 0x80 + (n / 64) % 64 && bs[3] as int == 0x80 + n % 64;
    assert (bs[0] as int - 0xF0) * 262144 + (bs[1] as int - 0x80) * 4096
           + (bs[2] as int - 0x80) * 64 + (bs[3] as int - 0x80) == n;
  }

  /** Decoding the encoding of a text gives the text back. */
  lemma {:induction false} DecodeEncode(s: string)
    ensures Decode(Encode(s)) == Some(s)
  {
    if s != [] {
      var e := EncodeChar(s[0]);
      DecodeEncodeChar(s[0], Encode(s[1..]));
      DecodeEncode(s[1..]);
      assert (e + Encode(s[1..]))[|e|..] == Encode(s[1..]);
      assert s == [s[0]] + s[1..];
    }
  }

  /** Text made of ASCII characters encodes one byte per character. */
  lemma {:induction false} EncodeAscii(s: string)
    requires forall i | 0 <= i < |s| :: s[i] as int < 0x80
    ensures |Encode(s)| == |s|
    ensures forall i | 0 <= i < |s| :: Encode(s)[i] as int == s[i] as int
  {
    if s != [] {
      EncodeAscii(s[1..]);
    }
  }
}
