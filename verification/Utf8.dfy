/** UTF-8 (RFC 3629, section 3), as `str.encode("utf-8")` and `bytes.decode("utf-8")` use it. */
module Utf8 {
  import opened Options

  type Byte = b: nat | b < 256

  function EncodeChar(c: char): (bytes: seq<Byte>)
    ensures 1 <= |bytes| <= 4
  {
    var n := c as int;
    if n < 0x80 then [n]
    else if n < 0x800 then [0xC0 + n / 0x40, 0x80 + n % 0x40]
    else if n < 0x10000 then [0xE0 + n / 0x1000, 0x80 + n / 0x40 % 0x40, 0x80 + n % 0x40]
    else [0xF0 + n / 0x40000, 0x80 + n / 0x1000 % 0x40, 0x80 + n / 0x40 % 0x40, 0x80 + n % 0x40]
  }

  function Encode(s: string): seq<Byte> {
    if s == "" then [] else EncodeChar(s[0]) + Encode(s[1..])
  }

  predicate IsScalar(n: int) {
    0 <= n < 0xD800 || 0xE000 <= n < 0x110000
  }

  function CharOf(n: int): Option<char> {
    if IsScalar(n) then Some(n as char) else None
  }

  // The payload bits of a continuation byte.
  function Low(b: Byte): int {
    b as int - 0x80
  }

  /** The first character of a byte string, and how many bytes it takes. */
  function DecodeChar(b: seq<Byte>): (r: Option<(char, nat)>)
    ensures r.Some? ==> 1 <= r.value.1 <= |b|
  {
    if b == [] then None
    else
      var (n, size) :=
        if b[0] < 0x80 then (b[0] as int, 1)
        else if 0xC0 <= b[0] < 0xE0 && |b| >= 2 then ((b[0] - 0xC0) * 0x40 + Low(b[1]), 2)
        else if 0xE0 <= b[0] < 0xF0 && |b| >= 3 then ((b[0] - 0xE0) * 0x1000 + Low(b[1]) * 0x40 + Low(b[2]), 3)
        else if 0xF0 <= b[0] && |b| >= 4 then
          ((b[0] - 0xF0) * 0x40000 + Low(b[1]) * 0x1000 + Low(b[2]) * 0x40 + Low(b[3]), 4)
        else (-1, 1);
      match CharOf(n)
      // Anything but the shortest form with proper continuation bytes is malformed.
      case Some(c) => if EncodeChar(c) == b[..size] then Some((c, size)) else None
      case None => None
  }

  function Decode(b: seq<Byte>): Option<string> {
    if b == [] then Some("")
    else match DecodeChar(b)
      case None => None
      case Some((c, size)) =>
        match Decode(b[size..])
        case None => None
        case Some(s) => Some([c] + s)
  }

  lemma DecodeEncodedChar(c: char, rest: seq<Byte>)
    ensures DecodeChar(EncodeChar(c) + rest) == Some((c, |EncodeChar(c)|))
  {
    var n := c as int;
    var b := EncodeChar(c) + rest;
    assert IsScalar(n) && n as char == c;
    assert b[..|EncodeChar(c)|] == EncodeChar(c);
    assert n == n / 0x40 * 0x40 + n % 0x40;
    assert n / 0x40 == n / 0x1000 * 0x40 + n / 0x40 % 0x40;
    assert n / 0x1000 == n / 0x40000 * 0x40 + n / 0x1000 % 0x40;
    if n >= 0x80 {
      assert b[0] == EncodeChar(c)[0] && b[1] == EncodeChar(c)[1];
      if n >= 0x800 {
        assert b[2] == EncodeChar(c)[2];
        if n >= 0x10000 {
          assert b[3] == EncodeChar(c)[3];
        }
      }
    }
  }

  /** Encoding loses nothing. */
  lemma {:induction false} DecodeEncoded(s: string)
    ensures Decode(Encode(s)) == Some(s)
  {
    if s != "" {
      DecodeEncodedChar(s[0], Encode(s[1..]));
      DecodeEncoded(s[1..]);
      assert Encode(s)[|EncodeChar(s[0])|..] == Encode(s[1..]);
      assert s == [s[0]] + s[1..];
    }
  }

  /** ASCII characters are their own bytes. */
  lemma {:induction false} AsciiIsItself(s: string)
    requires forall i :: 0 <= i < |s| ==> s[i] as int < 0x80
    ensures |Encode(s)| == |s| && forall i :: 0 <= i < |s| ==> Encode(s)[i] == s[i] as int
  {
    if s != "" {
      AsciiIsItself(s[1..]);
      assert Encode(s) == [s[0] as int] + Encode(s[1..]);
    }
  }
}
