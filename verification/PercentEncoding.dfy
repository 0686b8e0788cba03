/** Percent escapes undo percent encoding: the UTF-8 bytes of section 3 of RFC 3629, written as section
    2.1 of RFC 3986 writes them. */
module PercentEncoding {
  import opened Wrappers
  import opened TextTools
  import opened Fragments

  type Byte = n: nat | n < 0x100

  function HexDigit(n: nat): char
    requires n < 16
  {
    "0123456789ABCDEF"[n]
  }

  function EscapedByte(b: Byte): string {
    ['%', HexDigit(b / 16), HexDigit(b % 16)]
  }

  function Escapes(bytes: seq<Byte>): string {
    if bytes == [] then "" else EscapedByte(bytes[0]) + Escapes(bytes[1..])
  }

  /** The bytes of one character. */
  function Utf8(c: char): (bytes: seq<Byte>)
    ensures |bytes| == Utf8Width(c)
  {
    var code := c as int;
    if code < 0x80 then [code]
    else if code < 0x800 then [0xC0 + code / 0x40, 0x80 + code % 0x40]
    else if code < 0x1_0000 then [0xE0 + code / 0x1000, 0x80 + code / 0x40 % 0x40, 0x80 + code % 0x40]
    else [0xF0 + code / 0x4_0000, 0x80 + code / 0x1000 % 0x40, 0x80 + code / 0x40 % 0x40, 0x80 + code % 0x40]
  }

  /** Letters and digits stand for themselves; everything else is escaped. */
  function PercentEncode(s: string): string {
    if s == "" then ""
    else (if IsAlphanumeric(s[0]) then [s[0]] else Escapes(Utf8(s[0]))) + PercentEncode(s[1..])
  }

  lemma {:induction false} HexDigitValue(n: nat)
    requires n < 16
    ensures IsHexDigit(HexDigit(n)) && DigitValue(HexDigit(n)) == n
  {
  }

  lemma {:induction false} ByteIsRead(b: Byte, tail: string)
    ensures HeadByte(EscapedByte(b) + tail) == Some(b) && (EscapedByte(b) + tail)[3..] == tail
  {
    HexDigitValue(b / 16);
    HexDigitValue(b % 16);
    var s := EscapedByte(b) + tail;
    assert s[0] == '%' && s[1] == HexDigit(b / 16) && s[2] == HexDigit(b % 16);
  }

  lemma {:induction false} NextByte(bytes: seq<Byte>, tail: string)
    requires bytes != []
    ensures HeadByte(Escapes(bytes) + tail) == Some(bytes[0])
    ensures 3 <= |Escapes(bytes) + tail| && (Escapes(bytes) + tail)[3..] == Escapes(bytes[1..]) + tail
  {
    var rest := Escapes(bytes[1..]);
    ByteIsRead(bytes[0], rest + tail);
    Reassociate(EscapedByte(bytes[0]), rest, tail);
    assert Escapes(bytes) == EscapedByte(bytes[0]) + rest;
  }

  lemma {:induction false} EscapesLength(bytes: seq<Byte>)
    ensures |Escapes(bytes)| == 3 * |bytes|
  {
    if bytes != [] {
      EscapesLength(bytes[1..]);
    }
  }

  lemma {:induction false} SixBits(code: nat)
    ensures code == code / 0x40 * 0x40 + code % 0x40
    ensures code / 0x1000 == code / 0x40 / 0x40 && code / 0x4_0000 == code / 0x1000 / 0x40
  {
  }

  lemma {:induction false} OneByteChar(c: char, tail: string)
    requires c as int < 0x80
    ensures HeadChar(Escapes(Utf8(c)) + tail) == Some((c, 3))
  {
    NextByte(Utf8(c), tail);
  }

  lemma {:induction false} TwoParts(c: char) returns (lead: nat, x: nat)
    requires 0x80 <= c as int < 0x800
    ensures lead < 32 && x < 0x40 && c as int == lead * 0x40 + x && Utf8(c) == [0xC0 + lead, 0x80 + x]
  {
    lead, x := c as int / 0x40, c as int % 0x40;
    SixBits(c as int);
  }

  lemma {:induction false} TwoBytesRead(lead: nat, x: nat, c: char, tail: string)
    requires lead < 32 && x < 0x40 && 0x80 <= c as int == lead * 0x40 + x
    ensures HeadChar(Escapes([0xC0 + lead, 0x80 + x]) + tail) == Some((c, 6))
  {
    var bytes: seq<Byte> := [0xC0 + lead, 0x80 + x];
    var more: seq<Byte> := [0x80 + x];
    assert bytes[1..] == more;
    NextByte(bytes, tail);
    NextByte(more, tail);
    assert TwoBytes(lead, Escapes(more) + tail) == Some(c);
  }

  lemma {:induction false} TwoByteChar(c: char, tail: string)
    requires 0x80 <= c as int < 0x800
    ensures HeadChar(Escapes(Utf8(c)) + tail) == Some((c, 6))
  {
    var lead, x := TwoParts(c);
    TwoBytesRead(lead, x, c, tail);
  }

  lemma {:induction false} TwoMoreBytes(bytes: seq<Byte>, tail: string)
    requires |bytes| == 2
    ensures
      var s := Escapes(bytes) + tail;
      6 <= |s| && HeadByte(s) == Some(bytes[0]) && HeadByte(s[3..]) == Some(bytes[1])
  {
    NextByte(bytes, tail);
    NextByte(bytes[1..], tail);
    EscapesLength(bytes);
  }

  lemma {:induction false} ThreeMoreBytes(bytes: seq<Byte>, tail: string)
    requires |bytes| == 3
    ensures
      var s := Escapes(bytes) + tail;
      && 9 <= |s| && HeadByte(s) == Some(bytes[0]) && HeadByte(s[3..]) == Some(bytes[1])
      && HeadByte(s[6..]) == Some(bytes[2])
  {
    var s := Escapes(bytes) + tail;
    NextByte(bytes, tail);
    TwoMoreBytes(bytes[1..], tail);
    EscapesLength(bytes);
    assert s[3..][3..] == s[6..];
  }

  lemma {:induction false} ReadThree(lead: nat, x: nat, y: nat, s: string)
    requires lead < 16 && x < 0x40 && y < 0x40 && 6 <= |s|
    requires HeadByte(s) == Some(0x80 + x) && HeadByte(s[3..]) == Some(0x80 + y)
    ensures ThreeBytes(lead, s) == Scalar((lead * 0x40 + x) * 0x40 + y, 0x800)
  {
  }

  lemma {:induction false} ReadFour(lead: nat, x: nat, y: nat, z: nat, s: string)
    requires lead < 8 && x < 0x40 && y < 0x40 && z < 0x40 && 9 <= |s|
    requires HeadByte(s) == Some(0x80 + x) && HeadByte(s[3..]) == Some(0x80 + y) && HeadByte(s[6..]) == Some(0x80 + z)
    ensures FourBytes(lead, s) == Scalar(((lead * 0x40 + x) * 0x40 + y) * 0x40 + z, 0x1_0000)
  {
  }

  lemma {:induction false} HeadOfThree(lead: nat, s: string)
    requires lead < 16 && 9 <= |s| && HeadByte(s) == Some(0xE0 + lead)
    ensures HeadChar(s) == WithLength(ThreeBytes(lead, s[3..]), 9)
  {
  }

  lemma {:induction false} HeadOfFour(lead: nat, s: string)
    requires lead < 8 && 12 <= |s| && HeadByte(s) == Some(0xF0 + lead)
    ensures HeadChar(s) == WithLength(FourBytes(lead, s[3..]), 12)
  {
  }

  lemma {:induction false} ThreeParts(c: char) returns (lead: nat, x: nat, y: nat)
    requires 0x800 <= c as int < 0x1_0000
    ensures lead < 16 && x < 0x40 && y < 0x40 && c as int == (lead * 0x40 + x) * 0x40 + y
    ensures Utf8(c) == [0xE0 + lead, 0x80 + x, 0x80 + y]
  {
    var code := c as int;
    lead, x, y := code / 0x1000, code / 0x40 % 0x40, code % 0x40;
    SixBits(code);
    SixBits(code / 0x40);
  }

  lemma {:induction false} FourParts(c: char) returns (lead: nat, x: nat, y: nat, z: nat)
    requires 0x1_0000 <= c as int
    ensures lead < 8 && x < 0x40 && y < 0x40 && z < 0x40
    ensures c as int == ((lead * 0x40 + x) * 0x40 + y) * 0x40 + z
    ensures Utf8(c) == [0xF0 + lead, 0x80 + x, 0x80 + y, 0x80 + z]
  {
    var code := c as int;
    lead, x, y, z := code / 0x4_0000, code / 0x1000 % 0x40, code / 0x40 % 0x40, code % 0x40;
    SixBits(code);
    SixBits(code / 0x40);
    SixBits(code / 0x1000);
  }

  lemma {:induction false} ThreeBytesRead(lead: nat, x: nat, y: nat, c: char, tail: string)
    requires lead < 16 && x < 0x40 && y < 0x40 && 0x800 <= c as int == (lead * 0x40 + x) * 0x40 + y
    ensures HeadChar(Escapes([0xE0 + lead, 0x80 + x, 0x80 + y]) + tail) == Some((c, 9))
  {
    var bytes: seq<Byte> := [0xE0 + lead, 0x80 + x, 0x80 + y];
    var more: seq<Byte> := [0x80 + x, 0x80 + y];
    assert bytes[1..] == more;
    NextByte(bytes, tail);
    TwoMoreBytes(more, tail);
    ReadThree(lead, x, y, Escapes(more) + tail);
    EscapesLength(bytes);
    HeadOfThree(lead, Escapes(bytes) + tail);
  }

  lemma {:induction false} FourBytesRead(lead: nat, x: nat, y: nat, z: nat, c: char, tail: string)
    requires lead < 8 && x < 0x40 && y < 0x40 && z < 0x40
    requires 0x1_0000 <= c as int == ((lead * 0x40 + x) * 0x40 + y) * 0x40 + z
    ensures HeadChar(Escapes([0xF0 + lead, 0x80 + x, 0x80 + y, 0x80 + z]) + tail) == Some((c, 12))
  {
    var bytes: seq<Byte> := [0xF0 + lead, 0x80 + x, 0x80 + y, 0x80 + z];
    var more: seq<Byte> := [0x80 + x, 0x80 + y, 0x80 + z];
    assert bytes[1..] == more;
    NextByte(bytes, tail);
    ThreeMoreBytes(more, tail);
    ReadFour(lead, x, y, z, Escapes(more) + tail);
    EscapesLength(bytes);
    HeadOfFour(lead, Escapes(bytes) + tail);
  }

  lemma {:induction false} ThreeByteChar(c: char, tail: string)
    requires 0x800 <= c as int < 0x1_0000
    ensures HeadChar(Escapes(Utf8(c)) + tail) == Some((c, 9))
  {
    var lead, x, y := ThreeParts(c);
    ThreeBytesRead(lead, x, y, c, tail);
  }

  lemma {:induction false} FourByteChar(c: char, tail: string)
    requires 0x1_0000 <= c as int
    ensures HeadChar(Escapes(Utf8(c)) + tail) == Some((c, 12))
  {
    var lead, x, y, z := FourParts(c);
    FourBytesRead(lead, x, y, z, c, tail);
  }

  lemma {:induction false} CharIsDecoded(c: char, tail: string)
    ensures HeadChar(Escapes(Utf8(c)) + tail) == Some((c, 3 * Utf8Width(c)))
    ensures Escapes(Utf8(c)) != "" && Escapes(Utf8(c))[0] == '%'
    ensures (Escapes(Utf8(c)) + tail)[3 * Utf8Width(c)..] == tail
  {
    var code := c as int;
    if code < 0x80 { OneByteChar(c, tail); }
    else if code < 0x800 { TwoByteChar(c, tail); }
    else if code < 0x1_0000 { ThreeByteChar(c, tail); }
    else { FourByteChar(c, tail); }
    EscapesLength(Utf8(c));
  }

  /** Decoding undoes encoding, for every text. */
  lemma {:induction false} PercentRoundTrip(s: string)
    ensures PercentDecode(PercentEncode(s)) == Some(s)
  {
    if s != "" {
      var tail := PercentEncode(s[1..]);
      PercentRoundTrip(s[1..]);
      assert s == [s[0]] + s[1..];
      if IsAlphanumeric(s[0]) {
        assert ([s[0]] + tail)[1..] == tail;
      } else {
        CharIsDecoded(s[0], tail);
      }
    }
  }
}
