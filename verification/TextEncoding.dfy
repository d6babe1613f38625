/**
 The encodings whose lengths a text field counts: UTF-8 (section 3 of RFC 3629) and UTF-16 (section 2 of RFC 2781).
 Both decoders accept the shortest form only.
 */
module TextEncoding {
  import opened Wrappers
  import opened TextInput

  type Byte = b: int | 0 <= b < 0x100

  type Unit = u: int | 0 <= u < 0x1_0000

  function Encoded8(c: Scalar): (r: seq<Byte>)
    ensures |r| == LenUtf8(c)
  {
    if LenUtf8(c) == 1 then [c]
    else if LenUtf8(c) == 2 then [0xC0 + c / 0x40, 0x80 + c % 0x40]
    else if LenUtf8(c) == 3 then [0xE0 + c / 0x40 / 0x40, 0x80 + c / 0x40 % 0x40, 0x80 + c % 0x40]
    else [0xF0 + c / 0x40 / 0x40 / 0x40, 0x80 + c / 0x40 / 0x40 % 0x40, 0x80 + c / 0x40 % 0x40, 0x80 + c % 0x40]
  }

  /** How many bytes the first one announces. */
  function Announced(first: Byte): nat {
    if first < 0x80 then 1 else if first < 0xC0 then 0 else if first < 0xE0 then 2 else if first < 0xF0 then 3
    else if first < 0xF8 then 4 else 0
  }

  predicate IsContinuation(b: Byte) {
    0x80 <= b < 0xC0
  }

  predicate IsScalar(v: int) {
    0 <= v < 0xD800 || 0xE000 <= v < 0x11_0000
  }

  /** The first character of some bytes, if they start with one in shortest form. */
  function Decoded8(bytes: seq<Byte>): (r: Option<Scalar>) {
    if bytes == [] || |bytes| < Announced(bytes[0]) then None
    else
      var n := Announced(bytes[0]);
      if n == 1 then Some(bytes[0])
      else if n == 2 && IsContinuation(bytes[1]) then
        Shortest((bytes[0] as int - 0xC0) * 0x40 + (bytes[1] as int - 0x80), 0x80)
      else if n == 3 && IsContinuation(bytes[1]) && IsContinuation(bytes[2]) then
        Shortest((bytes[0] as int - 0xE0) * 0x1000 + (bytes[1] as int - 0x80) * 0x40 + (bytes[2] as int - 0x80), 0x800)
      else if n == 4 && IsContinuation(bytes[1]) && IsContinuation(bytes[2]) && IsContinuation(bytes[3]) then
        Shortest((bytes[0] as int - 0xF0) * 0x4_0000 + (bytes[1] as int - 0x80) * 0x1000 + (bytes[2] as int - 0x80) * 0x40 + (bytes[3] as int - 0x80), 0x1_0000)
      else None
  }

  function Shortest(v: int, least: nat): Option<Scalar> {
    if v >= least && IsScalar(v) then Some(v) else None
  }

  function Encoded16(c: Scalar): (r: seq<Unit>)
    ensures |r| == LenUtf16(c)
  {
    if LenUtf16(c) == 1 then [c]
    else [0xD800 + (c - 0x1_0000) / 0x400, 0xDC00 + (c - 0x1_0000) % 0x400]
  }

  /** The first character of some code units: a surrogate counts only as one of a pair. */
  function Decoded16(units: seq<Unit>): Option<Scalar> {
    if units == [] then None
    else if units[0] < 0xD800 || units[0] >= 0xE000 then Some(units[0])
    else if units[0] < 0xDC00 && |units| > 1 && 0xDC00 <= units[1] < 0xE000 then
      Some(0x1_0000 + (units[0] as int - 0xD800) * 0x400 + (units[1] as int - 0xDC00))
    else None
  }

  lemma LongRoundTrip(c: Scalar, rest: seq<Byte>)
    requires LenUtf8(c) == 4
    ensures Decoded8(Encoded8(c) + rest) == Some(c) && Announced(Encoded8(c)[0]) == 4
  {
    var b := Encoded8(c) + rest;
    assert b[0] == 0xF0 + c / 0x40 / 0x40 / 0x40 && b[1] == 0x80 + c / 0x40 / 0x40 % 0x40 && b[2] == 0x80 + c / 0x40 % 0x40 && b[3] == 0x80 + c % 0x40;
  }

  lemma MiddleRoundTrip(c: Scalar, rest: seq<Byte>)
    requires LenUtf8(c) == 3
    ensures Decoded8(Encoded8(c) + rest) == Some(c) && Announced(Encoded8(c)[0]) == 3
  {
    var b := Encoded8(c) + rest;
    assert b[0] == 0xE0 + c / 0x40 / 0x40 && b[1] == 0x80 + c / 0x40 % 0x40 && b[2] == 0x80 + c % 0x40;
  }

  /** The character is found again, and its length is the number of bytes that it announces. */
  lemma Utf8RoundTrip(c: Scalar, rest: seq<Byte>)
    ensures Decoded8(Encoded8(c) + rest) == Some(c) && Announced(Encoded8(c)[0]) == LenUtf8(c)
  {
    if LenUtf8(c) == 4 {
      LongRoundTrip(c, rest);
    } else if LenUtf8(c) == 3 {
      MiddleRoundTrip(c, rest);
    } else if LenUtf8(c) == 2 {
        var b := Encoded8(c) + rest;
      assert b[0] == 0xC0 + c / 0x40 && b[1] == 0x80 + c % 0x40;
    }
  }

  lemma Utf16RoundTrip(c: Scalar, rest: seq<Unit>)
    ensures Decoded16(Encoded16(c) + rest) == Some(c)
  {
  }

  function Text8(s: seq<Scalar>): seq<Byte> {
    if s == [] then [] else Text8(s[..|s| - 1]) + Encoded8(s[|s| - 1])
  }

  function Text16(s: seq<Scalar>): seq<Unit> {
    if s == [] then [] else Text16(s[..|s| - 1]) + Encoded16(s[|s| - 1])
  }

  lemma {:induction false} LengthsCount(s: seq<Scalar>)
    ensures |Text8(s)| == Utf8Len(s) && |Text16(s)| == Utf16Len(s)
  {
    if s != [] {
      LengthsCount(s[..|s| - 1]);
    }
  }

  lemma {:induction false} Text8Prefix(s: seq<Scalar>, i: nat)
    requires i <= |s|
    ensures Text8(s[..i]) <= Text8(s)
    decreases |s| - i
  {
    if i == |s| {
      assert s[..i] == s;
    } else {
      assert s[..i + 1][..i] == s[..i];
      Text8Prefix(s, i + 1);
    }
  }

  lemma {:induction false} Text16Prefix(s: seq<Scalar>, i: nat)
    requires i <= |s|
    ensures Text16(s[..i]) <= Text16(s)
    decreases |s| - i
  {
    if i == |s| {
      assert s[..i] == s;
    } else {
      assert s[..i + 1][..i] == s[..i];
      Text16Prefix(s, i + 1);
    }
  }

  /** Where the byte offset of character `i` points, in the encoded text, that character is read. */
  lemma ByteOffsetsPointToCharacters(s: seq<Scalar>, i: nat)
    requires i < |s|
    ensures ByteAt(s, i) <= |Text8(s)| && Decoded8(Text8(s)[ByteAt(s, i)..]) == Some(s[i])
  {
    assert s[..i + 1][..i] == s[..i];
    LengthsCount(s[..i]);
    Text8Prefix(s, i + 1);
    var all, done := Text8(s), Text8(s[..i + 1]);
    assert done == Text8(s[..i]) + Encoded8(s[i]);
    assert all[ByteAt(s, i)..] == Encoded8(s[i]) + all[|done|..];
    Utf8RoundTrip(s[i], all[|done|..]);
  }

  /** And so for code units. */
  lemma UnitOffsetsPointToCharacters(s: seq<Scalar>, i: nat)
    requires i < |s|
    ensures UnitAt(s, i) <= |Text16(s)| && Decoded16(Text16(s)[UnitAt(s, i)..]) == Some(s[i])
  {
    assert s[..i + 1][..i] == s[..i];
    LengthsCount(s[..i]);
    Text16Prefix(s, i + 1);
    var all, done := Text16(s), Text16(s[..i + 1]);
    assert done == Text16(s[..i]) + Encoded16(s[i]);
    assert all[UnitAt(s, i)..] == Encoded16(s[i]) + all[|done|..];
    Utf16RoundTrip(s[i], all[|done|..]);
  }
}
