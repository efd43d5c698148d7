/** Base 64 as `Convert.ToBase64String` and `Convert.FromBase64String` use it:
    the alphabet and padding of section 4 of RFC 4648. */
module Base64 {
  import opened Wrappers
  import opened Ascii

  /** A 6-bit value. */
  type sextet = x: int | 0 <= x < 64

  /** The character encoding a 6-bit value (Table 1 of RFC 4648). */
  function CharOf(v: sextet): char {
    if v < 26 then ('A' as int + v) as char
    else if v < 52 then ('a' as int + (v - 26)) as char
    else if v < 62 then ('0' as int + (v - 52)) as char
    else if v == 62 then '+'
    else '/'
  }

  /** The 6-bit value a character encodes, if it is in the alphabet. */
  function ValueOf(c: char): (r: Option<sextet>)
    ensures r.Some? ==> CharOf(r.value) == c
  {
    if 'A' <= c <= 'Z' then Some(c as int - 'A' as int)
    else if 'a' <= c <= 'z' then Some(c as int - 'a' as int + 26)
    else if '0' <= c <= '9' then Some(c as int - '0' as int + 52)
    else if c == '+' then Some(62)
    else if c == '/' then Some(63)
    else None
  }

  /** Every alphabet character decodes to the value it encodes. */
  lemma ValueOfCharOf(v: sextet)
    ensures ValueOf(CharOf(v)) == Some(v)
  {
  }

  /** Three bytes as four characters. */
  function EncodeGroup(b0: byte, b1: byte, b2: byte): string {
    [CharOf(b0 / 4), CharOf(b0 % 4 * 16 + b1 / 16), CharOf(b1 % 16 * 4 + b2 / 64), CharOf(b2 % 64)]
  }

  /** A final group of two bytes: three characters and one pad. */
  function EncodeTwo(b0: byte, b1: byte): string {
    [CharOf(b0 / 4), CharOf(b0 % 4 * 16 + b1 / 16), CharOf(b1 % 16 * 4), '=']
  }

  /** A final group of one byte: two characters and two pads. */
  function EncodeOne(b0: byte): string {
    [CharOf(b0 / 4), CharOf(b0 % 4 * 16), '=', '=']
  }

  /** `Convert.ToBase64String`: groups of three bytes become four characters;
      a final group of one or two bytes is padded with `=`. */
  function Encode(b: seq<byte>): string
    decreases |b|
  {
    if |b| == 0 then []
    else if |b| == 1 then EncodeOne(b[0])
    else if |b| == 2 then EncodeTwo(b[0], b[1])
    else EncodeGroup(b[0], b[1], b[2]) + Encode(b[3..])
  }

  /** Four characters for every started group of three bytes. */
  lemma {:induction false} EncodeLength(b: seq<byte>)
    ensures |Encode(b)| % 4 == 0 && |Encode(b)| == (|b| + 2) / 3 * 4
    decreases |b|
  {
    if |b| >= 3 {
      EncodeLength(b[3..]);
      var n := |b| - 3;
      assert (n + 3 + 2) / 3 == (n + 2) / 3 + 1;
      assert (n + 5) / 3 * 4 == (n + 2) / 3 * 4 + 4;
    }
  }

  /** The white space `FromBase64String` skips. */
  predicate IsBase64Space(c: char) {
    c == ' ' || c == '\t' || c == '\r' || c == '\n'
  }

  /** `s` without the white space `FromBase64String` skips. */
  function RemoveSpace(s: string): (r: string)
    ensures forall i :: 0 <= i < |r| ==> !IsBase64Space(r[i])
    ensures |r| <= |s|
  {
    if |s| == 0 then []
    else if IsBase64Space(s[0]) then RemoveSpace(s[1..])
    else [s[0]] + RemoveSpace(s[1..])
  }

  /** Four characters as up to three bytes: all four in the alphabet give
      three bytes; with `last`, a group ending in `=` or `==` gives two or one. */
  function DecodeGroup(q: string, last: bool): (r: Option<seq<byte>>)
    requires |q| == 4
  {
    var v0, v1, v2, v3 := ValueOf(q[0]), ValueOf(q[1]), ValueOf(q[2]), ValueOf(q[3]);
    if v0.None? || v1.None? then None
    else
      var b0 := v0.value * 4 + v1.value / 16;
      if v2.Some? && v3.Some? then
        Some([b0, v1.value % 16 * 16 + v2.value / 4, v2.value % 4 * 64 + v3.value])
      else if last && v2.Some? && q[3] == '=' then
        Some([b0, v1.value % 16 * 16 + v2.value / 4])
      else if last && q[2] == '=' && q[3] == '=' then
        Some([b0])
      else None
  }

  /** Decoding of text without white space: whole groups of four, padding
      only in the last group. Bits below the last encoded byte are not
      checked. */
  function DecodeGroups(s: string): Option<seq<byte>>
    decreases |s|
  {
    if |s| == 0 then Some([])
    else if |s| < 4 then None
    else
      match DecodeGroup(s[..4], |s| == 4)
      case None => None
      case Some(g) =>
        match DecodeGroups(s[4..])
        case None => None
        case Some(rest) => Some(g + rest)
  }

  /** `Convert.FromBase64String`: None where the method throws a
      `FormatException`. */
  function Decode(s: string): Option<seq<byte>> {
    DecodeGroups(RemoveSpace(s))
  }

  /** Characters of encoded text: the alphabet and the pad character. */
  predicate IsEncodedText(s: string) {
    forall i :: 0 <= i < |s| ==> ValueOf(s[i]).Some? || s[i] == '='
  }

  /** Encoded text contains no white space. */
  lemma {:induction false} EncodeHasNoSpace(b: seq<byte>)
    ensures RemoveSpace(Encode(b)) == Encode(b)
    decreases |b|
  {
    var s := Encode(b);
    if |b| >= 3 {
      EncodeHasNoSpace(b[3..]);
      ValueOfCharOf(b[0] / 4);
      ValueOfCharOf(b[0] % 4 * 16 + b[1] / 16);
      ValueOfCharOf(b[1] % 16 * 4 + b[2] / 64);
      ValueOfCharOf(b[2] % 64);
      NoSpaceAppend(EncodeGroup(b[0], b[1], b[2]), Encode(b[3..]));
    } else if |b| == 2 {
      ValueOfCharOf(b[0] / 4);
      ValueOfCharOf(b[0] % 4 * 16 + b[1] / 16);
      ValueOfCharOf(b[1] % 16 * 4);
      NoSpaceAppend(s, []);
      assert s + [] == s;
    } else if |b| == 1 {
      ValueOfCharOf(b[0] / 4);
      ValueOfCharOf(b[0] % 4 * 16);
      NoSpaceAppend(s, []);
      assert s + [] == s;
    }
  }

  /** Text of alphabet and padding characters is left as it is. */
  lemma {:induction false} NoSpaceAppend(a: string, b: string)
    requires IsEncodedText(a)
    requires RemoveSpace(b) == b
    ensures RemoveSpace(a + b) == a + b
    decreases |a|
  {
    if |a| == 0 {
      assert a + b == b;
    } else {
      assert (a + b)[1..] == a[1..] + b;
      NoSpaceAppend(a[1..], b);
      assert !IsBase64Space(a[0]);
      assert a + b == [a[0]] + (a[1..] + b);
    }
  }

  /** A full group decodes to the three bytes it encodes. */
  lemma DecodeFullGroup(b0: byte, b1: byte, b2: byte, last: bool)
    ensures DecodeGroup(EncodeGroup(b0, b1, b2), last) == Some([b0, b1, b2])
  {
    var v0, v1, v2, v3 := b0 / 4, b0 % 4 * 16 + b1 / 16, b1 % 16 * 4 + b2 / 64, b2 % 64;
    ValueOfCharOf(v0);
    ValueOfCharOf(v1);
    ValueOfCharOf(v2);
    ValueOfCharOf(v3);
    assert v1 / 16 == b0 % 4 && v1 % 16 == b1 / 16;
    assert v2 / 4 == b1 % 16 && v2 % 4 == b2 / 64;
  }

  /** A last group with one pad character decodes to the two bytes it encodes. */
  lemma DecodeTwoByteGroup(b0: byte, b1: byte)
    ensures DecodeGroup(EncodeTwo(b0, b1), true) == Some([b0, b1])
  {
    var v0, v1, v2 := b0 / 4, b0 % 4 * 16 + b1 / 16, b1 % 16 * 4;
    ValueOfCharOf(v0);
    ValueOfCharOf(v1);
    ValueOfCharOf(v2);
    assert v1 / 16 == b0 % 4 && v1 % 16 == b1 / 16;
    assert v2 / 4 == b1 % 16;
  }

  /** A last group with two pad characters decodes to the byte it encodes. */
  lemma DecodeOneByteGroup(b0: byte)
    ensures DecodeGroup(EncodeOne(b0), true) == Some([b0])
  {
    ValueOfCharOf(b0 / 4);
    ValueOfCharOf(b0 % 4 * 16);
  }

  /** Decoding the encoding of any bytes gives the bytes back. */
  lemma DecodeEncode(b: seq<byte>)
    ensures Decode(Encode(b)) == Some(b)
  {
    EncodeHasNoSpace(b);
    DecodeGroupsEncode(b);
  }

  /** Decoding text that starts with a decodable group. */
  lemma DecodeGroupsFront(g: string, rest: string, x: seq<byte>, y: seq<byte>)
    requires |g| == 4 && DecodeGroup(g, rest == []) == Some(x) && DecodeGroups(rest) == Some(y)
    ensures DecodeGroups(g + rest) == Some(x + y)
  {
    assert (g + rest)[..4] == g && (g + rest)[4..] == rest;
  }

  /** Text that is one last group decodes as that group. */
  lemma DecodeGroupsLast(g: string, x: seq<byte>)
    requires |g| == 4 && DecodeGroup(g, true) == Some(x)
    ensures DecodeGroups(g) == Some(x)
  {
    assert g[..4] == g && g[4..] == [];
    assert x + [] == x;
  }

  /** A final group of one byte decodes to that byte. */
  lemma DecodeGroupsEncodeOne(b: seq<byte>)
    requires |b| == 1
    ensures DecodeGroups(Encode(b)) == Some(b)
  {
    var g := EncodeOne(b[0]);
    assert Encode(b) == g;
    DecodeOneByteGroup(b[0]);
    DecodeGroupsLast(g, [b[0]]);
    assert [b[0]] == b;
  }

  /** A final group of two bytes decodes to those bytes. */
  lemma DecodeGroupsEncodeTwo(b: seq<byte>)
    requires |b| == 2
    ensures DecodeGroups(Encode(b)) == Some(b)
  {
    var g := EncodeTwo(b[0], b[1]);
    assert Encode(b) == g;
    DecodeTwoByteGroup(b[0], b[1]);
    DecodeGroupsLast(g, [b[0], b[1]]);
    assert [b[0], b[1]] == b;
  }

  lemma {:induction false} DecodeGroupsEncode(b: seq<byte>)
    ensures DecodeGroups(Encode(b)) == Some(b)
    decreases |b|
  {
    if |b| == 1 {
      DecodeGroupsEncodeOne(b);
    } else if |b| == 2 {
      DecodeGroupsEncodeTwo(b);
    } else if |b| >= 3 {
      var rest := Encode(b[3..]);
      assert Encode(b) == EncodeGroup(b[0], b[1], b[2]) + rest;
      DecodeFullGroup(b[0], b[1], b[2], rest == []);
      DecodeGroupsEncode(b[3..]);
      DecodeGroupsFront(EncodeGroup(b[0], b[1], b[2]), rest, [b[0], b[1], b[2]], b[3..]);
      assert [b[0], b[1], b[2]] + b[3..] == b;
    }
  }
}
