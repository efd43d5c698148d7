/** Bytes and the ASCII text encoding the program sends commands in. */
module Ascii {

  /** An unsigned 8-bit value. */
  type byte = x: int | 0 <= x < 256

  /** A character that ASCII can represent. */
  predicate IsAscii(c: char) {
    c as int < 128
  }

  /** `Encoding.ASCII.GetBytes(s)`: one byte per character; a character outside
      ASCII becomes '?' (0x3F), the encoder's replacement fallback. */
  function AsciiBytes(s: string): seq<byte> {
    seq(|s|, i requires 0 <= i < |s| => if IsAscii(s[i]) then s[i] as int else 0x3F)
  }

  /** Every character becomes one byte below 0x80, and that byte is the
      character's code exactly when the character is ASCII (or is '?' itself). */
  lemma AsciiBytesEncodes(s: string)
    ensures var b := AsciiBytes(s);
      |b| == |s|
      && (forall i :: 0 <= i < |s| ==> b[i] < 128)
      && (forall i :: 0 <= i < |s| ==> (b[i] == s[i] as int <==> IsAscii(s[i]) || s[i] == '?'))
  {
  }

  /** `Encoding.ASCII.GetString(b)`: a byte above 0x7F becomes U+FFFD. */
  function AsciiString(b: seq<byte>): (s: string)
    ensures |s| == |b|
  {
    seq(|b|, i requires 0 <= i < |b| => if b[i] < 128 then b[i] as char else '\U{FFFD}')
  }

  /** ASCII text survives encoding and decoding unchanged; other text does not. */
  lemma AsciiRoundTrip(s: string)
    ensures AsciiString(AsciiBytes(s)) == s <==> forall i :: 0 <= i < |s| ==> IsAscii(s[i])
  {
    var r := AsciiString(AsciiBytes(s));
    if exists i :: 0 <= i < |s| && !IsAscii(s[i]) {
      var i :| 0 <= i < |s| && !IsAscii(s[i]);
      assert r[i] != s[i];
    } else {
      assert forall i :: 0 <= i < |s| ==> r[i] == s[i];
    }
  }

  /** Encoding is compositional, so a command followed by "\n" is encoded as the
      command's bytes followed by 0x0A. */
  lemma AsciiBytesAppend(s: string, t: string)
    ensures AsciiBytes(s + t) == AsciiBytes(s) + AsciiBytes(t)
  {
  }
}
