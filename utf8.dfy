/**
 * Go strings are immutable byte strings, and `len` on a string counts bytes.
 * Text reaching the service (the decoded query string) is UTF-8, so the
 * number of bytes can exceed the number of characters. This module gives the
 * byte type and the UTF-8 encoding of Dafny strings (sequences of Unicode
 * scalar values) so that the greeting's byte threshold can be related to a
 * character count.
 */
module Utf8 {

  newtype byte = b: int | 0 <= b < 0x100

  type Bytes = seq<byte>

  /** The bytes of a string literal written with ASCII characters only
      (every literal of the service is). Each character keeps its low byte. */
  function Ascii(s: string): (r: Bytes)
    ensures |r| == |s|
  {
    seq(|s|, i requires 0 <= i < |s| => (s[i] as int % 0x100) as byte)
  }

  predicate IsAscii(s: string)
  {
    forall i :: 0 <= i < |s| ==> s[i] as int < 0x80
  }

  /** The UTF-8 encoding of one Unicode scalar value: one byte below U+0080,
      two below U+0800, three below U+10000, four above. */
  function EncodeRune(c: char): (r: Bytes)
    ensures 1 <= |r| <= 4
    ensures |r| == 1 <==> c as int < 0x80
    ensures c as int < 0x80 ==> r == [c as int as byte]
  {
    var cp := c as int;
    if cp < 0x80 then
      [cp as byte]
    else if cp < 0x800 then
      [(0xC0 + cp / 0x40) as byte, (0x80 + cp % 0x40) as byte]
    else if cp < 0x1_0000 then
      [(0xE0 + cp / 0x1000) as byte, (0x80 + cp / 0x40 % 0x40) as byte,
       (0x80 + cp % 0x40) as byte]
    else
      [(0xF0 + cp / 0x4_0000) as byte, (0x80 + cp / 0x1000 % 0x40) as byte,
       (0x80 + cp / 0x40 % 0x40) as byte, (0x80 + cp % 0x40) as byte]
  }

  /** The UTF-8 encoding of a string: the bytes Go holds for it. */
  function Encode(s: string): Bytes
  {
    if s == [] then [] else EncodeRune(s[0]) + Encode(s[1..])
  }

  /** Every character takes between one and four bytes. */
  lemma {:induction false} EncodeLength(s: string)
    ensures |s| <= |Encode(s)| <= 4 * |s|
  {
    if s != [] {
      EncodeLength(s[1..]);
    }
  }

  /** On ASCII text the encoding is byte for byte the text itself, so Go's
      `len` and the character count agree. */
  lemma {:induction false} EncodeAscii(s: string)
    requires IsAscii(s)
    ensures Encode(s) == Ascii(s)
    ensures |Encode(s)| == |s|
  {
    if s != [] {
      assert IsAscii(s[1..]) by {
        forall i | 0 <= i < |s[1..]| ensures s[1..][i] as int < 0x80 {
          assert s[1..][i] == s[i + 1];
        }
      }
      EncodeAscii(s[1..]);
      assert s[0] as int < 0x80;
      assert Encode(s) == Ascii(s) by {
        forall i | 0 <= i < |s| ensures Encode(s)[i] == Ascii(s)[i] {
          if i > 0 {
            assert Encode(s)[i] == Encode(s[1..])[i - 1];
            assert Ascii(s[1..])[i - 1] == Ascii(s)[i];
          }
        }
      }
    }
  }

  /** A single character outside ASCII already makes the byte count exceed
      the character count. */
  lemma {:induction false} EncodeNonAscii(s: string, k: nat)
    requires k < |s| && s[k] as int >= 0x80
    ensures |Encode(s)| > |s|
  {
    if k == 0 {
      EncodeLength(s[1..]);
    } else {
      EncodeNonAscii(s[1..], k - 1);
    }
  }
}
