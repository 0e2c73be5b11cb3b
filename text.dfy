/** Character and byte classes shared by the validators, the token gate and the uuid text forms. */
module Text {

  /** A `u8`: header values are byte strings. */
  newtype byte = x: int | 0 <= x < 256

  predicate IsDigit(c: char) { '0' <= c <= '9' }

  predicate IsAsciiUpper(c: char) { 'A' <= c <= 'Z' }

  predicate IsAsciiLower(c: char) { 'a' <= c <= 'z' }

  predicate IsAsciiAlphanumeric(c: char) { IsDigit(c) || IsAsciiUpper(c) || IsAsciiLower(c) }

  /** A hexadecimal digit in either case. */
  predicate IsHexDigit(c: char) { IsDigit(c) || 'a' <= c <= 'f' || 'A' <= c <= 'F' }

  predicate IsUpperHexDigit(c: char) { IsDigit(c) || 'A' <= c <= 'F' }

  predicate IsAscii(s: string) { forall i :: 0 <= i < |s| ==> s[i] < 128 as char }

  /** `char::to_ascii_uppercase`; on ASCII text this is what `str::to_uppercase` does. */
  function AsciiUpper(c: char): (u: char)
    ensures IsAsciiLower(c) ==> IsAsciiUpper(u) && u as int == c as int - 32
    ensures !IsAsciiLower(c) ==> u == c
  {
    if IsAsciiLower(c) then (c as int - 32) as char else c
  }

  function AsciiUppercase(s: string): (u: string)
    ensures |u| == |s|
    ensures forall i :: 0 <= i < |s| ==> u[i] == AsciiUpper(s[i])
  {
    seq(|s|, i requires 0 <= i < |s| => AsciiUpper(s[i]))
  }

  /** The bytes the `http` crate calls visible: tab and 0x20..0x7E (`HeaderValue::to_str`). */
  predicate IsVisibleAsciiByte(b: byte) { b == 9 || 32 <= b < 127 }

  predicate IsVisibleAscii(bs: seq<byte>) { forall i :: 0 <= i < |bs| ==> IsVisibleAsciiByte(bs[i]) }

  /** Reads ASCII bytes as text, one character per byte. */
  function AsciiText(bs: seq<byte>): (s: string)
    ensures |s| == |bs|
    ensures forall i :: 0 <= i < |bs| ==> s[i] as int == bs[i] as int
  {
    seq(|bs|, i requires 0 <= i < |bs| => bs[i] as int as char)
  }

  /** Writes ASCII text as bytes, one byte per character. */
  function AsciiBytes(s: string): (bs: seq<byte>)
    requires IsAscii(s)
    ensures |bs| == |s|
    ensures forall i :: 0 <= i < |s| ==> bs[i] as int == s[i] as int
  {
    seq(|s|, i requires 0 <= i < |s| => s[i] as int as byte)
  }

  /** `HeaderValue::to_str().unwrap_or_default()`: the text when every byte is visible, else "". */
  function HeaderText(bs: seq<byte>): (s: string)
    ensures IsVisibleAscii(bs) ==> s == AsciiText(bs)
    ensures !IsVisibleAscii(bs) ==> s == ""
  {
    if IsVisibleAscii(bs) then AsciiText(bs) else ""
  }
}
