/**
 * The text forms of a UUID as the `uuid` crate writes and reads them: `to_string` writes the
 * lower-case hyphenated 8-4-4-4-12 layout of section 4 of RFC 9562, and `parse_str` reads the
 * simple (32 digits), hyphenated, braced and `urn:uuid:` forms in either case.
 */
module Uuids {
  import opened Text

  type Nibble = n: int | 0 <= n < 16

  /** A UUID as its 32 hexadecimal digits, most significant first. */
  type Uuid = s: seq<Nibble> | |s| == 32 witness seq(32, _ => 0)

  /** Positions of the four hyphens in the 36-character layout. */
  predicate IsHyphenPos(k: int) { k == 8 || k == 13 || k == 18 || k == 23 }

  /** Where the j-th digit stands in the hyphenated layout. */
  function CharPos(j: int): (k: int)
    requires 0 <= j < 32
    ensures 0 <= k < 36 && !IsHyphenPos(k)
  {
    if j < 8 then j else if j < 12 then j + 1 else if j < 16 then j + 2 else if j < 20 then j + 3 else j + 4
  }

  /** Which digit a non-hyphen position of the hyphenated layout holds. */
  function DigitIndex(k: int): (j: int)
    requires 0 <= k < 36 && !IsHyphenPos(k)
    ensures 0 <= j < 32 && CharPos(j) == k
  {
    if k < 8 then k else if k < 13 then k - 1 else if k < 18 then k - 2 else if k < 23 then k - 3 else k - 4
  }

  function LowerHexChar(n: Nibble): (c: char)
    ensures IsHexDigit(c) && !IsAsciiUpper(c)
  {
    if n < 10 then (48 + n) as char else (87 + n) as char
  }

  function HexValue(c: char): (n: Nibble)
    requires IsHexDigit(c)
  {
    if IsDigit(c) then c as int - 48 else if 'a' <= c <= 'f' then c as int - 87 else c as int - 55
  }

  lemma HexValueOfLowerHexChar(n: Nibble)
    ensures HexValue(LowerHexChar(n)) == n
  {
  }

  predicate IsHyphenated(s: string) {
    |s| == 36 && forall k :: 0 <= k < 36 ==> if IsHyphenPos(k) then s[k] == '-' else IsHexDigit(s[k])
  }

  predicate IsSimple(s: string) {
    |s| == 32 && forall k :: 0 <= k < 32 ==> IsHexDigit(s[k])
  }

  predicate IsBraced(s: string) {
    |s| == 38 && s[0] == '{' && s[37] == '}' && IsHyphenated(s[1..37])
  }

  predicate IsUrn(s: string) {
    |s| == 45 && s[..9] == "urn:uuid:" && IsHyphenated(s[9..])
  }

  /** The strings `Uuid::parse_str` accepts. */
  predicate IsParseable(s: string) {
    IsSimple(s) || IsHyphenated(s) || IsBraced(s) || IsUrn(s)
  }

  /** `Uuid::to_string`: lower-case hyphenated text. */
  function ToString(u: Uuid): (s: string)
    ensures IsHyphenated(s)
    ensures forall k :: 0 <= k < |s| ==> !IsAsciiUpper(s[k])
  {
    seq(36, k requires 0 <= k < 36 => if IsHyphenPos(k) then '-' else LowerHexChar(u[DigitIndex(k)]))
  }

  function DigitsOfSimple(s: string): Uuid
    requires IsSimple(s)
  {
    seq(32, j requires 0 <= j < 32 => HexValue(s[j]))
  }

  function DigitsOfHyphenated(s: string): Uuid
    requires IsHyphenated(s)
  {
    seq(32, j requires 0 <= j < 32 => HexValue(s[CharPos(j)]))
  }

  /** `Uuid::parse_str`, on the strings it accepts; the form is told apart by length, as the crate does. */
  function Parse(s: string): Uuid
    requires IsParseable(s)
  {
    if |s| == 32 then DigitsOfSimple(s)
    else if |s| == 36 then DigitsOfHyphenated(s)
    else if |s| == 38 then DigitsOfHyphenated(s[1..37])
    else DigitsOfHyphenated(s[9..])
  }

  /** Reading back what `to_string` wrote gives the same UUID. */
  lemma {:induction false} ParseToString(u: Uuid)
    ensures IsParseable(ToString(u)) && Parse(ToString(u)) == u
  {
    var s := ToString(u);
    var v := Parse(s);
    forall j | 0 <= j < 32 ensures v[j] == u[j] {
      assert DigitIndex(CharPos(j)) == j;
      HexValueOfLowerHexChar(u[j]);
    }
  }

  /** Writing back a parsed lower-case hyphenated string gives the same string: `to_string` and `parse_str` are inverse on the canonical text. */
  lemma {:induction false} ToStringParse(s: string)
    requires IsHyphenated(s) && forall k :: 0 <= k < |s| ==> !IsAsciiUpper(s[k])
    ensures ToString(Parse(s)) == s
  {
    var t := ToString(Parse(s));
    forall k | 0 <= k < 36 ensures t[k] == s[k] {
      if !IsHyphenPos(k) {
        assert CharPos(DigitIndex(k)) == k;
        assert !IsAsciiUpper(s[k]) && IsHexDigit(s[k]);
      }
    }
  }
}
