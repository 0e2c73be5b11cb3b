/**
 * Password derivation (`libs/pword.rs`): MD5 (RFC 1321) over the password and the salt's text,
 * then SHA-512 (FIPS 180-4) over the MD5 digest's hex, the password and the salt's text again,
 * written as lower-case hex. The two digests are passed in as functions from text to bytes.
 */
module Password {
  import opened Text
  import Uuids

  /** `md5::compute` and `Sha512::digest` of a text's bytes. */
  type Digest = string -> seq<byte>

  /** `{:x}` and md5's `{:?}`: two lower-case hex digits per byte, most significant first. */
  function LowerHex(bs: seq<byte>): (s: string)
    ensures |s| == 2 * |bs|
    ensures forall i :: 0 <= i < |s| ==> IsHexDigit(s[i]) && !IsAsciiUpper(s[i])
  {
    if bs == [] then ""
    else [Uuids.LowerHexChar(bs[0] as int / 16), Uuids.LowerHexChar(bs[0] as int % 16)] + LowerHex(bs[1..])
  }

  /** Reads two hex digits per byte back. */
  function FromLowerHex(s: string): seq<byte>
    requires |s| % 2 == 0
    requires forall i :: 0 <= i < |s| ==> IsHexDigit(s[i])
  {
    if s == [] then []
    else [(16 * Uuids.HexValue(s[0]) + Uuids.HexValue(s[1])) as byte] + FromLowerHex(s[2..])
  }

  lemma {:induction false} FromLowerHexInverse(bs: seq<byte>)
    ensures FromLowerHex(LowerHex(bs)) == bs
  {
    if bs != [] {
      var b := bs[0] as int;
      Uuids.HexValueOfLowerHexChar(b / 16);
      Uuids.HexValueOfLowerHexChar(b % 16);
      FromLowerHexInverse(bs[1..]);
      assert LowerHex(bs)[2..] == LowerHex(bs[1..]);
    }
  }

  /** Different digests never have the same hex text. */
  lemma LowerHexInjective(a: seq<byte>, b: seq<byte>)
    requires LowerHex(a) == LowerHex(b)
    ensures a == b
  {
    FromLowerHexInverse(a);
    FromLowerHexInverse(b);
  }

  /** The first digest's input: the password, then the salt's hyphenated text. */
  function Md5Input(password: string, salt: Uuids.Uuid): string {
    password + Uuids.ToString(salt)
  }

  /** The second digest's input: the MD5 digest's hex, the password, the salt's text. */
  function Sha512Input(password: string, salt: Uuids.Uuid, md5: Digest): string {
    LowerHex(md5(Md5Input(password, salt))) + password + Uuids.ToString(salt)
  }

  /** `salt`: `Uuid::new_v4` with its random bits drawn by the caller. */
  function Salt(draw: Uuids.Uuid): (u: Uuids.Uuid)
    ensures IsVersion4(u)
    ensures forall i :: 0 <= i < 32 && i != 12 && i != 16 ==> u[i] == draw[i]
  {
    draw[12 := 4][16 := 8 + draw[16] % 4]
  }

  /** Version nibble 4 and the variant bits `10` (section 5.4 of RFC 9562). */
  predicate IsVersion4(u: Uuids.Uuid) {
    u[12] == 4 && 8 <= u[16] < 12
  }

  /** `encrypt_password`: the SHA-512 digest, as lower-case hex that reads back as that digest. */
  function EncryptPassword(password: string, salt: Uuids.Uuid, md5: Digest, sha512: Digest): (h: string)
    ensures |h| == 2 * |sha512(Sha512Input(password, salt, md5))|
    ensures forall i :: 0 <= i < |h| ==> IsHexDigit(h[i]) && !IsAsciiUpper(h[i])
    ensures FromLowerHex(h) == sha512(Sha512Input(password, salt, md5))
  {
    var digest := sha512(Sha512Input(password, salt, md5));
    FromLowerHexInverse(digest);
    LowerHex(digest)
  }

  /** `validate_password`: recompute and compare. */
  predicate ValidatePassword(password: string, salt: Uuids.Uuid, hash: string, md5: Digest, sha512: Digest) {
    EncryptPassword(password, salt, md5, sha512) == hash
  }

  ghost predicate Injective(f: Digest) {
    forall x, y :: f(x) == f(y) ==> x == y
  }

  ghost predicate ProducesBytes(f: Digest, n: nat) {
    forall x :: |f(x)| == n
  }

  /** With a 16-byte MD5, the SHA-512 input determines the password (the salt being fixed). */
  lemma {:induction false} Sha512InputDeterminesPassword(p: string, q: string, salt: Uuids.Uuid, md5: Digest)
    requires ProducesBytes(md5, 16)
    requires Sha512Input(p, salt, md5) == Sha512Input(q, salt, md5)
    ensures p == q
  {
    var x, y := Sha512Input(p, salt, md5), Sha512Input(q, salt, md5);
    var hp, hq := LowerHex(md5(Md5Input(p, salt))), LowerHex(md5(Md5Input(q, salt)));
    assert |hp| == 32 && |hq| == 32;
    var t := Uuids.ToString(salt);
    assert x == hp + (p + t) && y == hq + (q + t);
    assert x[32..] == p + t && y[32..] == q + t;
    assert p == (p + t)[..|p|] && q == (q + t)[..|q|];
  }

  /**
   * With a 16-byte MD5 and a collision-free SHA-512, a stored hash validates exactly the
   * password it was made from under the same salt.
   */
  lemma {:induction false} ValidatesOnlyItsPassword(p: string, q: string, salt: Uuids.Uuid, md5: Digest, sha512: Digest)
    requires ProducesBytes(md5, 16) && Injective(sha512)
    ensures ValidatePassword(q, salt, EncryptPassword(p, salt, md5, sha512), md5, sha512) <==> p == q
  {
    if ValidatePassword(q, salt, EncryptPassword(p, salt, md5, sha512), md5, sha512) {
      LowerHexInjective(sha512(Sha512Input(p, salt, md5)), sha512(Sha512Input(q, salt, md5)));
      Sha512InputDeterminesPassword(p, q, salt, md5);
    }
  }

  /** `parse_uuid`: panics on text `Uuid::parse_str` refuses, hence the precondition. */
  function ParseUuid(id: string): (u: Uuids.Uuid)
    requires Uuids.IsParseable(id)
    ensures Uuids.IsHyphenated(id) && (forall k :: 0 <= k < |id| ==> !IsAsciiUpper(id[k])) ==> Uuids.ToString(u) == id
  {
    if Uuids.IsHyphenated(id) && (forall k :: 0 <= k < |id| ==> !IsAsciiUpper(id[k])) then Uuids.ToStringParse(id); Uuids.Parse(id)
    else Uuids.Parse(id)
  }

  /** The salt's text round-trips through `parse_uuid`. */
  lemma ParseUuidOfSalt(salt: Uuids.Uuid)
    ensures Uuids.IsParseable(Uuids.ToString(salt)) && ParseUuid(Uuids.ToString(salt)) == salt
  {
    Uuids.ParseToString(salt);
  }
}
