/**
 * Token issuance and bearer-token verification (`libs/jwt.rs`). Tokens are JSON Web Tokens
 * (RFC 7519) signed with HMAC SHA-512, "HS512" of section 3.2 of RFC 7518. Signing, signature
 * checking and the expiry check belong to the `jsonwebtoken` library and are passed in as the
 * `encode` and `decode` functions; the clock, the random number generator, the configured
 * lifetime and the secret key are parameters.
 */
module Jwt {
  import opened Wrappers
  import opened Text
  import opened AppError
  import Uuids

  /** `usize` on a 64-bit target. */
  const UsizeModulus: int := 0x1_0000_0000_0000_0000
  type Usize = n: int | 0 <= n < UsizeModulus

  /** `i64 as usize`: two's-complement reinterpretation, so a negative timestamp wraps. */
  function UsizeOf(t: int): (u: Usize)
    ensures 0 <= t < UsizeModulus ==> u == t
    ensures -UsizeModulus <= t < 0 ==> u == t + UsizeModulus
  {
    t % UsizeModulus
  }

  /** The claims of a token; `secondaryId` is the `_id` claim. */
  datatype Claims = Claims(iat: Usize, exp: Usize, jid: string, id: string, secondaryId: string)

  datatype Token = Token(token: string)

  datatype Algorithm = HS256 | HS384 | HS512 | RS256 | RS384 | RS512 | ES256 | ES384 | PS256 | PS384 | PS512 | EdDSA

  datatype Header = Header(alg: Algorithm)

  /** What `decode` accepts: the algorithms, the leeway in seconds on `exp`, and whether `exp` is checked. */
  datatype Validation = Validation(algorithms: seq<Algorithm>, leeway: nat, validateExp: bool)

  /** `Validation::new(alg)`: only `alg`, 60 seconds of leeway, expiry checked. */
  function ValidationFor(alg: Algorithm): (v: Validation)
    ensures v.algorithms == [alg] && v.validateExp
  {
    Validation([alg], 60, true)
  }

  datatype DecodeError = InvalidToken | InvalidSignature | InvalidAlgorithm | ExpiredSignature | InvalidKeyFormat | Malformed

  /** `jsonwebtoken::encode(header, claims, EncodingKey::from_secret(key))`. */
  type Encoder = (Header, Claims, string) -> string

  /** `jsonwebtoken::decode(token, DecodingKey::from_secret(key), validation)`, given the library's clock reading. */
  type Decoder = (string, string, Validation, int) -> Result<Claims, DecodeError>

  // ----- issuance

  /** One draw of the random generator through the `Alphanumeric` distribution: an index into its alphabet. */
  type AlphanumericDraw = n: int | 0 <= n < 62

  /** `Alphanumeric`'s alphabet "A".."Z", "a".."z", "0".."9", by index. */
  function Alphanumeric(n: AlphanumericDraw): (c: char)
    ensures IsAsciiAlphanumeric(c)
  {
    if n < 26 then (65 + n) as char else if n < 52 then (97 + n - 26) as char else (48 + n - 52) as char
  }

  function AlphanumericText(draws: seq<AlphanumericDraw>): (s: string)
    ensures |s| == |draws|
    ensures forall i :: 0 <= i < |s| ==> IsAsciiAlphanumeric(s[i])
  {
    seq(|draws|, i requires 0 <= i < |draws| => Alphanumeric(draws[i]))
  }

  /** `gen_string`: takes `size` draws from the generator, one character each. */
  method GenString(size: nat, draws: seq<AlphanumericDraw>) returns (s: string)
    requires size <= |draws|
    ensures s == AlphanumericText(draws[..size])
    ensures |s| == size && forall i :: 0 <= i < size ==> IsAsciiAlphanumeric(s[i])
  {
    s := "";
    var i := 0;
    while i < size
      invariant 0 <= i <= size
      invariant s == AlphanumericText(draws[..i])
    {
      s := s + [Alphanumeric(draws[i])];
      i := i + 1;
    }
  }

  /** Bounds of `TimeDelta::seconds` and of `DateTime<Utc>` (years -262144 to 262143), as Unix seconds. */
  const MaxDeltaSeconds: int := 9_223_372_036_854_775
  const MinUtcTimestamp: int := -8_334_632_937_600
  const MaxUtcTimestamp: int := 8_210_298_412_799

  /** The claims `create_jwt` builds from its two clock readings, the fresh `jid` and 32 random draws. */
  function IssuedClaims(userId: string, accessExpire: int, created: int, secondReading: int,
                        jid: Uuids.Uuid, draws: seq<AlphanumericDraw>): (c: Claims)
    requires |draws| >= 32
    ensures c.id == userId && c.jid == Uuids.ToString(jid)
    ensures c.iat == UsizeOf(created) && c.exp == UsizeOf(secondReading + accessExpire)
    ensures |c.secondaryId| == 32 && forall i :: 0 <= i < 32 ==> IsAsciiAlphanumeric(c.secondaryId[i])
  {
    Claims(UsizeOf(created), UsizeOf(secondReading + accessExpire), Uuids.ToString(jid), userId, AlphanumericText(draws[..32]))
  }

  /** `create_jwt`: `created` and `secondReading` are the two `Utc::now()` readings, in Unix seconds. */
  method CreateJwt(userId: string, accessExpire: int, secretKey: string, created: int, secondReading: int,
                   jid: Uuids.Uuid, draws: seq<AlphanumericDraw>, encode: Encoder) returns (t: Token)
    requires -MaxDeltaSeconds <= accessExpire <= MaxDeltaSeconds
    requires MinUtcTimestamp <= secondReading + accessExpire <= MaxUtcTimestamp
    requires |draws| >= 32
    ensures t == Token(encode(Header(HS512), IssuedClaims(userId, accessExpire, created, secondReading, jid, draws), secretKey))
  {
    var expiry := secondReading + accessExpire;
    var secondary := GenString(32, draws);
    var claim := Claims(UsizeOf(created), UsizeOf(expiry), Uuids.ToString(jid), userId, secondary);
    t := Token(encode(Header(HS512), claim, secretKey));
  }

  /** When the clock does not run backwards and stays after 1970, a token expires no sooner than `accessExpire` seconds after it was issued. */
  lemma ExpiryAfterIssue(userId: string, accessExpire: int, created: int, secondReading: int,
                         jid: Uuids.Uuid, draws: seq<AlphanumericDraw>)
    requires |draws| >= 32
    requires 0 <= created <= secondReading && 0 <= secondReading + accessExpire <= MaxUtcTimestamp
    ensures var c := IssuedClaims(userId, accessExpire, created, secondReading, jid, draws);
      c.exp >= c.iat + accessExpire
  {
  }

  // ----- verification

  /** `parse_token`: decodes with HS512 as the only accepted algorithm; every failure becomes the same authentication error. */
  function ParseToken(token: string, secretKey: string, decode: Decoder, now: int): (r: Result<Claims, Error>)
    ensures r.Ok? <==> decode(token, secretKey, ValidationFor(HS512), now).Ok?
    ensures r.Ok? ==> r.value == decode(token, secretKey, ValidationFor(HS512), now).value
    ensures r.Err? ==> r.error == AuthenticationFailure
  {
    match decode(token, secretKey, ValidationFor(HS512), now)
    case Ok(claims) => Ok(claims)
    case Err(_) => Err(AuthenticationFailure)
  }

  const BearerPrefix: string := "Bearer "

  /** A header value of seven bytes or more that is not visible ASCII reads as "" and slicing it panics. */
  predicate HeaderReadable(authorization: Option<seq<byte>>) {
    authorization.Some? && |authorization.value| > 6 ==> IsVisibleAscii(authorization.value)
  }

  /** The header carries the exact, case-sensitive "Bearer " prefix. */
  predicate HasBearerPrefix(v: seq<byte>) {
    |v| > 6 && IsVisibleAscii(v) && AsciiText(v)[..7] == BearerPrefix
  }

  /** `verify_jwt`: the Authorization header, then its "Bearer " prefix, then `parse_token` on the rest. */
  function VerifyJwt(authorization: Option<seq<byte>>, secretKey: string, decode: Decoder, now: int): (r: Result<Claims, Error>)
    requires HeaderReadable(authorization)
    ensures authorization.None? ==> r == Err(AuthenticationFailure)
    ensures authorization.Some? && !HasBearerPrefix(authorization.value) ==> r == Err(AuthenticationFailure)
    ensures authorization.Some? && HasBearerPrefix(authorization.value) ==>
      r == ParseToken(AsciiText(authorization.value)[7..], secretKey, decode, now)
    ensures r.Ok? <==>
      (authorization.Some? && HasBearerPrefix(authorization.value) &&
       decode(AsciiText(authorization.value)[7..], secretKey, ValidationFor(HS512), now).Ok?)
  {
    match authorization
    case None => Err(AuthenticationFailure)
    case Some(v) =>
      if |v| <= 6 then Err(AuthenticationFailure)
      else
        var text := HeaderText(v);
        if text[..7] != BearerPrefix then Err(AuthenticationFailure)
        else ParseToken(text[7..], secretKey, decode, now)
  }

  /** Seven or fewer bytes, or a prefix in another case, never reach the decoder. */
  lemma LowercaseSchemeRejected(token: string, secretKey: string, decode: Decoder, now: int)
    requires IsAscii(token)
    ensures var h := Some(AsciiBytes("bearer " + token));
      IsVisibleAscii(h.value) ==> VerifyJwt(h, secretKey, decode, now) == Err(AuthenticationFailure)
  {
    var s := "bearer " + token;
    var v := AsciiBytes(s);
    if IsVisibleAscii(v) {
      assert AsciiText(v)[0] == 'b';
      assert AsciiText(v)[..7] != BearerPrefix by { assert BearerPrefix[0] == 'B'; }
    }
  }

  // ----- issuance and verification together

  predicate IsVisibleText(s: string) { forall i :: 0 <= i < |s| ==> s[i] == '\t' || ' ' <= s[i] <= '~' }

  /** What the library promises: an HMAC token is compact visible text, and decoding it with its own key and
      algorithm gives back its claims until `exp` plus the leeway has passed. */
  ghost predicate JwtLibraryRoundTrips(encode: Encoder, decode: Decoder) {
    (forall h: Header, c: Claims, key: string :: IsVisibleText(encode(h, c, key))) &&
    (forall h: Header, c: Claims, key: string, now: int ::
      decode(encode(h, c, key), key, ValidationFor(h.alg), now) ==
        (if now <= c.exp + ValidationFor(h.alg).leeway then Ok(c) else Err(ExpiredSignature)))
  }

  /** A token `create_jwt` issued, presented as "Bearer <token>", verifies to exactly its claims until it expires,
      and is refused with the generic error afterwards. */
  lemma {:induction false} IssuedTokenVerifies(encode: Encoder, decode: Decoder, c: Claims, secretKey: string, now: int)
    requires JwtLibraryRoundTrips(encode, decode)
    ensures var token := encode(Header(HS512), c, secretKey);
      var header := BearerPrefix + token;
      IsAscii(header) && HeaderReadable(Some(AsciiBytes(header))) &&
      VerifyJwt(Some(AsciiBytes(header)), secretKey, decode, now) ==
        (if now <= c.exp + 60 then Ok(c) else Err(AuthenticationFailure))
  {
    var token := encode(Header(HS512), c, secretKey);
    var header := BearerPrefix + token;
    assert IsVisibleText(token);
    assert forall i :: 0 <= i < |header| ==> header[i] == '\t' || ' ' <= header[i] <= '~' by {
      forall i | 0 <= i < |header| ensures header[i] == '\t' || ' ' <= header[i] <= '~' {
        if i >= 7 { assert header[i] == token[i - 7]; }
      }
    }
    var v := AsciiBytes(header);
    assert IsVisibleAscii(v);
    assert AsciiText(v) == header;
    assert header[..7] == BearerPrefix && header[7..] == token;
    assert decode(token, secretKey, ValidationFor(HS512), now) ==
      (if now <= c.exp + 60 then Ok(c) else Err(ExpiredSignature));
  }
}
