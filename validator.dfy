/**
 * Field validators (`libs/validator.rs`). Each takes a raw value and the field's display name and
 * returns the value unchanged, or a validation failure (code 1002, status 422) whose message
 * starts with that name.
 */
module Validator {
  import opened Wrappers
  import opened Text
  import opened AppError
  import Uuids
  import Dates

  /** `not_none`: fails exactly on a missing value. */
  function NotNone<T>(v: Option<T>, name: string): (r: Result<(), Error>)
    ensures r.Err? <==> v.None?
    ensures r.Err? ==> r.error == ValidationFailure(name + " cannot be empty")
  {
    if v.None? then Err(ValidationFailure(name + " cannot be empty")) else Ok(())
  }

  /** `required_str`: fails exactly on the empty string; nothing is trimmed, so blanks pass. */
  function RequiredStr(v: string, name: string): (r: Result<string, Error>)
    ensures r.Ok? <==> |v| > 0
    ensures r.Ok? ==> r.value == v
    ensures r.Err? ==> r.error == ValidationFailure(name + " is required")
  {
    if |v| == 0 then Err(ValidationFailure(name + " is required")) else Ok(v)
  }

  lemma BlankIsNotRequiredFailure(name: string)
    ensures RequiredStr("   ", name) == Ok("   ")
  {
  }

  // ----- email: ^[a-zA-Z0-9_.+-]+@[a-zA-Z0-9-]+\.[a-zA-Z0-9-.]+$

  predicate IsLocalChar(c: char) { IsAsciiAlphanumeric(c) || c == '_' || c == '.' || c == '+' || c == '-' }

  predicate IsDomainChar(c: char) { IsAsciiAlphanumeric(c) || c == '-' }

  predicate IsTldChar(c: char) { IsAsciiAlphanumeric(c) || c == '-' || c == '.' }

  predicate AllLocal(s: string) { forall i :: 0 <= i < |s| ==> IsLocalChar(s[i]) }

  predicate AllDomain(s: string) { forall i :: 0 <= i < |s| ==> IsDomainChar(s[i]) }

  predicate AllTld(s: string) { forall i :: 0 <= i < |s| ==> IsTldChar(s[i]) }

  /** `s` is local part, '@' at `at`, domain, '.' at `dot`, final part: one way the pattern can match. */
  predicate EmailSplit(s: string, at: int, dot: int) {
    0 < at && at + 1 < dot && dot + 1 < |s| && s[at] == '@' && s[dot] == '.' &&
    AllLocal(s[..at]) && AllDomain(s[at + 1..dot]) && AllTld(s[dot + 1..])
  }

  /** The language of the email regular expression. */
  ghost predicate MatchesEmailPattern(s: string) {
    exists at, dot :: EmailSplit(s, at, dot)
  }

  /** The first index of `c` in `s`. */
  function IndexOf(s: string, c: char): (r: Option<nat>)
    ensures r.Some? ==> r.value < |s| && s[r.value] == c && c !in s[..r.value]
    ensures r.None? ==> c !in s
  {
    if s == [] then None
    else if s[0] == c then Some(0)
    else
      var r := IndexOf(s[1..], c);
      if r.Some? then
        assert s[..r.value + 1] == [s[0]] + s[1..][..r.value];
        Some(r.value + 1)
      else None
  }

  /** Deciding the email pattern: neither the local part nor the domain admits '@', and the domain admits no '.',
      so the match can only split at the first '@' and at the first '.' after it. */
  predicate IsEmail(s: string) {
    match IndexOf(s, '@')
    case None => false
    case Some(at) =>
      match IndexOf(s[at + 1..], '.')
      case None => false
      case Some(k) => EmailSplit(s, at, at + 1 + k)
  }

  lemma {:induction false} IsEmailDecidesPattern(s: string)
    ensures IsEmail(s) <==> MatchesEmailPattern(s)
  {
    if MatchesEmailPattern(s) {
      var at, dot :| EmailSplit(s, at, dot);
      assert '@' !in s[..at] by {
        forall i | 0 <= i < at ensures s[..at][i] != '@' { assert IsLocalChar(s[..at][i]); }
      }
      var i := IndexOf(s, '@');
      assert i == Some(at);
      var t := s[at + 1..];
      assert '.' !in t[..dot - at - 1] by {
        forall m | 0 <= m < dot - at - 1 ensures t[m] != '.' { assert IsDomainChar(s[at + 1..dot][m]); }
      }
      assert t[dot - at - 1] == '.';
      assert IndexOf(t, '.') == Some(dot - at - 1);
    }
  }

  /** `email`: accepts exactly the strings the pattern matches and returns them unchanged. */
  function Email(v: string, name: string): (r: Result<string, Error>)
    ensures r.Ok? <==> MatchesEmailPattern(v)
    ensures r.Ok? ==> r.value == v
    ensures r.Err? ==> r.error == ValidationFailure(name + " validation failed")
  {
    IsEmailDecidesPattern(v);
    if IsEmail(v) then Ok(v) else Err(ValidationFailure(name + " validation failed"))
  }

  /** An accepted address is not empty, holds exactly one '@', and has a '.' after it. */
  lemma {:induction false} AcceptedEmailShape(v: string, name: string)
    requires Email(v, name).Ok?
    ensures v != ""
    ensures forall i, j :: 0 <= i < |v| && 0 <= j < |v| && v[i] == '@' && v[j] == '@' ==> i == j
    ensures exists at, dot :: 0 < at < dot < |v| && v[at] == '@' && v[dot] == '.'
  {
    var at, dot :| EmailSplit(v, at, dot);
    forall i | 0 <= i < at ensures v[i] != '@' { assert v[i] == v[..at][i]; }
    forall i | at < i < dot ensures v[i] != '@' { assert v[i] == v[at + 1..dot][i - at - 1]; }
    forall i | dot < i < |v| ensures v[i] != '@' { assert v[i] == v[dot + 1..][i - dot - 1]; }
  }

  // ----- mobile: ^[0-9]{10}$

  predicate IsMobileNumber(s: string) { |s| == 10 && forall i :: 0 <= i < |s| ==> IsDigit(s[i]) }

  /** `mobile`: exactly ten ASCII digits, returned unchanged. */
  function Mobile(v: string, name: string): (r: Result<string, Error>)
    ensures r.Ok? <==> |v| == 10 && forall i :: 0 <= i < |v| ==> '0' <= v[i] <= '9'
    ensures r.Ok? ==> r.value == v
    ensures r.Err? ==> r.error == ValidationFailure(name + " validation failed")
  {
    if IsMobileNumber(v) then Ok(v) else Err(ValidationFailure(name + " validation failed"))
  }

  // ----- uuid: the upper-cased input against ^[0-9A-F]{8}-[0-9A-F]{4}-[0-9A-F]{4}-[0-9A-F]{4}-[0-9A-F]{12}$

  predicate MatchesUpperUuidPattern(s: string) {
    |s| == 36 &&
    forall k :: 0 <= k < 36 ==> if Uuids.IsHyphenPos(k) then s[k] == '-' else IsUpperHexDigit(s[k])
  }

  /** `uuid`: the canonical 8-4-4-4-12 layout in either case; the original text, not the upper-cased one, is returned. */
  function Uuid(v: string, name: string): (r: Result<string, Error>)
    requires IsAscii(v)
    ensures r.Ok? <==> Uuids.IsHyphenated(v)
    ensures r.Ok? ==> r.value == v
    ensures r.Err? ==> r.error == ValidationFailure(name + " is invalid")
  {
    var u := AsciiUppercase(v);
    assert forall k :: 0 <= k < |v| ==> (IsUpperHexDigit(u[k]) <==> IsHexDigit(v[k])) && (u[k] == '-' <==> v[k] == '-');
    if MatchesUpperUuidPattern(u) then Ok(v) else Err(ValidationFailure(name + " is invalid"))
  }

  /** What `Uuid::to_string` writes passes the validator. */
  lemma RenderedUuidIsValid(u: Uuids.Uuid, name: string)
    ensures IsAscii(Uuids.ToString(u)) && Uuid(Uuids.ToString(u), name) == Ok(Uuids.ToString(u))
  {
    var s := Uuids.ToString(u);
    assert forall k :: 0 <= k < |s| ==> s[k] == '-' || IsHexDigit(s[k]);
  }

  /** A validated identifier never makes `Uuid::parse_str` fail. */
  lemma ValidUuidIsParseable(v: string, name: string)
    requires IsAscii(v) && Uuid(v, name).Ok?
    ensures Uuids.IsParseable(v)
  {
  }

  // ----- date: NaiveDate::parse_from_str(v, "%Y-%m-%d")

  /** `date`: succeeds only on a `YYYY-MM-DD` string naming a real calendar day, and returns that day. */
  function Date(v: string, name: string): (r: Result<Dates.Date, Error>)
    ensures r.Ok? <==> Dates.HasDateShape(v) && Dates.IsValid(Dates.FieldsOf(v))
    ensures r.Ok? ==> Dates.IsValid(r.value) && 0 <= r.value.year <= 9999 && Dates.Format(r.value) == v
    ensures r.Err? ==> r.error == ValidationFailure(name + " validation failed")
  {
    match Dates.Parse(v)
    case Some(d) => Dates.FormatParse(v); Ok(d)
    case None => Err(ValidationFailure(name + " validation failed"))
  }

  /** Every date the service renders with `to_string` is accepted and read back as itself. */
  lemma RenderedDateIsValid(d: Dates.Date, name: string)
    requires Dates.IsValid(d) && 0 <= d.year <= 9999
    ensures Date(Dates.Format(d), name) == Ok(d)
  {
    Dates.ParseFormat(d);
  }
}
