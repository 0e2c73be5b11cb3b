# tlms-backend-2 core, modelled in Dafny

A model of the rules underneath a church-administration CRUD service (Rust, actix-web, sea-orm,
PostgreSQL). It covers:

- the field validators;
- the bearer-token gate: header parsing, token decoding through the JWT library, claim issuance and
  the middleware that forwards only verified requests;
- password derivation from MD5 and SHA-512;
- the partial-update macros;
- the organization and member table operations;
- the row constraints the two migrations declare;
- client-IP extraction.

Each source file has its own module:

| module | source |
|---|---|
| `Validator` | `src/libs/validator.rs` |
| `Jwt` | `src/libs/jwt.rs` |
| `AuthMiddleware` | `src/middlewares/auth.rs` |
| `Password` | `src/libs/pword.rs` |
| `PartialUpdate` | `src/utils/macros.rs` |
| `OrganizationDtos` | `src/app/organization/dto/dtos.rs` |
| `MemberDtos` | `src/app/members/dto/dtos.rs` |
| `SharedOps` | `src/utils/shared.rs` |
| `OrganizationSchema` | the organization migration |
| `MemberSchema` | the members migration |
| `ClientIp` | `src/libs/ip.rs` |

Supporting modules:

- `Wrappers`: `Option` and `Result`.
- `Text`: characters and header bytes.
- `AppError`: the `{message, code, status}` error.
- `Uuids`: the text forms of the `uuid` crate.
- `Dates`: chrono's `NaiveDate` in `%Y-%m-%d`.
- `Sql`: the sea-orm `ActiveValue` write rules, constraint violations and the SQL `LIKE` email check.
- `Store`: the database.

**The database.** `Store.Database` is a class whose two fields are the tables, as maps from id to row.
- Its `Valid()` invariant holds the constraints that never change over time: NOT NULL, the enumeration CHECKs, `date_of_birth >= 1900-01-01`, unique `contact`, and the foreign key from `members.organization_id`.
- The `CURRENT_DATE` checks are evaluated when a row is written, against a `today` parameter.
- INSERT writes every column that is not `NotSet` and fills in the schema defaults.
- UPDATE writes only the `Set` columns of the row with that key.
- A write is refused with the first violated constraint, in the order NOT NULL, CHECK, primary key, unique, foreign key.

**The dto operations.** These are methods that take the database, as the source's functions take the application state. Their `ensures` tie each result and the new tables to the outcome functions of the schema modules.

**Clock, randomness and configuration.** `Utc::now`, `CURRENT_DATE`, `gen_random_uuid()`, the random generator, configuration values and the secret key all become parameters.

**Libraries as oracles.** The JWT library's `encode`/`decode` and the MD5/SHA-512 digests are function parameters.

**Behaviours of the code a reader might not expect:**
- `required_str` does not trim, so a whitespace-only string passes.
- A duplicate in `save_member_from_org` is reported as `DbErr::Custom("Member already exists")`.
- `update_organization` looks its row up without a blocked filter.
- Neither toggle flips the flag; see Findings.

**`save_member` can never succeed.** It never writes `date_of_birth`, and its dto has no such field. The column is NOT NULL with no default, so every insert is refused (`MemberDtos.SaveMemberAlwaysRejected`). The corrected insert (`MemberDtos.SavedMemberWithBirth`) writes a birth date that the dto would have to carry; `SaveMember` itself models the code as written.

## Model

| member | source | states |
|---|---|---|
| AppError.ValidationFailure | src/libs/validator.rs:8 | a validation error carries code 1002, status 422 and the given message |
| Validator.NotNone | src/libs/validator.rs:5-12 | fails exactly when the option is `None`, with 1002/422 and "`name` cannot be empty" |
| Validator.RequiredStr | src/libs/validator.rs:14-23 | succeeds iff the string is non-empty, returning it unchanged; otherwise 1002/422 "`name` is required" |
| Validator.BlankIsNotRequiredFailure | src/libs/validator.rs:14-23 | a whitespace-only string passes: nothing is trimmed |
| Validator.IsEmailDecidesPattern | src/libs/validator.rs:29-31 | the executable check (split at the first '@' and the first '.' after it) accepts exactly the strings of the regex's language |
| Validator.Email | src/libs/validator.rs:25-36 | succeeds iff the input is in the regex's language, returning it unchanged; otherwise 1002/422 "`name` validation failed" |
| Validator.AcceptedEmailShape | src/libs/validator.rs:25-36 | an accepted address is non-empty, has exactly one '@', and has a '.' after it |
| Validator.Mobile | src/libs/validator.rs:38-49 | succeeds iff the input is exactly 10 characters from '0'..'9', returning it unchanged; otherwise the validation error |
| Validator.Uuid | src/libs/validator.rs:51-62 | succeeds iff the input, in either case, has the 8-4-4-4-12 hex layout; returns the original text, not the upper-cased one |
| Validator.RenderedUuidIsValid | src/libs/validator.rs:51-62 | every identifier's `to_string` form passes the uuid validator |
| Validator.ValidUuidIsParseable | src/libs/validator.rs:51-62 | a string the uuid validator accepts is one `Uuid::parse_str` accepts |
| Validator.Date | src/libs/validator.rs:64-79 | succeeds iff the input is `YYYY-MM-DD` naming a real calendar day; the day returned formats back to the input |
| Validator.RenderedDateIsValid | src/libs/validator.rs:64-79 | every valid date in years 0..9999, once formatted, is accepted and read back as itself |
| Dates.ParseFormat | src/libs/validator.rs:65-67 | parsing a formatted valid date gives the date back |
| Dates.FormatParse | src/libs/validator.rs:65-67 | a string that parses formats back to itself |
| Uuids.ParseToString | src/libs/pword.rs:7-9 | `parse_str` of an identifier's hyphenated text gives the identifier back |
| Uuids.ToStringParse | src/libs/pword.rs:7-9 | lower-case hyphenated text that parses is reproduced by `to_string` |
| Uuids.LowerHexChar | src/libs/pword.rs:12 | each nibble is written as a lower-case hex digit |
| Jwt.UsizeOf | src/libs/jwt.rs:45-46 | `i64 as usize` keeps non-negative values and wraps negative ones modulo 2^64 |
| Jwt.ValidationFor | src/libs/jwt.rs:68 | `Validation::new(HS512)` admits only HS512 and checks expiry |
| Jwt.Alphanumeric | src/libs/jwt.rs:27 | every draw of the `Alphanumeric` distribution is an ASCII letter or digit |
| Jwt.AlphanumericText | src/libs/jwt.rs:25-31 | the text is as long as the draws and all ASCII alphanumeric |
| Jwt.GenString | src/libs/jwt.rs:25-31 | returns the first `size` draws rendered as characters: exactly `size` ASCII alphanumerics |
| Jwt.IssuedClaims | src/libs/jwt.rs:40-50 | `id` is the user id and `jid` the rendered uuid; `iat` is the first clock reading and `exp` the second plus the lifetime, both as `usize`; `_id` is 32 ASCII alphanumerics |
| Jwt.CreateJwt | src/libs/jwt.rs:33-60 | the token is the library's HS512 encoding of those claims under the secret key |
| Jwt.ExpiryAfterIssue | src/libs/jwt.rs:40-46 | when the clock does not go backwards, `exp >= iat + expire` |
| Jwt.ParseToken | src/libs/jwt.rs:62-77 | decodes with HS512 only; every decode failure becomes 1001/401 "Authentication failure", and a success returns the decoded claims unchanged |
| Jwt.VerifyJwt | src/libs/jwt.rs:79-102 | a missing header, one of 6 bytes or fewer, or one not starting with the exact bytes "Bearer " gives the authentication failure; otherwise the result is `parse_token` of the text after the first 7 bytes |
| Jwt.LowercaseSchemeRejected | src/libs/jwt.rs:89-93 | the scheme match is case-sensitive: "bearer <token>" is refused |
| Jwt.IssuedTokenVerifies | src/libs/jwt.rs:52-69 | when the library's decode inverts its encode, an issued token sent as "Bearer <token>" verifies to its own claims |
| AuthMiddleware.JwtAuthMiddlewareInner.constructor | src/middlewares/auth.rs:25-29 | `new_transform` wraps the given inner service, and nothing has been forwarded yet |
| AuthMiddleware.JwtAuthMiddlewareInner.PollReady | src/middlewares/auth.rs:46-48 | readiness is the inner service's, unchanged |
| AuthMiddleware.JwtAuthMiddlewareInner.Call | src/middlewares/auth.rs:50-64 | on a verified token, the claims are attached to the request and the request is forwarded, and the inner response is returned; on any failure, Unauthorized, and nothing is forwarded |
| AuthMiddleware.ShortAndBasicHeadersRejected | src/libs/jwt.rs:85-93 | a header of 6 bytes or fewer and a "Basic " header are both refused with the authentication failure, whatever the decoder |
| Password.LowerHex | src/libs/pword.rs:16-20 | the `{:x}` rendering is two lower-case hex digits per byte |
| Password.FromLowerHexInverse | src/libs/pword.rs:20 | the lower-case hex rendering reads back as the digest bytes |
| Password.LowerHexInjective | src/libs/pword.rs:20 | different digests render to different hex strings |
| Password.Salt | src/libs/pword.rs:3-5 | a version-4 identifier (section 5.4 of RFC 9562) whose other nibbles are the random draw |
| Password.EncryptPassword | src/libs/pword.rs:11-21 | the lower-case hex of SHA-512 over (hex of MD5(password ++ salt text)) ++ password ++ salt text |
| Password.Sha512InputDeterminesPassword | src/libs/pword.rs:12-18 | with a 16-byte MD5 and a fixed salt, the SHA-512 input determines the password |
| Password.ValidatesOnlyItsPassword | src/libs/pword.rs:23-27 | with a collision-free SHA-512, `validate_password(q, salt, encrypt_password(p, salt))` holds iff `p == q` |
| Password.ParseUuid | src/libs/pword.rs:7-9 | defined only on text `parse_str` accepts; lower-case hyphenated text is read back to the identifier it names |
| Password.ParseUuidOfSalt | src/libs/pword.rs:7-9 | a salt's text round-trips through `parse_uuid` |
| PartialUpdate.Assign | src/utils/macros.rs:7-9 | `Some(v)` sets the field to `Set(wrap(v))`; `None` leaves it as it was |
| PartialUpdate.AssignNoWrap | src/utils/macros.rs:15-22 | the no-wrap form is the wrap form with the identity wrapper |
| PartialUpdate.AssignIdempotent | src/utils/macros.rs:7-9 | assigning the same source twice is assigning it once |
| PartialUpdate.UpdatedField | src/utils/macros.rs:4-11 | after the expansion, a listed field holds `Set(wrap(v))` from its last `Some` binding, or its old value when every binding of it was `None` |
| PartialUpdate.UnlistedFieldsUntouched | src/utils/macros.rs:4-11 | fields named in no binding are never touched |
| PartialUpdate.AllNoneIsIdentity | src/utils/macros.rs:6-10 | a dto whose fields are all `None` leaves the model unchanged |
| PartialUpdate.UpdatedIdempotent | src/utils/macros.rs:6-10 | applying the same dto twice gives the same model as applying it once |
| PartialUpdate.UpdatedSnoc | src/utils/macros.rs:6-10 | one more binding at the end of the call is one more guarded assignment after the others |
| PartialUpdate.UpdatedDistinct | src/utils/macros.rs:4-11 | when the call names distinct fields of the model, the model keeps its fields and each named field holds its own binding's assignment |
| PartialUpdate.Lift | src/utils/macros.rs:8 | viewing a column through a conversion keeps whether it is `Set`, `Unchanged` or `NotSet`, and converts its value |
| PartialUpdate.LiftAssign | src/utils/macros.rs:7-9 | a guarded assignment commutes with that conversion: converting after assigning is assigning the converted wrapper |
| PartialUpdate.ApplyUpdateWrap | src/utils/macros.rs:4-11 | the in-place loop of guarded assignments leaves the model equal to the specified update |
| PartialUpdate.ApplyUpdateNoWrap | src/utils/macros.rs:15-22 | likewise for the no-wrap macro |
| Sql.EmailCheckAfterValidation | migration/src/m20250214_144741_create_organization.rs:22-26 | for an address the validator accepts, the column's `LIKE '%_@_%.__%'` check holds iff at least two characters follow the dot |
| Sql.ValidatedEmailRejectedByCheck | migration/src/m20250214_144741_create_organization.rs:25 | "a@b.c" passes the email validator but the column check refuses it |
| OrganizationSchema.NewRow | migration/src/m20250214_144741_create_organization.rs:14-51 | an insert needs name, contact and address, in that order of NOT NULL errors, and an email that passes the LIKE check; the new row takes the written values, a fresh id, `is_blocked = false` and both timestamps `now` by default |
| OrganizationSchema.InsertOutcome | migration/src/m20250214_144741_create_organization.rs:14-32 | an insert succeeds iff the row is well formed, its id is new and its contact is not in use |
| OrganizationSchema.UpdateOutcome | migration/src/m20250214_144741_create_organization.rs:22-32 | an update of a missing key changes no row; otherwise it succeeds iff the patched row passes the checks and its contact is not another row's |
| OrganizationSchema.InsertKeepsTableValid | migration/src/m20250214_144741_create_organization.rs:27-32 | a successful insert keeps contacts unique and rows well formed |
| OrganizationSchema.UpdateKeepsTableValid | migration/src/m20250214_144741_create_organization.rs:27-32 | a successful update keeps contacts unique and rows well formed |
| MemberSchema.ParseDepartment | migration/src/m20250213_220702_create_members.rs:266-276 | inverts `DepartmentEnum::as_str`; a string no variant produces is refused |
| MemberSchema.ParseMemberType | migration/src/m20250213_220702_create_members.rs:256-264 | inverts `MemberTypeEnum::as_str` |
| MemberSchema.ParseAuxDepartment | migration/src/m20250213_220702_create_members.rs:224-234 | inverts `AuxDepartmentEnum::as_str` |
| MemberSchema.ParseSubDepartment | migration/src/m20250213_220702_create_members.rs:236-245 | inverts `SubDepartmentEnum::as_str` |
| MemberSchema.ParseGender | migration/src/m20250213_220702_create_members.rs:247-254 | inverts `GenderEnum::as_str`: exactly "male" and "female" |
| MemberSchema.EncodingsRoundTrip | migration/src/m20250213_220702_create_members.rs:224-276 | every variant's text parses back to the variant |
| MemberSchema.EncodingsInjective | migration/src/m20250213_220702_create_members.rs:224-276 | each `as_str` maps distinct variants to distinct strings |
| MemberSchema.DefaultsPassChecks | migration/src/m20250213_220702_create_members.rs:70-120 | "not_selected", the default of the four category columns, is an allowed value of each |
| MemberSchema.FailedCheck | migration/src/m20250213_220702_create_members.rs:34-120 | names a failing CHECK exactly when the row breaks one: email LIKE, gender, date of birth between 1900-01-01 and today, date joined up to today, the four categories |
| MemberSchema.NewRow | migration/src/m20250213_220702_create_members.rs:25-139 | the first missing NOT NULL column without a default is reported; otherwise a written row passes every CHECK, takes the written values and the defaults (fresh id, "not_selected" categories, not blocked, timestamps `now`) |
| MemberSchema.InsertOutcome | migration/src/m20250213_220702_create_members.rs:25-145 | an insert succeeds iff the row is well formed, its id is new, its contact unused and its organization exists |
| MemberSchema.UpdateOutcome | migration/src/m20250213_220702_create_members.rs:25-145 | an update of a missing key changes no row; otherwise it succeeds iff the patched row passes the checks, its contact is not another row's and its organization exists |
| MemberSchema.InsertKeepsTableValid | migration/src/m20250213_220702_create_members.rs:39-44 | a successful insert keeps contacts unique and rows well formed |
| MemberSchema.UpdateKeepsTableValid | migration/src/m20250213_220702_create_members.rs:39-44 | a successful update keeps contacts unique and rows well formed |
| Store.Rows | src/app/organization/dto/dtos.rs:38-39 | `find().all()`: one entry per row, and exactly the rows of the table |
| Store.Database.constructor | migration/src/m20250214_144741_create_organization.rs:10-13 | the schema starts with both tables empty and valid |
| Store.Database.OrganizationById | src/app/organization/dto/dtos.rs:101-103 | `find_by_id`: the row with that key, or none |
| Store.Database.MemberById | src/app/members/dto/dtos.rs:86-88 | `find_by_id` on members |
| Store.Database.FindOrganization | src/app/organization/dto/dtos.rs:66-73 | `find().filter(c).one()`: a row of the table meeting `c`, or none exactly when no row does |
| Store.Database.FindMember | src/utils/shared.rs:13-21 | the same on members |
| Store.Database.AllOrganizations | src/app/organization/dto/dtos.rs:38-39 | every organization row once |
| Store.Database.AllMembers | src/app/members/dto/dtos.rs:42-43 | every member row once |
| Store.Database.InsertOrganization | src/app/organization/dto/dtos.rs:24-30 | the table gains the new row exactly when the insert outcome is a success, and is otherwise unchanged; validity is kept |
| Store.Database.UpdateOrganization | src/app/organization/dto/dtos.rs:121-126 | the row is replaced by its patched form exactly when the update outcome is a success; validity is kept |
| Store.Database.InsertMember | src/app/members/dto/dtos.rs:28-34 | the member insert as its outcome decides, keeping validity and the foreign key |
| Store.Database.UpdateMember | src/app/members/dto/dtos.rs:145-150 | the member update as its outcome decides, keeping validity and the foreign key |
| OrganizationDtos.SavedOrganization | src/app/organization/dto/dtos.rs:16-22 | the insert succeeds iff the email passes the LIKE check, the id is fresh and the contact is free; the stored row has the dto's name and address, `Some(email)`, the phone as contact, not blocked, both timestamps `now` |
| OrganizationDtos.SaveOrganization | src/app/organization/dto/dtos.rs:12-33 | returns the new id and adds that row, or returns the rejection and changes nothing |
| OrganizationDtos.GetOrganizations | src/app/organization/dto/dtos.rs:35-47 | every row, blocked ones included |
| OrganizationDtos.GetOrganizationById | src/app/organization/dto/dtos.rs:49-60 | the row iff it exists and is not blocked; otherwise `RecordNotFound` |
| OrganizationDtos.GetOrganizationByEmail | src/app/organization/dto/dtos.rs:62-77 | a row with that email and not blocked iff one exists; otherwise `RecordNotFound` |
| OrganizationDtos.GetOrganizationByPhone | src/app/organization/dto/dtos.rs:79-94 | the (unique) row with that contact iff it is not blocked; otherwise `RecordNotFound` |
| OrganizationDtos.UpdateKeepsIdentity | src/app/organization/dto/dtos.rs:110-119 | the update keeps id, `is_blocked` and `created_at`, stamps `updated_at`, and with an all-`None` dto changes nothing else |
| OrganizationDtos.UpdateIdempotent | src/app/organization/dto/dtos.rs:112-119 | applying the same dto again, at a later time, gives the row the second update alone would give |
| OrganizationDtos.UpdateIsMacroInstance | src/app/organization/dto/dtos.rs:112-117 | the typed expansion of `apply_update_wrap!` (name, `email => Some`, phone as contact, address) is the generic macro's update over those four bindings, and leaves id, `is_blocked` and both timestamps as they were |
| OrganizationDtos.ColumnAgrees | src/app/organization/dto/dtos.rs:112-117 | each of the four named columns holds the same value after the typed expansion as after the generic macro |
| OrganizationDtos.AfterUpdateIsExpansion | src/app/organization/dto/dtos.rs:110-119 | the row the update stores is the macro expansion on the found row, with `updated_at = now` |
| OrganizationDtos.UpdateOrganization | src/app/organization/dto/dtos.rs:96-129 | "Organization not found" iff the id is absent (blocked rows are updated too); otherwise the row becomes the partial update of the dto's `Some` fields with `updated_at = now`, unless a constraint refuses it |
| OrganizationDtos.OwnContactFree | src/app/organization/dto/dtos.rs:141-148 | a row's own contact never counts as taken when that row is rewritten |
| OrganizationDtos.ToggleAsWrittenKeepsFlag | src/app/organization/dto/dtos.rs:141-148 | as written, the update leaves `is_blocked` as it was and only stamps `updated_at` |
| OrganizationDtos.ToggleFlippingFlips | src/app/organization/dto/dtos.rs:131-156 | the intended toggle flips `is_blocked`, stamps `updated_at`, changes nothing else, and toggling twice restores the flag |
| OrganizationDtos.ToggleBlock | src/app/organization/dto/dtos.rs:131-156 | the operation as written: "Organization not found" for an absent id, else the row with only `updated_at` changed |
| OrganizationDtos.ToggleBlockFlipping | src/app/organization/dto/dtos.rs:131-156 | the corrected operation: the row with `is_blocked` flipped and `updated_at` stamped |
| MemberDtos.SaveMemberAlwaysRejected | src/app/members/dto/dtos.rs:16-26 | the row built from the dto leaves `date_of_birth` unwritten, so the insert is refused with NOT NULL on `date_of_birth` |
| MemberDtos.SavedMemberWithBirth | src/app/members/dto/dtos.rs:16-26 | corrected, with a birth date written: the insert succeeds iff the row passes its checks, the key is new, the contact is free and the organization exists, and stores the dto's fields with the defaults |
| MemberDtos.SaveMember | src/app/members/dto/dtos.rs:12-37 | always returns that rejection, and the tables are unchanged |
| MemberDtos.GetAllMembers | src/app/members/dto/dtos.rs:39-51 | every member row, blocked ones included |
| MemberDtos.GetMemberById | src/app/members/dto/dtos.rs:53-63 | the row with that key whether blocked or not; the `unwrap` panics otherwise, hence the precondition |
| MemberDtos.GetMemberByPhone | src/app/members/dto/dtos.rs:65-80 | the unblocked row with that contact (there is at most one); the `unwrap` panics when there is none, hence the precondition |
| MemberDtos.OwnContactFree | src/app/members/dto/dtos.rs:95-103 | a row's own contact never counts as taken when that row is rewritten |
| MemberDtos.ToggleAsWrittenKeepsFlag | src/app/members/dto/dtos.rs:95-103 | as written, the update succeeds iff the row still passes today's checks, and then leaves `is_blocked` as it was and only stamps `updated_at` |
| MemberDtos.ToggleFlippingFlips | src/app/members/dto/dtos.rs:82-111 | the intended toggle flips `is_blocked` and stamps `updated_at`, and toggling twice restores the flag |
| MemberDtos.ToggleMemberBlocked | src/app/members/dto/dtos.rs:82-111 | the operation as written: "Member not found" for an absent id, blocked or not; otherwise only `updated_at` changes |
| MemberDtos.ToggleMemberBlockedFlipping | src/app/members/dto/dtos.rs:82-111 | the corrected operation: `is_blocked` flipped, `updated_at` stamped |
| MemberDtos.UpdateKeepsUnlistedColumns | src/app/members/dto/dtos.rs:128-143 | id, date of birth, date joined, organization, `is_blocked` and `created_at` are never changed; an all-`None` dto only stamps `updated_at` |
| MemberDtos.UpdateIdempotent | src/app/members/dto/dtos.rs:130-143 | applying the same dto again, at a later time, gives the row the second update alone would give |
| MemberDtos.UpdateIsMacroInstance | src/app/members/dto/dtos.rs:130-141 | the typed expansion of the ten-column `apply_update_wrap!` call is the generic macro's update over those bindings, and leaves every other column as it was |
| MemberDtos.ColumnAgrees | src/app/members/dto/dtos.rs:130-141 | each of the ten named columns holds the same value after the typed expansion as after the generic macro |
| MemberDtos.AfterUpdateIsExpansion | src/app/members/dto/dtos.rs:128-143 | the row the update stores is the macro expansion on the found row, with `updated_at = now` |
| MemberDtos.UpdateMember | src/app/members/dto/dtos.rs:113-153 | "Member not found" when the row is absent or blocked; otherwise the ten listed columns take the dto's `Some` values (email as `Some`, phone as contact, address as residential address) and `updated_at = now`, unless a constraint refuses the row |
| SharedOps.AsWrittenInsertRejected | src/utils/shared.rs:27-37 | the row as built never writes `date_of_birth`, so every insert is refused with NOT NULL on `date_of_birth` |
| SharedOps.CorrectedInsert | src/utils/shared.rs:27-37 | writing the supplied date of birth: with none the insert is still refused; with one, it succeeds iff the intended row passes the constraints, and the stored row is that row |
| SharedOps.HiddenDuplicateRejected | src/utils/shared.rs:13-25 | any member already holding the phone, including a blocked one or one of another organization that the duplicate query does not see, makes the corrected insert fail on the unique contact |
| SharedOps.SaveMemberFromOrg | src/utils/shared.rs:8-49 | "Member already exists" iff an unblocked member of this organization has this phone; otherwise the insert as written, which is always refused; the tables never change |
| SharedOps.SaveMemberFromOrgWithBirth | src/utils/shared.rs:8-49 | the corrected operation: the same duplicate check, then the insert of the intended row as the constraints decide |
| ClientIp.SplitOn | src/libs/ip.rs:19-20 | `split(":")` gives at least one part, no part contains ':', and joining them with ':' gives the input back |
| ClientIp.SplitJoin | src/libs/ip.rs:19-20 | splitting text joined from colon-free parts gives those parts back |
| ClientIp.FirstPartBeforeSeparator | src/libs/ip.rs:19-22 | the first part is the text before the first ':', or the whole text when there is none |
| ClientIp.GetIpInfo | src/libs/ip.rs:10-36 | behind a proxy, the address is the real-IP value up to its first ':', or "" when there is none; otherwise the peer IP's text, or ""; the user agent is the header when it is visible ASCII, else "" |

## Left out

- HTTP handlers, routing, start-up, configuration loading, the connection pool, file storage and the users/media migrations are not part of this model.
- The response building and error-page rewriting in `src/libs/error.rs` are not modelled; only the `{message, code, status}` error value is.
- A handler issue outside the core: `src/app/members/controllers/controller.rs:45` parses the `_id` claim as a uuid, but that claim is 32 random alphanumerics (`src/libs/jwt.rs:49`).
- Concurrency is not modelled. Each operation runs alone, so the race between the duplicate lookup and the insert does not arise; the unique constraint stays the invariant.
- Database failures that do not come from a constraint are not modelled. These are connection loss and every `.await?`.
- A refused write is reported as `DbErr::Rejected(violation)`, naming the violated constraint, instead of `DbErr::Custom` carrying PostgreSQL's error text.
- When a row breaks several constraints, the model fixes an order (NOT NULL, CHECK, primary key, unique, foreign key). PostgreSQL's own choice among them is not modelled.
- Cascade delete on `members.organization_id` is not modelled: no operation of the core deletes a row.
- Timestamps are integer seconds. `now` (for `Utc::now` and `CURRENT_TIMESTAMP`) and `today` (for `CURRENT_DATE`) are independent parameters, not readings of one clock.
- Store.Database.FindOrganization: `.one()` without `ORDER BY` returns some matching row. The model promises only that the row matches, not which one PostgreSQL picks.
- Store.Database.FindMember: likewise.
- Store.Rows: the order of `find().all()` is unspecified and is not modelled.
- OrganizationDtos.SaveOrganization: returns the new id instead of sea-orm's `InsertResult`, which holds only that id.
- MemberDtos.GetMemberById: the panic of `unwrap` on a missing row is a precondition.
- MemberDtos.GetMemberByPhone: likewise for a missing unblocked row.
- Validator.Uuid: takes ASCII input only. Unicode `to_uppercase` on other characters is not modelled.
- Validator.Date: accepts only the strict `YYYY-MM-DD` form (four-digit year, two-digit month and day). chrono's leniency about signs, padding and wider years is not modelled.
- Validator.Email: the regex engine is replaced by an equivalent explicit check, proved equal to the pattern's language.
- Jwt.CreateJwt: chrono's panics on a lifetime or timestamp out of range are preconditions. The `unwrap`s on configuration, the environment and `encode` are assumed to succeed.
- Jwt.ParseToken: signature, algorithm and expiry checking (with the library's 60-second leeway) belong to the `decode` parameter.
- Jwt.VerifyJwt: a header of 7 bytes or more that is not visible ASCII makes the `&v[..7]` slice panic. This case is a precondition.
- AuthMiddleware.JwtAuthMiddlewareInner.Call: the request extensions hold only the claims. The inner service is a function from request to response, and the async boxing is not modelled.
- Password.EncryptPassword: MD5 and SHA-512 are function parameters. `Password.ValidatesOnlyItsPassword` assumes SHA-512 has no collisions and MD5 gives 16 bytes.
- ClientIp.GetIpInfo: `network.behind_proxy` is a plain boolean parameter; a missing key panics in the source. The peer address is given already rendered as text.

## Findings

| source | as written | input that shows it | evidently intended | confidence | as-written member | corrected member |
|---|---|---|---|---|---|---|
| src/app/organization/dto/dtos.rs:143-145 | the active model comes from `Model::into()`, so every field is `Unchanged` and `if let ActiveValue::Set(..)` never matches; `is_blocked` is never flipped | any existing organization, blocked or not | `is_blocked := !is_blocked` | high, not executed | OrganizationDtos.ToggleAsWrittenKeepsFlag | OrganizationDtos.ToggleFlippingFlips |
| src/app/members/dto/dtos.rs:97-99 | the same pattern on members: the toggle only stamps `updated_at` | any existing member whose row passes today's checks | `is_blocked := !is_blocked` | high, not executed | MemberDtos.ToggleAsWrittenKeepsFlag | MemberDtos.ToggleFlippingFlips |
| src/utils/shared.rs:27-37 | the row is built without `date_of_birth`, which is NOT NULL with no default, so every insert is refused | any dto with no duplicate in the table, e.g. one with `date_of_birth = Some(2000-01-01)` | write `data.date_of_birth` into the row | high, not executed | SharedOps.AsWrittenInsertRejected | SharedOps.CorrectedInsert |
| src/app/members/dto/dtos.rs:16-26 | the row is built without `date_of_birth`, which is NOT NULL with no default, and `AddMemberDto` has no such field, so every insert is refused | any dto | the dto carries a date of birth and the row writes it | high, not executed | MemberDtos.SaveMemberAlwaysRejected | MemberDtos.SavedMemberWithBirth |
