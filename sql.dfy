/**
 * What the two tables share: timestamps, the `email LIKE '%_@_%.__%'` column check,
 * the constraint a write can violate, and sea-orm's `DbErr` as the operations return it.
 */
module Sql {
  import opened Wrappers
  import opened PartialUpdate
  import Validator

  /** A `timestamp with time zone`, in seconds since the Unix epoch. */
  type Timestamp = int

  /**
   * `s LIKE '%_@_%.__%'`: some character, an '@', some character, anything, a '.', at least two
   * more characters. `i` is where the '@' sits and `j` where the '.' sits.
   */
  predicate LikeEmail(s: string) {
    exists i, j | 1 <= i && i + 2 <= j && j + 3 <= |s| :: s[i] == '@' && s[j] == '.'
  }

  /** The constraint a rejected INSERT or UPDATE ran into. */
  datatype Violation =
    | NotNull(column: string)
    | Check(column: string)
    | PrimaryKey
    | Unique(column: string)
    | ForeignKey
    | NoRowUpdated

  /**
   * sea-orm's `DbErr` as these operations produce it. A database rejection, which the code turns
   * into `DbErr::Custom(err.to_string())`, keeps the violated constraint rather than the server's text.
   */
  datatype DbErr =
    | Custom(message: string)
    | RecordNotFound(message: string)
    | Rejected(violation: Violation)

  /** The value an INSERT writes for a column; `None` when the column is left out of the statement. */
  function Written<T>(v: ActiveValue<T>): (r: Option<T>)
    ensures r.None? <==> v.NotSet?
    ensures r.Some? ==> r.value == v.value
  {
    match v
    case Set(x) => Some(x)
    case Unchanged(x) => Some(x)
    case NotSet => None
  }

  /** The value an INSERT stores in a column that has a default: the written one, or the default. */
  function WrittenOr<T>(v: ActiveValue<T>, default: T): T {
    if v.NotSet? then default else v.value
  }

  /** The wrapper `=> Some` that the update macros put on a nullable text column. */
  function SomeText(s: string): Option<string> { Some(s) }

  /** The value of a text column an update macro names, plain or nullable, as one type. */
  datatype Cell = Text(text: string) | MaybeText(maybe: Option<string>)

  /** The value an UPDATE leaves in a column: only `Set` columns are written. */
  function AfterUpdate<T>(current: T, v: ActiveValue<T>): (r: T)
    ensures v.Set? ==> r == v.value
    ensures !v.Set? ==> r == current
  {
    if v.Set? then v.value else current
  }

  /**
   * On an address the email validator accepts, with its '@' at `at` and the domain's '.' at `dot`,
   * the column check passes exactly when at least two characters follow that '.'.
   */
  lemma {:induction false} EmailCheckAfterValidation(s: string, at: int, dot: int)
    requires Validator.EmailSplit(s, at, dot)
    ensures LikeEmail(s) <==> dot + 3 <= |s|
  {
    if LikeEmail(s) {
      var i, j :| 1 <= i && i + 2 <= j && j + 3 <= |s| && s[i] == '@' && s[j] == '.';
      forall k | 0 <= k < at ensures s[k] != '@' { assert s[k] == s[..at][k]; }
      forall k | at < k < dot ensures s[k] != '@' && s[k] != '.' { assert s[k] == s[at + 1..dot][k - at - 1]; }
      forall k | dot < k < |s| ensures s[k] != '@' { assert s[k] == s[dot + 1..][k - dot - 1]; }
      assert dot <= j;
    }
    if dot + 3 <= |s| {
      assert 1 <= at && at + 2 <= dot && s[at] == '@' && s[dot] == '.';
    }
  }

  /** The validator accepts "a@b.c"; the column check refuses it. */
  lemma ValidatedEmailRejectedByCheck()
    ensures Validator.Email("a@b.c", "email").Ok?
    ensures !LikeEmail("a@b.c")
  {
    var s := "a@b.c";
    assert Validator.EmailSplit(s, 1, 3);
    EmailCheckAfterValidation(s, 1, 3);
  }
}
