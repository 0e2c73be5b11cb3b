/**
 * The `members` table (`migration/src/m20250213_220702_create_members.rs`): the five closed
 * enumerations and their text, the row, sea-orm's active model of it, the defaults an INSERT
 * fills in, and the constraints that decide whether an INSERT or an UPDATE is accepted.
 */
module MemberSchema {
  import opened Wrappers
  import opened PartialUpdate
  import opened Sql
  import Uuids
  import Dates

  // ----- the enumerations and their `as_str`

  datatype Department = Men | Women | Youth | Children | NotSelected
  datatype MemberType = Member | Pastor | NotSelected
  datatype AuxDepartment = Pathfinders | YoungSingles | RoyalRangers | Missionettes | NotSelected
  datatype SubDepartment = Music | Ushers | Organizers | NotSelected
  datatype Gender = Male | Female

  function DepartmentStr(d: Department): string {
    match d
    case Men => "men"
    case Women => "women"
    case Youth => "youth"
    case Children => "children"
    case NotSelected => "not_selected"
  }

  function MemberTypeStr(m: MemberType): string {
    match m
    case Member => "member"
    case Pastor => "pastor"
    case NotSelected => "not_selected"
  }

  function AuxDepartmentStr(d: AuxDepartment): string {
    match d
    case Pathfinders => "pathfinders"
    case YoungSingles => "young_singles"
    case RoyalRangers => "royal_rangers"
    case Missionettes => "missionettes"
    case NotSelected => "not_selected"
  }

  function SubDepartmentStr(d: SubDepartment): string {
    match d
    case Music => "music"
    case Ushers => "ushers"
    case Organizers => "organizers"
    case NotSelected => "not_selected"
  }

  function GenderStr(g: Gender): string {
    match g
    case Male => "male"
    case Female => "female"
  }

  /** The variant a column value spells, if any: the `IN (...)` check of `department`. */
  function ParseDepartment(s: string): (r: Option<Department>)
    ensures r.Some? ==> DepartmentStr(r.value) == s
    ensures r.None? ==> forall d :: DepartmentStr(d) != s
  {
    if s == "men" then Some(Men) else if s == "women" then Some(Women)
    else if s == "youth" then Some(Youth) else if s == "children" then Some(Children)
    else if s == "not_selected" then Some(Department.NotSelected) else None
  }

  function ParseMemberType(s: string): (r: Option<MemberType>)
    ensures r.Some? ==> MemberTypeStr(r.value) == s
    ensures r.None? ==> forall m :: MemberTypeStr(m) != s
  {
    if s == "member" then Some(MemberType.Member) else if s == "pastor" then Some(Pastor)
    else if s == "not_selected" then Some(MemberType.NotSelected) else None
  }

  function ParseAuxDepartment(s: string): (r: Option<AuxDepartment>)
    ensures r.Some? ==> AuxDepartmentStr(r.value) == s
    ensures r.None? ==> forall d :: AuxDepartmentStr(d) != s
  {
    if s == "pathfinders" then Some(Pathfinders) else if s == "young_singles" then Some(YoungSingles)
    else if s == "royal_rangers" then Some(RoyalRangers) else if s == "missionettes" then Some(Missionettes)
    else if s == "not_selected" then Some(AuxDepartment.NotSelected) else None
  }

  function ParseSubDepartment(s: string): (r: Option<SubDepartment>)
    ensures r.Some? ==> SubDepartmentStr(r.value) == s
    ensures r.None? ==> forall d :: SubDepartmentStr(d) != s
  {
    if s == "music" then Some(Music) else if s == "ushers" then Some(Ushers)
    else if s == "organizers" then Some(Organizers)
    else if s == "not_selected" then Some(SubDepartment.NotSelected) else None
  }

  function ParseGender(s: string): (r: Option<Gender>)
    ensures r.Some? ==> GenderStr(r.value) == s
    ensures r.None? ==> forall g :: GenderStr(g) != s
  {
    if s == "male" then Some(Male) else if s == "female" then Some(Female) else None
  }

  /** Each `as_str` is read back by its parser, so no two variants share a spelling. */
  lemma {:induction false} EncodingsRoundTrip(d: Department, m: MemberType, x: AuxDepartment, u: SubDepartment, g: Gender)
    ensures ParseDepartment(DepartmentStr(d)) == Some(d)
    ensures ParseMemberType(MemberTypeStr(m)) == Some(m)
    ensures ParseAuxDepartment(AuxDepartmentStr(x)) == Some(x)
    ensures ParseSubDepartment(SubDepartmentStr(u)) == Some(u)
    ensures ParseGender(GenderStr(g)) == Some(g)
  {
    match d
    case Men => assert DepartmentStr(d) == "men" != "women";
    case Women =>
    case Youth => assert DepartmentStr(d) == "youth" != "men";
    case Children => assert DepartmentStr(d) == "children" != "men";
    case NotSelected => assert DepartmentStr(d) == "not_selected" != "men";
  }

  lemma EncodingsInjective(d1: Department, d2: Department, m1: MemberType, m2: MemberType,
                           x1: AuxDepartment, x2: AuxDepartment, u1: SubDepartment, u2: SubDepartment, g1: Gender, g2: Gender)
    ensures DepartmentStr(d1) == DepartmentStr(d2) ==> d1 == d2
    ensures MemberTypeStr(m1) == MemberTypeStr(m2) ==> m1 == m2
    ensures AuxDepartmentStr(x1) == AuxDepartmentStr(x2) ==> x1 == x2
    ensures SubDepartmentStr(u1) == SubDepartmentStr(u2) ==> u1 == u2
    ensures GenderStr(g1) == GenderStr(g2) ==> g1 == g2
  {
    EncodingsRoundTrip(d1, m1, x1, u1, g1);
    EncodingsRoundTrip(d2, m2, x2, u2, g2);
  }

  /** The default of the four selectable columns is itself one of their allowed values. */
  const NotSelectedText: string := "not_selected"

  // ----- the row

  /** A `date` column: a day that exists on the calendar. */
  type Day = d: Dates.Date | Dates.IsValid(d) witness Dates.Date(2000, 1, 1)

  /** A row of `members`. */
  datatype Member = Member(
    id: Uuids.Uuid,
    first_name: string,
    last_name: string,
    email: Option<string>,
    contact: string,
    gender: string,
    date_of_birth: Day,
    residential_address: string,
    date_joined: Option<Day>,
    department: string,
    aux_department: string,
    sub_department: string,
    added_by: Option<Uuids.Uuid>,
    alias: Option<string>,
    member_type: string,
    is_blocked: bool,
    organization_id: Uuids.Uuid,
    created_at: Timestamp,
    updated_at: Timestamp)

  /** `members::ActiveModel`: one `ActiveValue` per column. */
  datatype MemberActive = MemberActive(
    id: ActiveValue<Uuids.Uuid>,
    first_name: ActiveValue<string>,
    last_name: ActiveValue<string>,
    email: ActiveValue<Option<string>>,
    contact: ActiveValue<string>,
    gender: ActiveValue<string>,
    date_of_birth: ActiveValue<Day>,
    residential_address: ActiveValue<string>,
    date_joined: ActiveValue<Option<Day>>,
    department: ActiveValue<string>,
    aux_department: ActiveValue<string>,
    sub_department: ActiveValue<string>,
    added_by: ActiveValue<Option<Uuids.Uuid>>,
    alias: ActiveValue<Option<string>>,
    member_type: ActiveValue<string>,
    is_blocked: ActiveValue<bool>,
    organization_id: ActiveValue<Uuids.Uuid>,
    created_at: ActiveValue<Timestamp>,
    updated_at: ActiveValue<Timestamp>)

  /** `ActiveModel { .., ..Default::default() }` before any column is given. */
  const Blank: MemberActive :=
    MemberActive(NotSet, NotSet, NotSet, NotSet, NotSet, NotSet, NotSet, NotSet, NotSet, NotSet,
                 NotSet, NotSet, NotSet, NotSet, NotSet, NotSet, NotSet, NotSet, NotSet)

  /** `Model::into()`: every column read back, none to be written. */
  function FromModel(m: Member): MemberActive {
    MemberActive(Unchanged(m.id), Unchanged(m.first_name), Unchanged(m.last_name), Unchanged(m.email),
                 Unchanged(m.contact), Unchanged(m.gender), Unchanged(m.date_of_birth), Unchanged(m.residential_address),
                 Unchanged(m.date_joined), Unchanged(m.department), Unchanged(m.aux_department), Unchanged(m.sub_department),
                 Unchanged(m.added_by), Unchanged(m.alias), Unchanged(m.member_type), Unchanged(m.is_blocked),
                 Unchanged(m.organization_id), Unchanged(m.created_at), Unchanged(m.updated_at))
  }

  // ----- the column checks

  /** The CHECKs that do not read the clock: the email pattern, the five value lists, the earliest birth date. */
  predicate StaticChecks(m: Member) {
    (m.email.Some? ==> LikeEmail(m.email.value)) &&
    ParseGender(m.gender).Some? &&
    Dates.Le(Dates.Earliest, m.date_of_birth) &&
    ParseDepartment(m.department).Some? &&
    ParseAuxDepartment(m.aux_department).Some? &&
    ParseSubDepartment(m.sub_department).Some? &&
    ParseMemberType(m.member_type).Some?
  }

  /** Every CHECK, `CURRENT_DATE` being `today`. */
  predicate ChecksAt(m: Member, today: Dates.Date) {
    StaticChecks(m) &&
    Dates.Le(m.date_of_birth, today) &&
    (m.date_joined.Some? ==> Dates.Le(m.date_joined.value, today))
  }

  /** The first column, in table order, whose CHECK fails. */
  function FailedCheck(m: Member, today: Dates.Date): (r: Option<string>)
    ensures r.None? <==> ChecksAt(m, today)
  {
    if m.email.Some? && !LikeEmail(m.email.value) then Some("email")
    else if ParseGender(m.gender).None? then Some("gender")
    else if !Dates.Le(m.date_of_birth, today) || !Dates.Le(Dates.Earliest, m.date_of_birth) then Some("date_of_birth")
    else if m.date_joined.Some? && !Dates.Le(m.date_joined.value, today) then Some("date_joined")
    else if ParseDepartment(m.department).None? then Some("department")
    else if ParseAuxDepartment(m.aux_department).None? then Some("aux_department")
    else if ParseSubDepartment(m.sub_department).None? then Some("sub_department")
    else if ParseMemberType(m.member_type).None? then Some("member_type")
    else None
  }

  /** The first NOT NULL column without a default that the active model leaves out. */
  function MissingColumn(a: MemberActive): Option<string> {
    if a.first_name.NotSet? then Some("first_name")
    else if a.last_name.NotSet? then Some("last_name")
    else if a.contact.NotSet? then Some("contact")
    else if a.gender.NotSet? then Some("gender")
    else if a.date_of_birth.NotSet? then Some("date_of_birth")
    else if a.residential_address.NotSet? then Some("residential_address")
    else if a.organization_id.NotSet? then Some("organization_id")
    else None
  }

  /**
   * The row an INSERT of `a` builds, or the first constraint it breaks. The seven NOT NULL columns
   * without a default must be given; `id` defaults to `gen_random_uuid()` (here `freshId`), the four
   * selectable columns to "not_selected", `is_blocked` to false, both timestamps to the statement's
   * clock, and the nullable columns to NULL. Then the CHECKs run, `today` being `CURRENT_DATE`.
   */
  function NewRow(a: MemberActive, freshId: Uuids.Uuid, now: Timestamp, today: Dates.Date): (r: Result<Member, Violation>)
    ensures MissingColumn(a).Some? ==> r == Err(NotNull(MissingColumn(a).value))
    ensures r.Ok? ==> MissingColumn(a).None? && ChecksAt(r.value, today)
    ensures r.Ok? ==> r.value.id == WrittenOr(a.id, freshId)
    ensures r.Ok? ==> r.value.first_name == a.first_name.value && r.value.last_name == a.last_name.value &&
                      r.value.contact == a.contact.value && r.value.gender == a.gender.value &&
                      r.value.date_of_birth == a.date_of_birth.value &&
                      r.value.residential_address == a.residential_address.value &&
                      r.value.organization_id == a.organization_id.value
    ensures r.Ok? ==> r.value.email == WrittenOr(a.email, None) && r.value.date_joined == WrittenOr(a.date_joined, None) &&
                      r.value.added_by == WrittenOr(a.added_by, None) && r.value.alias == WrittenOr(a.alias, None)
    ensures r.Ok? ==> r.value.department == WrittenOr(a.department, NotSelectedText) &&
                      r.value.aux_department == WrittenOr(a.aux_department, NotSelectedText) &&
                      r.value.sub_department == WrittenOr(a.sub_department, NotSelectedText) &&
                      r.value.member_type == WrittenOr(a.member_type, NotSelectedText)
    ensures r.Ok? ==> r.value.is_blocked == WrittenOr(a.is_blocked, false) &&
                      r.value.created_at == WrittenOr(a.created_at, now) && r.value.updated_at == WrittenOr(a.updated_at, now)
  {
    match MissingColumn(a)
    case Some(column) => Err(NotNull(column))
    case None =>
      var row := Member.Member(
        WrittenOr(a.id, freshId), a.first_name.value, a.last_name.value, WrittenOr(a.email, None),
        a.contact.value, a.gender.value, a.date_of_birth.value, a.residential_address.value,
        WrittenOr(a.date_joined, None), WrittenOr(a.department, NotSelectedText),
        WrittenOr(a.aux_department, NotSelectedText), WrittenOr(a.sub_department, NotSelectedText),
        WrittenOr(a.added_by, None), WrittenOr(a.alias, None), WrittenOr(a.member_type, NotSelectedText),
        WrittenOr(a.is_blocked, false), a.organization_id.value, WrittenOr(a.created_at, now), WrittenOr(a.updated_at, now));
      match FailedCheck(row, today)
      case Some(column) => Err(Check(column))
      case None => Ok(row)
  }

  // ----- the table

  type Table = map<Uuids.Uuid, Member>

  /** Some row other than the one keyed `except` already has this contact. */
  predicate ContactTaken(t: Table, contact: string, except: Option<Uuids.Uuid>) {
    exists id | id in t :: Some(id) != except && t[id].contact == contact
  }

  /** What the table's constraints guarantee of its rows whatever the date: keys, clock-free CHECKs, unique `contact`. */
  ghost predicate TableValid(t: Table) {
    (forall id | id in t :: t[id].id == id && StaticChecks(t[id])) &&
    (forall i, j | i in t && j in t && i != j :: t[i].contact != t[j].contact)
  }

  /** An INSERT: the row, then the primary key, the unique `contact`, and the foreign key into `organizations`. */
  function InsertOutcome(t: Table, organizations: set<Uuids.Uuid>, a: MemberActive, freshId: Uuids.Uuid,
                         now: Timestamp, today: Dates.Date): (r: Result<Member, Violation>)
    ensures NewRow(a, freshId, now, today).Err? ==> r == NewRow(a, freshId, now, today)
    ensures r.Ok? <==> NewRow(a, freshId, now, today).Ok? && NewRow(a, freshId, now, today).value.id !in t &&
                       !ContactTaken(t, NewRow(a, freshId, now, today).value.contact, None) &&
                       NewRow(a, freshId, now, today).value.organization_id in organizations
    ensures r.Ok? ==> r == NewRow(a, freshId, now, today)
  {
    match NewRow(a, freshId, now, today)
    case Err(v) => Err(v)
    case Ok(row) =>
      if row.id in t then Err(PrimaryKey)
      else if ContactTaken(t, row.contact, None) then Err(Unique("contact"))
      else if row.organization_id !in organizations then Err(ForeignKey)
      else Ok(row)
  }

  /** The row after an UPDATE that writes the `Set` columns of `a`; the key stays. */
  function Patched(m: Member, a: MemberActive): Member {
    Member.Member(m.id, AfterUpdate(m.first_name, a.first_name), AfterUpdate(m.last_name, a.last_name),
           AfterUpdate(m.email, a.email), AfterUpdate(m.contact, a.contact), AfterUpdate(m.gender, a.gender),
           AfterUpdate(m.date_of_birth, a.date_of_birth), AfterUpdate(m.residential_address, a.residential_address),
           AfterUpdate(m.date_joined, a.date_joined), AfterUpdate(m.department, a.department),
           AfterUpdate(m.aux_department, a.aux_department), AfterUpdate(m.sub_department, a.sub_department),
           AfterUpdate(m.added_by, a.added_by), AfterUpdate(m.alias, a.alias), AfterUpdate(m.member_type, a.member_type),
           AfterUpdate(m.is_blocked, a.is_blocked), AfterUpdate(m.organization_id, a.organization_id),
           AfterUpdate(m.created_at, a.created_at), AfterUpdate(m.updated_at, a.updated_at))
  }

  /** An UPDATE of the row keyed by `a.id`: no such row, or the patched row against every constraint. */
  function UpdateOutcome(t: Table, organizations: set<Uuids.Uuid>, a: MemberActive, today: Dates.Date): (r: Result<Member, Violation>)
    requires !a.id.NotSet?
    ensures a.id.value !in t ==> r == Err(NoRowUpdated)
    ensures r.Ok? <==> a.id.value in t && ChecksAt(Patched(t[a.id.value], a), today) &&
                       !ContactTaken(t, Patched(t[a.id.value], a).contact, Some(a.id.value)) &&
                       Patched(t[a.id.value], a).organization_id in organizations
    ensures r.Ok? ==> r.value == Patched(t[a.id.value], a)
  {
    if a.id.value !in t then Err(NoRowUpdated)
    else
      var row := Patched(t[a.id.value], a);
      match FailedCheck(row, today)
      case Some(column) => Err(Check(column))
      case None =>
        if ContactTaken(t, row.contact, Some(a.id.value)) then Err(Unique("contact"))
        else if row.organization_id !in organizations then Err(ForeignKey)
        else Ok(row)
  }

  /** An accepted INSERT keeps the table's guarantees. */
  lemma InsertKeepsTableValid(t: Table, organizations: set<Uuids.Uuid>, a: MemberActive, freshId: Uuids.Uuid,
                              now: Timestamp, today: Dates.Date)
    requires TableValid(t)
    requires InsertOutcome(t, organizations, a, freshId, now, today).Ok?
    ensures var row := InsertOutcome(t, organizations, a, freshId, now, today).value;
            row.id !in t && row.organization_id in organizations && TableValid(t[row.id := row])
  {
    var row := InsertOutcome(t, organizations, a, freshId, now, today).value;
    var t' := t[row.id := row];
    forall i, j | i in t' && j in t' && i != j
      ensures t'[i].contact != t'[j].contact
    {
      if i == row.id {
        assert t'[j] == t[j];
      } else if j == row.id {
        assert t'[i] == t[i];
      }
    }
  }

  /** An accepted UPDATE keeps the table's guarantees, and keeps the row's key. */
  lemma UpdateKeepsTableValid(t: Table, organizations: set<Uuids.Uuid>, a: MemberActive, today: Dates.Date)
    requires TableValid(t)
    requires !a.id.NotSet? && UpdateOutcome(t, organizations, a, today).Ok?
    ensures var row := UpdateOutcome(t, organizations, a, today).value;
            row.id == a.id.value && row.organization_id in organizations && TableValid(t[row.id := row])
  {
    var row := UpdateOutcome(t, organizations, a, today).value;
    var t' := t[row.id := row];
    forall i, j | i in t' && j in t' && i != j
      ensures t'[i].contact != t'[j].contact
    {
      if i == row.id {
        assert t'[j] == t[j];
      } else if j == row.id {
        assert t'[i] == t[i];
      }
    }
  }

  /** "not_selected" is both the default and an allowed value of the four selectable columns. */
  lemma DefaultsPassChecks()
    ensures ParseDepartment(NotSelectedText) == Some(Department.NotSelected)
    ensures ParseAuxDepartment(NotSelectedText) == Some(AuxDepartment.NotSelected)
    ensures ParseSubDepartment(NotSelectedText) == Some(SubDepartment.NotSelected)
    ensures ParseMemberType(NotSelectedText) == Some(MemberType.NotSelected)
  {
  }
}
