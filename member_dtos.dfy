/**
 * The member operations (`src/app/members/dto/dtos.rs`) on the database. The clock (`Utc::now()`),
 * the server's `CURRENT_DATE` and the key `gen_random_uuid()` would choose are parameters.
 */
module MemberDtos {
  import opened Wrappers
  import opened PartialUpdate
  import opened Sql
  import Uuids
  import Dates
  import opened MemberSchema
  import Store

  datatype AddMemberDto = AddMemberDto(
    first_name: string, last_name: string, email: Option<string>, phone: string,
    organization_id: Uuids.Uuid, address: string, gender: string, date_joined: Option<Day>)

  datatype UpdateMemberDto = UpdateMemberDto(
    first_name: Option<string>, last_name: Option<string>, email: Option<string>, phone: Option<string>,
    address: Option<string>, gender: Option<string>, department: Option<string>,
    aux_department: Option<string>, sub_department: Option<string>, member_type: Option<string>)

  const NotFound: string := "Member not found"

  // ----- save_member

  /** The active model `save_member` inserts; `date_of_birth` is not among the columns it gives. */
  function NewMember(dto: AddMemberDto): MemberActive {
    Blank.(first_name := Set(dto.first_name), last_name := Set(dto.last_name), email := Set(dto.email),
           contact := Set(dto.phone), residential_address := Set(dto.address), gender := Set(dto.gender),
           organization_id := Set(dto.organization_id), date_joined := Set(dto.date_joined))
  }

  /** Whatever the dto holds, the insert leaves out the NOT NULL `date_of_birth` and is refused. */
  lemma SaveMemberAlwaysRejected(t: Table, organizations: set<Uuids.Uuid>, dto: AddMemberDto, freshId: Uuids.Uuid,
                                 now: Timestamp, today: Dates.Date)
    ensures InsertOutcome(t, organizations, NewMember(dto), freshId, now, today) == Err(NotNull("date_of_birth"))
  {
  }

  /** The corrected active model: `date_of_birth` written too, from a date the dto would have to carry. */
  function NewMemberWithBirth(dto: AddMemberDto, dateOfBirth: Day): MemberActive {
    NewMember(dto).(date_of_birth := Set(dateOfBirth))
  }

  /** The row the corrected insert stores: the dto's fields, the birth date and the schema's defaults. */
  function IntendedMember(dto: AddMemberDto, dateOfBirth: Day, freshId: Uuids.Uuid, now: Timestamp): Member {
    Member.Member(freshId, dto.first_name, dto.last_name, dto.email, dto.phone, dto.gender, dateOfBirth,
                  dto.address, dto.date_joined, NotSelectedText, NotSelectedText, NotSelectedText, None, None,
                  NotSelectedText, false, dto.organization_id, now, now)
  }

  /**
   * Corrected, the insert is accepted exactly when the row passes its checks, the drawn key is new,
   * nobody holds the contact yet and the organization exists, and it then stores the intended row.
   */
  lemma SavedMemberWithBirth(t: Table, organizations: set<Uuids.Uuid>, dto: AddMemberDto, dateOfBirth: Day,
                             freshId: Uuids.Uuid, now: Timestamp, today: Dates.Date)
    ensures var row := IntendedMember(dto, dateOfBirth, freshId, now);
            var r := InsertOutcome(t, organizations, NewMemberWithBirth(dto, dateOfBirth), freshId, now, today);
            (r.Ok? <==> ChecksAt(row, today) && freshId !in t && !ContactTaken(t, dto.phone, None) &&
                        dto.organization_id in organizations) &&
            (r.Ok? ==> r.value == row)
  {
  }

  /** `save_member`: refused by the database every time, leaving both tables as they were. */
  method SaveMember(db: Store.Database, dto: AddMemberDto, freshId: Uuids.Uuid, now: Timestamp, today: Dates.Date)
    returns (r: Result<Uuids.Uuid, DbErr>)
    requires db.Valid()
    modifies db
    ensures db.Valid()
    ensures r == Err(Rejected(NotNull("date_of_birth")))
    ensures db.members == old(db.members) && db.organizations == old(db.organizations)
  {
    var member := NewMember(dto);
    SaveMemberAlwaysRejected(db.members, db.organizations.Keys, dto, freshId, now, today);
    var insertion := db.InsertMember(member, freshId, now, today);
    match insertion
    case Ok(id) => r := Ok(id);
    case Err(v) => r := Err(Rejected(v));
  }

  // ----- lookups

  /** `get_all_members`: every row, blocked ones included. */
  method GetAllMembers(db: Store.Database) returns (rows: seq<Member>)
    ensures |rows| == |db.members|
    ensures forall m :: m in rows <==> m in db.members.Values
  {
    rows := db.AllMembers();
  }

  /** `get_member_by_id`: the row with this key, blocked or not; the `unwrap` panics when there is none. */
  method GetMemberById(db: Store.Database, id: Uuids.Uuid) returns (m: Member)
    requires id in db.members
    ensures m == db.members[id]
  {
    var found := db.MemberById(id);
    m := found.value;
  }

  /** `get_member_by_phone`: the row holding this contact, which must exist and be unblocked (else the `unwrap` panics). */
  method GetMemberByPhone(db: Store.Database, phone: string) returns (m: Member)
    requires db.Valid()
    requires exists id | id in db.members :: db.members[id].contact == phone && !db.members[id].is_blocked
    ensures m.contact == phone && !m.is_blocked && m.id in db.members && db.members[m.id] == m
    ensures forall id | id in db.members && db.members[id].contact == phone :: m == db.members[id]
  {
    var found := db.FindMember((x: Member) => x.contact == phone && !x.is_blocked);
    m := found.value;
  }

  // ----- toggle_member_blocked

  /** Rewriting a stored row with its own contact never collides with another row. */
  lemma OwnContactFree(t: Table, id: Uuids.Uuid)
    requires TableValid(t) && id in t
    ensures !ContactTaken(t, t[id].contact, Some(id))
  {
  }

  /**
   * The active model `toggle_member_blocked` writes, as the code stands: the row read back through
   * `into()` holds `Unchanged` in every column, so the `if let ActiveValue::Set(..)` never fires and
   * only `updated_at` is written.
   */
  function ToggleAsWritten(m: Member, now: Timestamp): MemberActive {
    var model := FromModel(m);
    var model' := match model.is_blocked
      case Set(b) => model.(is_blocked := Set(!b))
      case _ => model;
    model'.(updated_at := Set(now))
  }

  /** The active model that flips the flag: `Set(!exists.is_blocked)`. */
  function ToggleFlipping(m: Member, now: Timestamp): MemberActive {
    FromModel(m).(is_blocked := Set(!m.is_blocked), updated_at := Set(now))
  }

  /** As written, the update succeeds whenever the row still passes its checks, and leaves `is_blocked` as it was. */
  lemma ToggleAsWrittenKeepsFlag(t: Table, organizations: set<Uuids.Uuid>, id: Uuids.Uuid, now: Timestamp, today: Dates.Date)
    requires TableValid(t) && id in t && t[id].organization_id in organizations
    ensures UpdateOutcome(t, organizations, ToggleAsWritten(t[id], now), today).Ok? <==> ChecksAt(t[id], today)
    ensures UpdateOutcome(t, organizations, ToggleAsWritten(t[id], now), today).Ok? ==>
            UpdateOutcome(t, organizations, ToggleAsWritten(t[id], now), today).value == t[id].(updated_at := now)
  {
    OwnContactFree(t, id);
  }

  /** Corrected, the flag flips and only `updated_at` also moves; toggling twice restores the flag. */
  lemma ToggleFlippingFlips(t: Table, organizations: set<Uuids.Uuid>, id: Uuids.Uuid, now: Timestamp, later: Timestamp,
                            today: Dates.Date)
    requires TableValid(t) && id in t && t[id].organization_id in organizations
    ensures UpdateOutcome(t, organizations, ToggleFlipping(t[id], now), today).Ok? <==> ChecksAt(t[id], today)
    ensures ChecksAt(t[id], today) ==>
            UpdateOutcome(t, organizations, ToggleFlipping(t[id], now), today).value ==
            t[id].(is_blocked := !t[id].is_blocked, updated_at := now)
    ensures ChecksAt(t[id], today) ==>
            var t' := t[id := UpdateOutcome(t, organizations, ToggleFlipping(t[id], now), today).value];
            UpdateOutcome(t', organizations, ToggleFlipping(t'[id], later), today) == Ok(t[id].(updated_at := later))
  {
    OwnContactFree(t, id);
    if ChecksAt(t[id], today) {
      UpdateKeepsTableValid(t, organizations, ToggleFlipping(t[id], now), today);
      var t' := t[id := t[id].(is_blocked := !t[id].is_blocked, updated_at := now)];
      OwnContactFree(t', id);
    }
  }

  /** `toggle_member_blocked` as the code stands: the flag stays, only `updated_at` moves. */
  method ToggleMemberBlocked(db: Store.Database, id: Uuids.Uuid, now: Timestamp, today: Dates.Date) returns (r: Result<(), DbErr>)
    requires db.Valid()
    modifies db
    ensures db.Valid() && db.organizations == old(db.organizations)
    ensures id !in old(db.members) ==> r == Err(Custom(NotFound)) && db.members == old(db.members)
    ensures id in old(db.members) ==>
      (r.Ok? <==> ChecksAt(old(db.members)[id], today)) &&
      (r.Ok? ==> db.members == old(db.members)[id := old(db.members)[id].(updated_at := now)]) &&
      (r.Err? ==> r.error.Rejected? && db.members == old(db.members))
  {
    var found := db.MemberById(id);
    if found.None? {
      return Err(Custom(NotFound));
    }
    var model := FromModel(found.value);
    match model.is_blocked {
      case Set(isBlocked) => model := model.(is_blocked := Set(!isBlocked));
      case _ =>
    }
    model := model.(updated_at := Set(now));
    ToggleAsWrittenKeepsFlag(db.members, db.organizations.Keys, id, now, today);
    assert model == ToggleAsWritten(found.value, now);
    var updated := db.UpdateMember(model, today);
    match updated
    case Ok(_) => r := Ok(());
    case Err(v) => r := Err(Rejected(v));
  }

  /** `toggle_member_blocked` corrected: the flag flips and `updated_at` moves; nothing else changes. */
  method ToggleMemberBlockedFlipping(db: Store.Database, id: Uuids.Uuid, now: Timestamp, today: Dates.Date)
    returns (r: Result<(), DbErr>)
    requires db.Valid()
    modifies db
    ensures db.Valid() && db.organizations == old(db.organizations)
    ensures id !in old(db.members) ==> r == Err(Custom(NotFound)) && db.members == old(db.members)
    ensures id in old(db.members) ==>
      var m := old(db.members)[id];
      (r.Ok? <==> ChecksAt(m, today)) &&
      (r.Ok? ==> db.members == old(db.members)[id := m.(is_blocked := !m.is_blocked, updated_at := now)]) &&
      (r.Err? ==> r.error.Rejected? && db.members == old(db.members))
  {
    var found := db.MemberById(id);
    if found.None? {
      return Err(Custom(NotFound));
    }
    var model := FromModel(found.value);
    model := model.(is_blocked := Set(!found.value.is_blocked));
    model := model.(updated_at := Set(now));
    ToggleFlippingFlips(db.members, db.organizations.Keys, id, now, now, today);
    var updated := db.UpdateMember(model, today);
    match updated
    case Ok(_) => r := Ok(());
    case Err(v) => r := Err(Rejected(v));
  }

  // ----- update_member

  /** The row `update_member` means to leave: each given field replaces its column, the clock stamps `updated_at`. */
  function MemberAfterUpdate(m: Member, dto: UpdateMemberDto, now: Timestamp): Member {
    m.(first_name := if dto.first_name.Some? then dto.first_name.value else m.first_name,
       last_name := if dto.last_name.Some? then dto.last_name.value else m.last_name,
       email := if dto.email.Some? then Some(dto.email.value) else m.email,
       contact := if dto.phone.Some? then dto.phone.value else m.contact,
       residential_address := if dto.address.Some? then dto.address.value else m.residential_address,
       gender := if dto.gender.Some? then dto.gender.value else m.gender,
       department := if dto.department.Some? then dto.department.value else m.department,
       aux_department := if dto.aux_department.Some? then dto.aux_department.value else m.aux_department,
       sub_department := if dto.sub_department.Some? then dto.sub_department.value else m.sub_department,
       member_type := if dto.member_type.Some? then dto.member_type.value else m.member_type,
       updated_at := now)
  }

  /** The columns `update_member` never names keep their values; an empty dto changes only `updated_at`. */
  lemma UpdateKeepsUnlistedColumns(m: Member, dto: UpdateMemberDto, now: Timestamp)
    ensures var u := MemberAfterUpdate(m, dto, now);
            u.id == m.id && u.date_of_birth == m.date_of_birth && u.date_joined == m.date_joined &&
            u.organization_id == m.organization_id && u.is_blocked == m.is_blocked &&
            u.added_by == m.added_by && u.alias == m.alias && u.created_at == m.created_at && u.updated_at == now
    ensures dto == UpdateMemberDto(None, None, None, None, None, None, None, None, None, None) ==>
            MemberAfterUpdate(m, dto, now) == m.(updated_at := now)
  {
  }

  /** Applying the same dto again, at any later time, gives the row applying it once gives then. */
  lemma UpdateIdempotent(m: Member, dto: UpdateMemberDto, now: Timestamp, later: Timestamp)
    ensures MemberAfterUpdate(MemberAfterUpdate(m, dto, now), dto, later) == MemberAfterUpdate(m, dto, later)
  {
  }

  // ----- the macro call of update_member as an instance of the generic macro

  /** The columns the `apply_update_wrap!` call names. */
  datatype Column =
    | FirstNameColumn | LastNameColumn | EmailColumn | ContactColumn | ResidentialAddressColumn
    | GenderColumn | DepartmentColumn | AuxDepartmentColumn | SubDepartmentColumn | MemberTypeColumn

  /** Those columns of an active model, as the generic macro's map. */
  function Columns(a: MemberActive): map<Column, ActiveValue<Cell>> {
    map[FirstNameColumn := Lift(a.first_name, (s: string) => Text(s)),
        LastNameColumn := Lift(a.last_name, (s: string) => Text(s)),
        EmailColumn := Lift(a.email, (e: Option<string>) => MaybeText(e)),
        ContactColumn := Lift(a.contact, (s: string) => Text(s)),
        ResidentialAddressColumn := Lift(a.residential_address, (s: string) => Text(s)),
        GenderColumn := Lift(a.gender, (s: string) => Text(s)),
        DepartmentColumn := Lift(a.department, (s: string) => Text(s)),
        AuxDepartmentColumn := Lift(a.aux_department, (s: string) => Text(s)),
        SubDepartmentColumn := Lift(a.sub_department, (s: string) => Text(s)),
        MemberTypeColumn := Lift(a.member_type, (s: string) => Text(s))]
  }

  /** The argument list of the call, `email: email => Some`, `contact: phone` and `residential_address: address` among it. */
  function UpdateBindings(dto: UpdateMemberDto): seq<Binding<Column, string, Cell>> {
    [Binding(FirstNameColumn, dto.first_name, (s: string) => Text(s)),
     Binding(LastNameColumn, dto.last_name, (s: string) => Text(s)),
     Binding(EmailColumn, dto.email, (s: string) => MaybeText(SomeText(s))),
     Binding(ContactColumn, dto.phone, (s: string) => Text(s)),
     Binding(ResidentialAddressColumn, dto.address, (s: string) => Text(s)),
     Binding(GenderColumn, dto.gender, (s: string) => Text(s)),
     Binding(DepartmentColumn, dto.department, (s: string) => Text(s)),
     Binding(AuxDepartmentColumn, dto.aux_department, (s: string) => Text(s)),
     Binding(SubDepartmentColumn, dto.sub_department, (s: string) => Text(s)),
     Binding(MemberTypeColumn, dto.member_type, (s: string) => Text(s))]
  }

  /** The ten guarded assignments the macro call expands to, on the typed active model. */
  function ExpandUpdate(a: MemberActive, dto: UpdateMemberDto): MemberActive {
    a.(first_name := Assign(a.first_name, dto.first_name, Identity),
       last_name := Assign(a.last_name, dto.last_name, Identity),
       email := Assign(a.email, dto.email, SomeText),
       contact := Assign(a.contact, dto.phone, Identity),
       residential_address := Assign(a.residential_address, dto.address, Identity),
       gender := Assign(a.gender, dto.gender, Identity),
       department := Assign(a.department, dto.department, Identity),
       aux_department := Assign(a.aux_department, dto.aux_department, Identity),
       sub_department := Assign(a.sub_department, dto.sub_department, Identity),
       member_type := Assign(a.member_type, dto.member_type, Identity))
  }

  /**
   * The expansion is the generic macro over those bindings on the named columns, and leaves
   * every other column as it was.
   */
  lemma UpdateIsMacroInstance(a: MemberActive, dto: UpdateMemberDto)
    ensures Columns(ExpandUpdate(a, dto)) == Updated(Columns(a), UpdateBindings(dto))
    ensures var e := ExpandUpdate(a, dto);
            e.id == a.id && e.date_of_birth == a.date_of_birth && e.date_joined == a.date_joined &&
            e.added_by == a.added_by && e.alias == a.alias && e.is_blocked == a.is_blocked &&
            e.organization_id == a.organization_id && e.created_at == a.created_at && e.updated_at == a.updated_at
  {
    var c, u := Columns(ExpandUpdate(a, dto)), Updated(Columns(a), UpdateBindings(dto));
    forall col: Column
      ensures col in c && col in u && c[col] == u[col]
    {
      ColumnAgrees(a, dto, col);
    }
    assert c.Keys == u.Keys;
  }

  /** One named column: the typed assignment and the generic one agree. */
  lemma ColumnAgrees(a: MemberActive, dto: UpdateMemberDto, col: Column)
    ensures var c, u := Columns(ExpandUpdate(a, dto)), Updated(Columns(a), UpdateBindings(dto));
            col in c && col in u && c[col] == u[col]
  {
    if col.FirstNameColumn? || col.LastNameColumn? || col.EmailColumn? || col.ContactColumn? || col.ResidentialAddressColumn? {
      PersonalColumnAgrees(a, dto, col);
    } else {
      CategoryColumnAgrees(a, dto, col);
    }
  }

  /** The name, email, contact and address columns. */
  lemma PersonalColumnAgrees(a: MemberActive, dto: UpdateMemberDto, col: Column)
    requires col == FirstNameColumn || col == LastNameColumn || col == EmailColumn || col == ContactColumn || col == ResidentialAddressColumn
    ensures var c, u := Columns(ExpandUpdate(a, dto)), Updated(Columns(a), UpdateBindings(dto));
            col in c && col in u && c[col] == u[col]
  {
    var bs := UpdateBindings(dto);
    match col
    case FirstNameColumn => UpdatedAt(Columns(a), bs, 0);
    case LastNameColumn => UpdatedAt(Columns(a), bs, 1);
    case EmailColumn => UpdatedAt(Columns(a), bs, 2);
    case ContactColumn => UpdatedAt(Columns(a), bs, 3);
    case ResidentialAddressColumn => UpdatedAt(Columns(a), bs, 4);
  }

  /** The gender and the four category columns. */
  lemma CategoryColumnAgrees(a: MemberActive, dto: UpdateMemberDto, col: Column)
    requires col == GenderColumn || col == DepartmentColumn || col == AuxDepartmentColumn || col == SubDepartmentColumn || col == MemberTypeColumn
    ensures var c, u := Columns(ExpandUpdate(a, dto)), Updated(Columns(a), UpdateBindings(dto));
            col in c && col in u && c[col] == u[col]
  {
    var bs := UpdateBindings(dto);
    match col
    case GenderColumn => UpdatedAt(Columns(a), bs, 5);
    case DepartmentColumn => UpdatedAt(Columns(a), bs, 6);
    case AuxDepartmentColumn => UpdatedAt(Columns(a), bs, 7);
    case SubDepartmentColumn => UpdatedAt(Columns(a), bs, 8);
    case MemberTypeColumn => UpdatedAt(Columns(a), bs, 9);
  }

  /** The row the update operation writes is the expansion's patch: the macro decides every named column. */
  lemma AfterUpdateIsExpansion(m: Member, dto: UpdateMemberDto, now: Timestamp)
    ensures Patched(m, ExpandUpdate(FromModel(m), dto).(updated_at := Set(now))) == MemberAfterUpdate(m, dto, now)
  {
  }

  /** `update_member`: only an unblocked row is found; the partial update is then checked like any UPDATE. */
  method UpdateMember(db: Store.Database, id: Uuids.Uuid, dto: UpdateMemberDto, now: Timestamp, today: Dates.Date)
    returns (r: Result<MemberActive, DbErr>)
    requires db.Valid()
    modifies db
    ensures db.Valid() && db.organizations == old(db.organizations)
    ensures id !in old(db.members) || old(db.members)[id].is_blocked ==>
      r == Err(Custom(NotFound)) && db.members == old(db.members)
    ensures id in old(db.members) && !old(db.members)[id].is_blocked ==>
      var u := MemberAfterUpdate(old(db.members)[id], dto, now);
      (r.Ok? <==> ChecksAt(u, today) && !ContactTaken(old(db.members), u.contact, Some(id))) &&
      (r.Ok? ==> r.value == FromModel(u) && db.members == old(db.members)[id := u]) &&
      (r.Err? ==> r.error.Rejected? && db.members == old(db.members))
  {
    var found := db.FindMember((x: Member) => x.id == id && !x.is_blocked);
    if found.None? {
      return Err(Custom(NotFound));
    }
    var model := FromModel(found.value);
    model := model.(first_name := Assign(model.first_name, dto.first_name, Identity));
    model := model.(last_name := Assign(model.last_name, dto.last_name, Identity));
    model := model.(email := Assign(model.email, dto.email, SomeText));
    model := model.(contact := Assign(model.contact, dto.phone, Identity));
    model := model.(residential_address := Assign(model.residential_address, dto.address, Identity));
    model := model.(gender := Assign(model.gender, dto.gender, Identity));
    model := model.(department := Assign(model.department, dto.department, Identity));
    model := model.(aux_department := Assign(model.aux_department, dto.aux_department, Identity));
    model := model.(sub_department := Assign(model.sub_department, dto.sub_department, Identity));
    model := model.(member_type := Assign(model.member_type, dto.member_type, Identity));
    model := model.(updated_at := Set(now));
    assert model == ExpandUpdate(FromModel(found.value), dto).(updated_at := Set(now));
    AfterUpdateIsExpansion(found.value, dto, now);
    var updated := db.UpdateMember(model, today);
    match updated
    case Ok(row) => r := Ok(FromModel(row));
    case Err(v) => r := Err(Rejected(v));
  }
}
