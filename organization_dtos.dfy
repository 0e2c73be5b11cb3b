/**
 * The organization operations (`src/app/organization/dto/dtos.rs`) on the database. The clock
 * (`Utc::now()`) and the key `gen_random_uuid()` would choose are parameters.
 */
module OrganizationDtos {
  import opened Wrappers
  import opened PartialUpdate
  import opened Sql
  import Uuids
  import opened OrganizationSchema
  import Store

  datatype AddOrganizationDto = AddOrganizationDto(name: string, email: string, phone: string, address: string)

  datatype UpdateOrganizationDto = UpdateOrganizationDto(
    name: Option<string>, email: Option<string>, phone: Option<string>, address: Option<string>)

  const NotFoundOrBlocked: string := "Organization not found or is blocked"
  const NotFound: string := "Organization not found"

  // ----- save_organization

  /** The active model `save_organization` inserts: four columns given, the rest left to their defaults. */
  function NewOrganization(dto: AddOrganizationDto): OrganizationActive {
    Blank.(name := Set(dto.name), email := Set(Some(dto.email)), contact := Set(dto.phone), address := Set(dto.address))
  }

  /**
   * The insert is accepted exactly when the email passes the column check, the drawn key is new
   * and no organization has the contact yet; the stored row is unblocked and stamped with the clock.
   */
  lemma SavedOrganization(t: Table, dto: AddOrganizationDto, freshId: Uuids.Uuid, now: Timestamp)
    ensures InsertOutcome(t, NewOrganization(dto), freshId, now).Ok? <==>
            LikeEmail(dto.email) && freshId !in t && !ContactTaken(t, dto.phone, None)
    ensures !LikeEmail(dto.email) ==> InsertOutcome(t, NewOrganization(dto), freshId, now) == Err(Check("email"))
    ensures InsertOutcome(t, NewOrganization(dto), freshId, now).Ok? ==>
            InsertOutcome(t, NewOrganization(dto), freshId, now).value ==
            Organization(freshId, dto.name, Some(dto.email), dto.phone, dto.address, false, now, now)
  {
  }

  /** `save_organization`: the new row's key, or the constraint the insert broke. */
  method SaveOrganization(db: Store.Database, dto: AddOrganizationDto, freshId: Uuids.Uuid, now: Timestamp)
    returns (r: Result<Uuids.Uuid, DbErr>)
    requires db.Valid()
    modifies db
    ensures db.Valid() && db.members == old(db.members)
    ensures match InsertOutcome(old(db.organizations), NewOrganization(dto), freshId, now)
      case Ok(row) => r == Ok(row.id) && db.organizations == old(db.organizations)[row.id := row]
      case Err(v) => r == Err(Rejected(v)) && db.organizations == old(db.organizations)
  {
    var data := NewOrganization(dto);
    var insertion := db.InsertOrganization(data, freshId, now);
    match insertion
    case Ok(id) => r := Ok(id);
    case Err(v) => r := Err(Rejected(v));
  }

  // ----- lookups

  /** `get_organizations`: every row, blocked ones included. */
  method GetOrganizations(db: Store.Database) returns (rows: seq<Organization>)
    ensures |rows| == |db.organizations|
    ensures forall o :: o in rows <==> o in db.organizations.Values
  {
    rows := db.AllOrganizations();
  }

  /** `get_organization_by_id`: the row if it exists and is not blocked. */
  method GetOrganizationById(db: Store.Database, id: Uuids.Uuid) returns (r: Result<Organization, DbErr>)
    requires db.Valid()
    ensures r.Ok? <==> id in db.organizations && !db.organizations[id].is_blocked
    ensures r.Ok? ==> r.value == db.organizations[id]
    ensures r.Err? ==> r.error == RecordNotFound(NotFoundOrBlocked)
  {
    var found := db.FindOrganization((o: Organization) => o.id == id && !o.is_blocked);
    r := if found.Some? then Ok(found.value) else Err(RecordNotFound(NotFoundOrBlocked));
  }

  /** `get_organization_by_email`: some unblocked row whose email is this one. */
  method GetOrganizationByEmail(db: Store.Database, email: string) returns (r: Result<Organization, DbErr>)
    requires db.Valid()
    ensures r.Ok? <==> exists id | id in db.organizations :: db.organizations[id].email == Some(email) && !db.organizations[id].is_blocked
    ensures r.Ok? ==> r.value in db.organizations.Values && r.value.email == Some(email) && !r.value.is_blocked
    ensures r.Err? ==> r.error == RecordNotFound(NotFoundOrBlocked)
  {
    var found := db.FindOrganization((o: Organization) => o.email == Some(email) && !o.is_blocked);
    r := if found.Some? then Ok(found.value) else Err(RecordNotFound(NotFoundOrBlocked));
  }

  /** `get_organization_by_phone`: the row holding this contact, unless it is blocked. */
  method GetOrganizationByPhone(db: Store.Database, phone: string) returns (r: Result<Organization, DbErr>)
    requires db.Valid()
    ensures r.Ok? <==> exists id | id in db.organizations :: db.organizations[id].contact == phone && !db.organizations[id].is_blocked
    ensures r.Ok? ==> forall id | id in db.organizations && db.organizations[id].contact == phone :: r.value == db.organizations[id]
    ensures r.Ok? ==> !r.value.is_blocked
    ensures r.Err? ==> r.error == RecordNotFound(NotFoundOrBlocked)
  {
    var found := db.FindOrganization((o: Organization) => o.contact == phone && !o.is_blocked);
    r := if found.Some? then Ok(found.value) else Err(RecordNotFound(NotFoundOrBlocked));
  }

  // ----- update_organization

  /** The row `update_organization` means to leave: each given field replaces its column, the clock stamps `updated_at`. */
  function OrganizationAfterUpdate(o: Organization, dto: UpdateOrganizationDto, now: Timestamp): Organization {
    o.(name := if dto.name.Some? then dto.name.value else o.name,
       email := if dto.email.Some? then Some(dto.email.value) else o.email,
       contact := if dto.phone.Some? then dto.phone.value else o.contact,
       address := if dto.address.Some? then dto.address.value else o.address,
       updated_at := now)
  }

  /** Keys, blocked flag and creation time are never touched by an update; an empty dto changes only `updated_at`. */
  lemma UpdateKeepsIdentity(o: Organization, dto: UpdateOrganizationDto, now: Timestamp)
    ensures var u := OrganizationAfterUpdate(o, dto, now);
            u.id == o.id && u.is_blocked == o.is_blocked && u.created_at == o.created_at && u.updated_at == now
    ensures dto == UpdateOrganizationDto(None, None, None, None) ==> OrganizationAfterUpdate(o, dto, now) == o.(updated_at := now)
  {
  }

  /** Applying the same dto again, at any later time, gives the row applying it once gives then. */
  lemma UpdateIdempotent(o: Organization, dto: UpdateOrganizationDto, now: Timestamp, later: Timestamp)
    ensures OrganizationAfterUpdate(OrganizationAfterUpdate(o, dto, now), dto, later) == OrganizationAfterUpdate(o, dto, later)
  {
  }

  // ----- the macro call of update_organization as an instance of the generic macro

  /** The columns the `apply_update_wrap!` call names. */
  datatype Column = NameColumn | EmailColumn | ContactColumn | AddressColumn

  /** Those columns of an active model, as the generic macro's map. */
  function Columns(a: OrganizationActive): map<Column, ActiveValue<Cell>> {
    map[NameColumn := Lift(a.name, (s: string) => Text(s)),
        EmailColumn := Lift(a.email, (e: Option<string>) => MaybeText(e)),
        ContactColumn := Lift(a.contact, (s: string) => Text(s)),
        AddressColumn := Lift(a.address, (s: string) => Text(s))]
  }

  /** The argument list `name: name, email: email => Some, contact: phone, address: address`. */
  function UpdateBindings(dto: UpdateOrganizationDto): seq<Binding<Column, string, Cell>> {
    [Binding(NameColumn, dto.name, (s: string) => Text(s)),
     Binding(EmailColumn, dto.email, (s: string) => MaybeText(SomeText(s))),
     Binding(ContactColumn, dto.phone, (s: string) => Text(s)),
     Binding(AddressColumn, dto.address, (s: string) => Text(s))]
  }

  /** The four guarded assignments the macro call expands to, on the typed active model. */
  function ExpandUpdate(a: OrganizationActive, dto: UpdateOrganizationDto): OrganizationActive {
    a.(name := Assign(a.name, dto.name, Identity),
       email := Assign(a.email, dto.email, SomeText),
       contact := Assign(a.contact, dto.phone, Identity),
       address := Assign(a.address, dto.address, Identity))
  }

  /**
   * The expansion is the generic macro over those bindings on the named columns, and leaves
   * every other column as it was.
   */
  lemma UpdateIsMacroInstance(a: OrganizationActive, dto: UpdateOrganizationDto)
    ensures Columns(ExpandUpdate(a, dto)) == Updated(Columns(a), UpdateBindings(dto))
    ensures var e := ExpandUpdate(a, dto);
            e.id == a.id && e.is_blocked == a.is_blocked && e.created_at == a.created_at && e.updated_at == a.updated_at
  {
    var c, u := Columns(ExpandUpdate(a, dto)), Updated(Columns(a), UpdateBindings(dto));
    forall col: Column
      ensures col in c && col in u && c[col] == u[col]
    {
      ColumnAgrees(a, dto, col);
    }
    assert c.Keys == u.Keys;
  }

  /** One named column: the typed assignment and the generic one agree. */
  lemma ColumnAgrees(a: OrganizationActive, dto: UpdateOrganizationDto, col: Column)
    ensures var c, u := Columns(ExpandUpdate(a, dto)), Updated(Columns(a), UpdateBindings(dto));
            col in c && col in u && c[col] == u[col]
  {
    var bs := UpdateBindings(dto);
    match col
    case NameColumn => UpdatedAt(Columns(a), bs, 0);
    case EmailColumn => UpdatedAt(Columns(a), bs, 1);
    case ContactColumn => UpdatedAt(Columns(a), bs, 2);
    case AddressColumn => UpdatedAt(Columns(a), bs, 3);
  }

  /** The row the update operation writes is the expansion's patch: the macro decides every named column. */
  lemma AfterUpdateIsExpansion(o: Organization, dto: UpdateOrganizationDto, now: Timestamp)
    ensures Patched(o, ExpandUpdate(FromModel(o), dto).(updated_at := Set(now))) == OrganizationAfterUpdate(o, dto, now)
  {
  }

  /** `update_organization`: the row is found by key alone, blocked or not. */
  method UpdateOrganization(db: Store.Database, id: Uuids.Uuid, dto: UpdateOrganizationDto, now: Timestamp)
    returns (r: Result<OrganizationActive, DbErr>)
    requires db.Valid()
    modifies db
    ensures db.Valid() && db.members == old(db.members)
    ensures id !in old(db.organizations) ==> r == Err(Custom(NotFound)) && db.organizations == old(db.organizations)
    ensures id in old(db.organizations) ==>
      var u := OrganizationAfterUpdate(old(db.organizations)[id], dto, now);
      (r.Ok? <==> RowChecks(u) && !ContactTaken(old(db.organizations), u.contact, Some(id))) &&
      (r.Ok? ==> r.value == FromModel(u) && db.organizations == old(db.organizations)[id := u]) &&
      (r.Err? ==> r.error.Rejected? && db.organizations == old(db.organizations))
  {
    var found := db.OrganizationById(id);
    if found.None? {
      return Err(Custom(NotFound));
    }
    var model := FromModel(found.value);
    model := model.(name := Assign(model.name, dto.name, Identity));
    model := model.(email := Assign(model.email, dto.email, SomeText));
    model := model.(contact := Assign(model.contact, dto.phone, Identity));
    model := model.(address := Assign(model.address, dto.address, Identity));
    model := model.(updated_at := Set(now));
    assert model == ExpandUpdate(FromModel(found.value), dto).(updated_at := Set(now));
    AfterUpdateIsExpansion(found.value, dto, now);
    var updated := db.UpdateOrganization(model);
    match updated
    case Ok(row) => r := Ok(FromModel(row));
    case Err(v) => r := Err(Rejected(v));
  }

  // ----- toggle_block

  /** Rewriting a stored row with its own contact never collides with another row. */
  lemma OwnContactFree(t: Table, id: Uuids.Uuid)
    requires TableValid(t) && id in t
    ensures !ContactTaken(t, t[id].contact, Some(id))
  {
  }

  /**
   * The active model `toggle_block` writes, as the code stands: the row read back through `into()`
   * holds `Unchanged` in every column, so the `if let ActiveValue::Set(..)` never fires and only
   * `updated_at` is written.
   */
  function ToggleAsWritten(o: Organization, now: Timestamp): OrganizationActive {
    var model := FromModel(o);
    var model' := match model.is_blocked
      case Set(b) => model.(is_blocked := Set(!b))
      case _ => model;
    model'.(updated_at := Set(now))
  }

  /** The active model that flips the flag: `Set(!exists.is_blocked)`. */
  function ToggleFlipping(o: Organization, now: Timestamp): OrganizationActive {
    FromModel(o).(is_blocked := Set(!o.is_blocked), updated_at := Set(now))
  }

  /** As written, the update is accepted and leaves `is_blocked` as it was. */
  lemma ToggleAsWrittenKeepsFlag(t: Table, id: Uuids.Uuid, now: Timestamp)
    requires TableValid(t) && id in t
    ensures UpdateOutcome(t, ToggleAsWritten(t[id], now)) == Ok(t[id].(updated_at := now))
    ensures UpdateOutcome(t, ToggleAsWritten(t[id], now)).value.is_blocked == t[id].is_blocked
  {
    OwnContactFree(t, id);
  }

  /** Corrected, the update flips `is_blocked`, stamps `updated_at` and changes nothing else; twice restores the flag. */
  lemma ToggleFlippingFlips(t: Table, id: Uuids.Uuid, now: Timestamp, later: Timestamp)
    requires TableValid(t) && id in t
    ensures UpdateOutcome(t, ToggleFlipping(t[id], now)) == Ok(t[id].(is_blocked := !t[id].is_blocked, updated_at := now))
    ensures var t' := t[id := UpdateOutcome(t, ToggleFlipping(t[id], now)).value];
            TableValid(t') &&
            UpdateOutcome(t', ToggleFlipping(t'[id], later)) == Ok(t[id].(updated_at := later))
  {
    OwnContactFree(t, id);
    var t' := t[id := t[id].(is_blocked := !t[id].is_blocked, updated_at := now)];
    UpdateKeepsTableValid(t, ToggleFlipping(t[id], now));
    OwnContactFree(t', id);
  }

  /** `toggle_block` as the code stands: the flag stays, only `updated_at` moves. */
  method ToggleBlock(db: Store.Database, id: Uuids.Uuid, now: Timestamp) returns (r: Result<(), DbErr>)
    requires db.Valid()
    modifies db
    ensures db.Valid() && db.members == old(db.members)
    ensures id !in old(db.organizations) ==> r == Err(Custom(NotFound)) && db.organizations == old(db.organizations)
    ensures id in old(db.organizations) ==>
      r == Ok(()) && db.organizations == old(db.organizations)[id := old(db.organizations)[id].(updated_at := now)]
  {
    var found := db.OrganizationById(id);
    if found.None? {
      return Err(Custom(NotFound));
    }
    var model := FromModel(found.value);
    match model.is_blocked {
      case Set(isBlocked) => model := model.(is_blocked := Set(!isBlocked));
      case _ =>
    }
    model := model.(updated_at := Set(now));
    ToggleAsWrittenKeepsFlag(db.organizations, id, now);
    assert model == ToggleAsWritten(found.value, now);
    var updated := db.UpdateOrganization(model);
    match updated
    case Ok(_) => r := Ok(());
    case Err(v) => r := Err(Rejected(v));
  }

  /** `toggle_block` corrected: the flag flips and `updated_at` moves; nothing else changes. */
  method ToggleBlockFlipping(db: Store.Database, id: Uuids.Uuid, now: Timestamp) returns (r: Result<(), DbErr>)
    requires db.Valid()
    modifies db
    ensures db.Valid() && db.members == old(db.members)
    ensures id !in old(db.organizations) ==> r == Err(Custom(NotFound)) && db.organizations == old(db.organizations)
    ensures id in old(db.organizations) ==>
      var o := old(db.organizations)[id];
      r == Ok(()) && db.organizations == old(db.organizations)[id := o.(is_blocked := !o.is_blocked, updated_at := now)]
  {
    var found := db.OrganizationById(id);
    if found.None? {
      return Err(Custom(NotFound));
    }
    var model := FromModel(found.value);
    model := model.(is_blocked := Set(!found.value.is_blocked));
    model := model.(updated_at := Set(now));
    ToggleFlippingFlips(db.organizations, id, now, now);
    var updated := db.UpdateOrganization(model);
    match updated
    case Ok(_) => r := Ok(());
    case Err(v) => r := Err(Rejected(v));
  }
}
