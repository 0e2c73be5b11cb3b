/**
 * The `organization` table (`migration/src/m20250214_144741_create_organization.rs`): its row,
 * sea-orm's active model of that row, the defaults an INSERT fills in and the constraints
 * that decide whether an INSERT or an UPDATE is accepted.
 */
module OrganizationSchema {
  import opened Wrappers
  import opened PartialUpdate
  import opened Sql
  import Uuids

  /** A row of `organization`. */
  datatype Organization = Organization(
    id: Uuids.Uuid,
    name: string,
    email: Option<string>,
    contact: string,
    address: string,
    is_blocked: bool,
    created_at: Timestamp,
    updated_at: Timestamp)

  /** `organization::ActiveModel`: one `ActiveValue` per column. */
  datatype OrganizationActive = OrganizationActive(
    id: ActiveValue<Uuids.Uuid>,
    name: ActiveValue<string>,
    email: ActiveValue<Option<string>>,
    contact: ActiveValue<string>,
    address: ActiveValue<string>,
    is_blocked: ActiveValue<bool>,
    created_at: ActiveValue<Timestamp>,
    updated_at: ActiveValue<Timestamp>)

  /** `ActiveModel { .., ..Default::default() }` before any column is given. */
  const Blank: OrganizationActive :=
    OrganizationActive(NotSet, NotSet, NotSet, NotSet, NotSet, NotSet, NotSet, NotSet)

  /** `Model::into()`: every column read back, none to be written. */
  function FromModel(o: Organization): OrganizationActive {
    OrganizationActive(Unchanged(o.id), Unchanged(o.name), Unchanged(o.email), Unchanged(o.contact),
                       Unchanged(o.address), Unchanged(o.is_blocked), Unchanged(o.created_at), Unchanged(o.updated_at))
  }

  /** The CHECK on `email`. */
  predicate RowChecks(o: Organization) {
    o.email.Some? ==> LikeEmail(o.email.value)
  }

  /**
   * The row an INSERT of `a` builds, or the first constraint it breaks: `name`, `contact` and
   * `address` are NOT NULL with no default; `id` defaults to `gen_random_uuid()` (here `freshId`),
   * `email` to NULL, `is_blocked` to false and both timestamps to the statement's clock.
   */
  function NewRow(a: OrganizationActive, freshId: Uuids.Uuid, now: Timestamp): (r: Result<Organization, Violation>)
    ensures r.Ok? <==> !a.name.NotSet? && !a.contact.NotSet? && !a.address.NotSet? &&
                       (a.email.NotSet? || a.email.value.None? || LikeEmail(a.email.value.value))
    ensures a.name.NotSet? ==> r == Err(NotNull("name"))
    ensures r.Ok? ==> RowChecks(r.value)
    ensures r.Ok? ==> r.value.id == (if a.id.NotSet? then freshId else a.id.value)
    ensures r.Ok? ==> r.value.name == a.name.value && r.value.contact == a.contact.value && r.value.address == a.address.value
    ensures r.Ok? ==> r.value.email == (if a.email.NotSet? then None else a.email.value)
    ensures r.Ok? ==> r.value.is_blocked == (!a.is_blocked.NotSet? && a.is_blocked.value)
    ensures r.Ok? && a.created_at.NotSet? ==> r.value.created_at == now
    ensures r.Ok? && a.updated_at.NotSet? ==> r.value.updated_at == now
  {
    if a.name.NotSet? then Err(NotNull("name"))
    else if a.contact.NotSet? then Err(NotNull("contact"))
    else if a.address.NotSet? then Err(NotNull("address"))
    else
      var row := Organization(
        WrittenOr(a.id, freshId), a.name.value, WrittenOr(a.email, None), a.contact.value, a.address.value,
        WrittenOr(a.is_blocked, false), WrittenOr(a.created_at, now), WrittenOr(a.updated_at, now));
      if !RowChecks(row) then Err(Check("email")) else Ok(row)
  }

  type Table = map<Uuids.Uuid, Organization>

  /** Some row other than the one keyed `except` already has this contact. */
  predicate ContactTaken(t: Table, contact: string, except: Option<Uuids.Uuid>) {
    exists id | id in t :: Some(id) != except && t[id].contact == contact
  }

  /** What the table's constraints guarantee of its rows. */
  ghost predicate TableValid(t: Table) {
    (forall id | id in t :: t[id].id == id && RowChecks(t[id])) &&
    (forall i, j | i in t && j in t && i != j :: t[i].contact != t[j].contact)
  }

  /** An INSERT: the row, then the primary key, then the unique `contact`. */
  function InsertOutcome(t: Table, a: OrganizationActive, freshId: Uuids.Uuid, now: Timestamp): (r: Result<Organization, Violation>)
    ensures r.Ok? <==> NewRow(a, freshId, now).Ok? && NewRow(a, freshId, now).value.id !in t &&
                       !ContactTaken(t, NewRow(a, freshId, now).value.contact, None)
    ensures r.Ok? ==> r == NewRow(a, freshId, now)
  {
    match NewRow(a, freshId, now)
    case Err(v) => Err(v)
    case Ok(row) =>
      if row.id in t then Err(PrimaryKey)
      else if ContactTaken(t, row.contact, None) then Err(Unique("contact"))
      else Ok(row)
  }

  /** The row after an UPDATE that writes the `Set` columns of `a`; the key stays. */
  function Patched(o: Organization, a: OrganizationActive): Organization {
    Organization(o.id, AfterUpdate(o.name, a.name), AfterUpdate(o.email, a.email), AfterUpdate(o.contact, a.contact),
                 AfterUpdate(o.address, a.address), AfterUpdate(o.is_blocked, a.is_blocked),
                 AfterUpdate(o.created_at, a.created_at), AfterUpdate(o.updated_at, a.updated_at))
  }

  /** An UPDATE of the row keyed by `a.id`: no such row, or the patched row against the checks and the unique `contact`. */
  function UpdateOutcome(t: Table, a: OrganizationActive): (r: Result<Organization, Violation>)
    requires !a.id.NotSet?
    ensures r.Ok? <==> a.id.value in t && RowChecks(Patched(t[a.id.value], a)) &&
                       !ContactTaken(t, Patched(t[a.id.value], a).contact, Some(a.id.value))
    ensures r.Ok? ==> r.value == Patched(t[a.id.value], a)
    ensures a.id.value !in t ==> r == Err(NoRowUpdated)
  {
    if a.id.value !in t then Err(NoRowUpdated)
    else
      var row := Patched(t[a.id.value], a);
      if !RowChecks(row) then Err(Check("email"))
      else if ContactTaken(t, row.contact, Some(a.id.value)) then Err(Unique("contact"))
      else Ok(row)
  }

  /** An accepted INSERT keeps the table's guarantees. */
  lemma InsertKeepsTableValid(t: Table, a: OrganizationActive, freshId: Uuids.Uuid, now: Timestamp)
    requires TableValid(t)
    requires InsertOutcome(t, a, freshId, now).Ok?
    ensures var row := InsertOutcome(t, a, freshId, now).value; row.id !in t && TableValid(t[row.id := row])
  {
    var row := InsertOutcome(t, a, freshId, now).value;
    var t' := t[row.id := row];
    forall i, j | i in t' && j in t' && i != j
      ensures t'[i].contact != t'[j].contact
    {
      if i == row.id {
        assert t'[j] == t[j];
      } else if j == row.id {
        assert t'[i] == t[i];
      }
    }
  }

  /** An accepted UPDATE keeps the table's guarantees, and keeps the row's key. */
  lemma UpdateKeepsTableValid(t: Table, a: OrganizationActive)
    requires TableValid(t)
    requires !a.id.NotSet? && UpdateOutcome(t, a).Ok?
    ensures var row := UpdateOutcome(t, a).value; row.id == a.id.value && TableValid(t[row.id := row])
  {
    var row := UpdateOutcome(t, a).value;
    var t' := t[row.id := row];
    forall i, j | i in t' && j in t' && i != j
      ensures t'[i].contact != t'[j].contact
    {
      if i == row.id {
        assert t'[j] == t[j];
      } else if j == row.id {
        assert t'[i] == t[i];
      }
    }
  }
}
