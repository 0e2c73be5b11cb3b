/**
 * `save_member_from_org` (`src/utils/shared.rs`): a duplicate check on the organization's unblocked
 * members, then an insert. As written the insert never supplies `date_of_birth`, which the table
 * requires, so it is always refused; the corrected insert writes the supplied date.
 */
module SharedOps {
  import opened Wrappers
  import opened PartialUpdate
  import opened Sql
  import Uuids
  import Dates
  import opened MemberSchema
  import Store

  datatype SaveMemberOrgDto = SaveMemberOrgDto(
    first_name: string, last_name: string, email: Option<string>, phone: string, address: string,
    gender: string, date_joined: Option<Day>, date_of_birth: Option<Day>)

  const AlreadyExists: string := "Member already exists"

  /** What the duplicate query matches: an unblocked member of this organization with this contact. */
  predicate IsDuplicate(m: Member, organizationId: Uuids.Uuid, phone: string) {
    !m.is_blocked && m.contact == phone && m.organization_id == organizationId
  }

  /** The active model the code inserts. */
  function NewMemberFromOrg(organizationId: Uuids.Uuid, data: SaveMemberOrgDto): MemberActive {
    Blank.(first_name := Set(data.first_name), last_name := Set(data.last_name), email := Set(data.email),
           contact := Set(data.phone), residential_address := Set(data.address), organization_id := Set(organizationId),
           gender := Set(data.gender), date_joined := Set(data.date_joined))
  }

  /** The corrected active model: also `date_of_birth`, when the caller supplied one. */
  function NewMemberFromOrgWithBirth(organizationId: Uuids.Uuid, data: SaveMemberOrgDto): MemberActive {
    NewMemberFromOrg(organizationId, data).(date_of_birth := Assign(NotSet, data.date_of_birth, Identity))
  }

  /** The row the corrected insert stores. */
  function IntendedRow(organizationId: Uuids.Uuid, data: SaveMemberOrgDto, dateOfBirth: Day,
                       freshId: Uuids.Uuid, now: Timestamp): Member {
    Member.Member(freshId, data.first_name, data.last_name, data.email, data.phone, data.gender, dateOfBirth,
                  data.address, data.date_joined, NotSelectedText, NotSelectedText, NotSelectedText, None, None,
                  NotSelectedText, false, organizationId, now, now)
  }

  /** As written, whatever the dto holds, the insert leaves out `date_of_birth` and is refused. */
  lemma AsWrittenInsertRejected(t: Table, organizations: set<Uuids.Uuid>, organizationId: Uuids.Uuid,
                                data: SaveMemberOrgDto, freshId: Uuids.Uuid, now: Timestamp, today: Dates.Date)
    ensures InsertOutcome(t, organizations, NewMemberFromOrg(organizationId, data), freshId, now, today) ==
            Err(NotNull("date_of_birth"))
  {
  }

  /**
   * Corrected, the insert is accepted exactly when a birth date is supplied, the row passes its checks,
   * the drawn key is new, nobody holds the contact yet and the organization exists; it then stores the
   * dto's fields with the schema's defaults.
   */
  lemma CorrectedInsert(t: Table, organizations: set<Uuids.Uuid>, organizationId: Uuids.Uuid,
                        data: SaveMemberOrgDto, freshId: Uuids.Uuid, now: Timestamp, today: Dates.Date)
    ensures data.date_of_birth.None? ==>
            InsertOutcome(t, organizations, NewMemberFromOrgWithBirth(organizationId, data), freshId, now, today) ==
            Err(NotNull("date_of_birth"))
    ensures data.date_of_birth.Some? ==>
            var row := IntendedRow(organizationId, data, data.date_of_birth.value, freshId, now);
            var r := InsertOutcome(t, organizations, NewMemberFromOrgWithBirth(organizationId, data), freshId, now, today);
            (r.Ok? <==> ChecksAt(row, today) && freshId !in t && !ContactTaken(t, data.phone, None) &&
                        organizationId in organizations) &&
            (r.Ok? ==> r.value == row)
  {
  }

  /**
   * The duplicate query ignores blocked members and other organizations, but the table's unique
   * `contact` does not: such a member still makes the corrected insert fail.
   */
  lemma HiddenDuplicateRejected(t: Table, organizations: set<Uuids.Uuid>, organizationId: Uuids.Uuid,
                                data: SaveMemberOrgDto, freshId: Uuids.Uuid, now: Timestamp, today: Dates.Date, other: Uuids.Uuid)
    requires other in t && t[other].contact == data.phone
    ensures InsertOutcome(t, organizations, NewMemberFromOrgWithBirth(organizationId, data), freshId, now, today).Err?
  {
    if data.date_of_birth.Some? {
      assert ContactTaken(t, data.phone, None) by {
        assert Some(other) != None && t[other].contact == data.phone;
      }
    }
  }

  /** `save_member_from_org` as the code stands: a duplicate is reported, and otherwise the insert is refused. */
  method SaveMemberFromOrg(db: Store.Database, organizationId: Uuids.Uuid, data: SaveMemberOrgDto,
                           freshId: Uuids.Uuid, now: Timestamp, today: Dates.Date) returns (r: Result<Uuids.Uuid, DbErr>)
    requires db.Valid()
    modifies db
    ensures db.Valid()
    ensures db.members == old(db.members) && db.organizations == old(db.organizations)
    ensures (exists id | id in old(db.members) :: IsDuplicate(old(db.members)[id], organizationId, data.phone)) ==>
            r == Err(Custom(AlreadyExists))
    ensures !(exists id | id in old(db.members) :: IsDuplicate(old(db.members)[id], organizationId, data.phone)) ==>
            r == Err(Rejected(NotNull("date_of_birth")))
  {
    var found := db.FindMember((m: Member) => IsDuplicate(m, organizationId, data.phone));
    if found.Some? {
      return Err(Custom(AlreadyExists));
    }
    var member := NewMemberFromOrg(organizationId, data);
    AsWrittenInsertRejected(db.members, db.organizations.Keys, organizationId, data, freshId, now, today);
    var insertion := db.InsertMember(member, freshId, now, today);
    match insertion
    case Ok(id) => r := Ok(id);
    case Err(v) => r := Err(Rejected(v));
  }

  /** `save_member_from_org` corrected: the duplicate check, then an insert that carries the birth date. */
  method SaveMemberFromOrgWithBirth(db: Store.Database, organizationId: Uuids.Uuid, data: SaveMemberOrgDto,
                                    freshId: Uuids.Uuid, now: Timestamp, today: Dates.Date) returns (r: Result<Uuids.Uuid, DbErr>)
    requires db.Valid()
    modifies db
    ensures db.Valid() && db.organizations == old(db.organizations)
    ensures (exists id | id in old(db.members) :: IsDuplicate(old(db.members)[id], organizationId, data.phone)) ==>
            r == Err(Custom(AlreadyExists)) && db.members == old(db.members)
    ensures !(exists id | id in old(db.members) :: IsDuplicate(old(db.members)[id], organizationId, data.phone)) ==>
            match InsertOutcome(old(db.members), old(db.organizations).Keys, NewMemberFromOrgWithBirth(organizationId, data),
                                freshId, now, today)
            case Ok(row) => r == Ok(row.id) && db.members == old(db.members)[row.id := row]
            case Err(v) => r == Err(Rejected(v)) && db.members == old(db.members)
  {
    var found := db.FindMember((m: Member) => IsDuplicate(m, organizationId, data.phone));
    if found.Some? {
      return Err(Custom(AlreadyExists));
    }
    var member := NewMemberFromOrg(organizationId, data);
    if data.date_of_birth.Some? {
      member := member.(date_of_birth := Set(data.date_of_birth.value));
    }
    var insertion := db.InsertMember(member, freshId, now, today);
    match insertion
    case Ok(id) => r := Ok(id);
    case Err(v) => r := Err(Rejected(v));
  }
}
