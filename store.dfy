/**
 * The database both tables live in, as the dto functions reach it through sea-orm: single-key
 * lookups, filtered `find().filter(..).one()`, `find().all()`, INSERT and UPDATE of an active model.
 * Each write is accepted or refused exactly as the tables' constraints decide, and the foreign key
 * from `members.organization_id` to `organization.id` holds throughout.
 */
module Store {
  import opened Wrappers
  import opened Sql
  import Uuids
  import Dates
  import O = OrganizationSchema
  import M = MemberSchema

  /** The rows of a table, one per key, in no particular order. */
  method Rows<K, V(==)>(table: map<K, V>) returns (rows: seq<V>)
    ensures |rows| == |table|
    ensures forall v :: v in rows <==> v in table.Values
  {
    rows := [];
    var left := table.Keys;
    while left != {}
      invariant left <= table.Keys
      invariant |rows| + |left| == |table|
      invariant forall v :: v in rows <==> exists k | k in table.Keys - left :: table[k] == v
      decreases |left|
    {
      var k :| k in left;
      rows := rows + [table[k]];
      left := left - {k};
    }
    assert table.Keys - left == table.Keys;
  }

  class Database {
    var organizations: O.Table
    var members: M.Table

    /** Both tables' guarantees, and the foreign key. */
    ghost predicate Valid()
      reads this
    {
      O.TableValid(organizations) && M.TableValid(members) &&
      forall id | id in members :: members[id].organization_id in organizations
    }

    /** The schema as the migrations leave it: both tables empty. */
    constructor ()
      ensures Valid()
      ensures organizations == map[] && members == map[]
    {
      organizations := map[];
      members := map[];
    }

    /** `find_by_id(id).one()` on `organization`. */
    method OrganizationById(id: Uuids.Uuid) returns (r: Option<O.Organization>)
      ensures id in organizations <==> r.Some?
      ensures r.Some? ==> r.value == organizations[id]
    {
      r := if id in organizations then Some(organizations[id]) else None;
    }

    /** `find_by_id(id).one()` on `members`. */
    method MemberById(id: Uuids.Uuid) returns (r: Option<M.Member>)
      ensures id in members <==> r.Some?
      ensures r.Some? ==> r.value == members[id]
    {
      r := if id in members then Some(members[id]) else None;
    }

    /** `find().filter(condition).one()` on `organization`: some row that meets the condition, if one does. */
    method FindOrganization(condition: O.Organization -> bool) returns (r: Option<O.Organization>)
      requires Valid()
      ensures r.Some? ==> r.value.id in organizations && organizations[r.value.id] == r.value && condition(r.value)
      ensures r.None? ==> forall id | id in organizations :: !condition(organizations[id])
    {
      if id :| id in organizations && condition(organizations[id]) {
        r := Some(organizations[id]);
      } else {
        r := None;
      }
    }

    /** `find().filter(condition).one()` on `members`. */
    method FindMember(condition: M.Member -> bool) returns (r: Option<M.Member>)
      requires Valid()
      ensures r.Some? ==> r.value.id in members && members[r.value.id] == r.value && condition(r.value)
      ensures r.None? ==> forall id | id in members :: !condition(members[id])
    {
      if id :| id in members && condition(members[id]) {
        r := Some(members[id]);
      } else {
        r := None;
      }
    }

    /** `find().all()` on `organization`: every row once, in no particular order. */
    method AllOrganizations() returns (rows: seq<O.Organization>)
      ensures |rows| == |organizations|
      ensures forall o :: o in rows <==> o in organizations.Values
    {
      rows := Rows(organizations);
    }

    /** `find().all()` on `members`. */
    method AllMembers() returns (rows: seq<M.Member>)
      ensures |rows| == |members|
      ensures forall m :: m in rows <==> m in members.Values
    {
      rows := Rows(members);
    }

    /** `organization::Entity::insert(a).exec(db)`. */
    method InsertOrganization(a: O.OrganizationActive, freshId: Uuids.Uuid, now: Timestamp) returns (r: Result<Uuids.Uuid, Violation>)
      requires Valid()
      modifies this
      ensures Valid()
      ensures members == old(members)
      ensures match O.InsertOutcome(old(organizations), a, freshId, now)
        case Ok(row) => r == Ok(row.id) && organizations == old(organizations)[row.id := row]
        case Err(v) => r == Err(v) && organizations == old(organizations)
    {
      match O.InsertOutcome(organizations, a, freshId, now)
      case Ok(row) =>
        O.InsertKeepsTableValid(organizations, a, freshId, now);
        organizations := organizations[row.id := row];
        r := Ok(row.id);
      case Err(v) =>
        r := Err(v);
    }

    /** `ActiveModelTrait::update(a, db)` on `organization`: the stored row afterwards. */
    method UpdateOrganization(a: O.OrganizationActive) returns (r: Result<O.Organization, Violation>)
      requires Valid() && !a.id.NotSet?
      modifies this
      ensures Valid()
      ensures members == old(members)
      ensures r == O.UpdateOutcome(old(organizations), a)
      ensures organizations == if r.Ok? then old(organizations)[a.id.value := r.value] else old(organizations)
    {
      r := O.UpdateOutcome(organizations, a);
      if r.Ok? {
        O.UpdateKeepsTableValid(organizations, a);
        organizations := organizations[a.id.value := r.value];
      }
    }

    /** `members::Entity::insert(a).exec(db)`, `today` being the server's `CURRENT_DATE`. */
    method InsertMember(a: M.MemberActive, freshId: Uuids.Uuid, now: Timestamp, today: Dates.Date) returns (r: Result<Uuids.Uuid, Violation>)
      requires Valid()
      modifies this
      ensures Valid()
      ensures organizations == old(organizations)
      ensures match M.InsertOutcome(old(members), old(organizations).Keys, a, freshId, now, today)
        case Ok(row) => r == Ok(row.id) && members == old(members)[row.id := row]
        case Err(v) => r == Err(v) && members == old(members)
    {
      match M.InsertOutcome(members, organizations.Keys, a, freshId, now, today)
      case Ok(row) =>
        M.InsertKeepsTableValid(members, organizations.Keys, a, freshId, now, today);
        members := members[row.id := row];
        r := Ok(row.id);
      case Err(v) =>
        r := Err(v);
    }

    /** `ActiveModelTrait::update(a, db)` on `members`: the stored row afterwards. */
    method UpdateMember(a: M.MemberActive, today: Dates.Date) returns (r: Result<M.Member, Violation>)
      requires Valid() && !a.id.NotSet?
      modifies this
      ensures Valid()
      ensures organizations == old(organizations)
      ensures r == M.UpdateOutcome(old(members), old(organizations).Keys, a, today)
      ensures members == if r.Ok? then old(members)[a.id.value := r.value] else old(members)
    {
      r := M.UpdateOutcome(members, organizations.Keys, a, today);
      if r.Ok? {
        M.UpdateKeepsTableValid(members, organizations.Keys, a, today);
        members := members[a.id.value := r.value];
      }
    }
  }
}
