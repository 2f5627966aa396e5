/** The MySQL-backed user records: the same create, list, find, update and
    delete as the Postgres store, with its own error text and a skill entry
    that has no UUID. The users table is a sequence of rows in primary-key
    order, so a query's `First()` is the first matching row, `Save` replaces
    a row and `Delete` removes one. */
module MysqlUsers {
  import opened Outcomes
  import opened Search

  const ErrNameInUse := "name already in use"
  const ErrInvalidName := "invalid [name]"
  const ErrInvalidLocation := "invalid [location]"
  const ErrNoUsers := "no users yet"
  const ErrInvalidUserUuid := "invalid user [UUID]"
  const ErrInvalidUserName := "invalid user [Name]"
  const ErrUserNotFound := "user not found"
  const ErrNothingToUpdate := "nothing to update"

  /** A skill entry; `kind` is the JSON field "type". */
  datatype Skill = Skill(kind: string, level: int)

  /** A user row; it is also the decoded body of every user request. */
  datatype User = User(uuid: string, name: string, location: string, skills: seq<Skill>)

  /** userData_byUUID: the row a request's UUID selects, or why there is none. */
  function ByUuid(rows: seq<User>, id: string): (r: Result<nat>)
    ensures id == "" ==> r == Err(ErrInvalidUserUuid)
    ensures id != "" ==> (r.Ok? <==> exists j :: 0 <= j < |rows| && rows[j].uuid == id)
    ensures id != "" && r.Err? ==> r == Err(ErrUserNotFound)
    ensures r.Ok? ==> r.value < |rows| && rows[r.value].uuid == id
    ensures r.Ok? ==> forall j :: 0 <= j < r.value ==> rows[j].uuid != id
  {
    if id == "" then Err(ErrInvalidUserUuid)
    else
      var found := FirstIndex(rows, (u: User) => u.uuid == id);
      if found.None? then Err(ErrUserNotFound) else Ok(found.value)
  }

  /** userData_byName: the row holding a request's name, or why there is none. */
  function ByName(rows: seq<User>, name: string): (r: Result<nat>)
    ensures name == "" ==> r == Err(ErrInvalidUserName)
    ensures name != "" ==> (r.Ok? <==> exists j :: 0 <= j < |rows| && rows[j].name == name)
    ensures name != "" && r.Err? ==> r == Err(ErrUserNotFound)
    ensures r.Ok? ==> r.value < |rows| && rows[r.value].name == name
  {
    if name == "" then Err(ErrInvalidUserName)
    else
      var found := FirstIndex(rows, (u: User) => u.name == name);
      if found.None? then Err(ErrUserNotFound) else Ok(found.value)
  }

  /** The partial merge of UpdateUser: a non-empty request field overwrites
      the stored one; an empty one leaves it alone. */
  function Merge(stored: User, req: User): (m: User)
    ensures m.uuid == stored.uuid && m.skills == stored.skills
    ensures req.name != "" ==> m.name == req.name
    ensures req.name == "" ==> m.name == stored.name
    ensures req.location != "" ==> m.location == req.location
    ensures req.location == "" ==> m.location == stored.location
    ensures m.name == "" ==> stored.name == ""
    ensures m.location == "" ==> stored.location == ""
  {
    var name := if req.name != "" then req.name else stored.name;
    var location := if req.location != "" then req.location else stored.location;
    stored.(name := name, location := location)
  }

  class UserStore {
    /** The users table, in primary-key order. */
    var rows: seq<User>


    /** CreateUser: `id` stands for the fresh `uuid.New()`. */
    method CreateUser(req: User, id: string) returns (r: Result<User>)
      modifies this
      ensures ByName(old(rows), req.name).Ok? ==> r == Err(ErrNameInUse)
      ensures req.name == "" ==> r == Err(ErrInvalidName)
      ensures ByName(old(rows), req.name).Err? && req.name != "" && req.location == "" ==>
                r == Err(ErrInvalidLocation)
      ensures r.Ok? <==> req.name != "" && req.location != "" && ByName(old(rows), req.name).Err?
      ensures r.Ok? ==> r.value == User(id, req.name, req.location, [])
      ensures r.Ok? ==> rows == old(rows) + [r.value]
      ensures r.Err? ==> rows == old(rows)
    {
      var existing := ByName(rows, req.name);
      if existing.Ok? {
        return Err(ErrNameInUse);
      }
      if req.name == "" {
        return Err(ErrInvalidName);
      }
      if req.location == "" {
        return Err(ErrInvalidLocation);
      }
      var created := req.(uuid := id, skills := []);
      rows := rows + [created];
      return Ok(created);
    }

    method GetAllUsers() returns (r: Result<seq<User>>)
      ensures r == Err(ErrNoUsers) <==> rows == []
      ensures r.Ok? ==> r.value == rows
      ensures rows != [] ==> r == Ok(rows)
    {
      if |rows| == 0 {
        return Err(ErrNoUsers);
      }
      return Ok(rows);
    }

    method FindUserByID(req: User) returns (r: Result<User>)
      ensures req.uuid == "" ==> r == Err(ErrInvalidUserUuid)
      ensures req.uuid != "" && (forall u :: u in rows ==> u.uuid != req.uuid) ==> r == Err(ErrUserNotFound)
      ensures r.Ok? <==> req.uuid != "" && exists u :: u in rows && u.uuid == req.uuid
      ensures r.Ok? ==> r.value in rows && r.value.uuid == req.uuid
      ensures r.Ok? ==> exists i :: 0 <= i < |rows| && rows[i] == r.value &&
                          forall j :: 0 <= j < i ==> rows[j].uuid != req.uuid
    {
      var found := ByUuid(rows, req.uuid);
      if found.Err? {
        return Err(found.msg);
      }
      return Ok(rows[found.value]);
    }

    method UpdateUser(req: User) returns (r: Result<User>)
      modifies this
      ensures ByUuid(old(rows), req.uuid).Err? ==> r == Err(ByUuid(old(rows), req.uuid).msg)
      ensures ByUuid(old(rows), req.uuid).Ok? && req.name == "" && req.location == "" ==>
                r == Err(ErrNothingToUpdate)
      ensures r.Err? ==> rows == old(rows)
      ensures r.Ok? ==> var i := ByUuid(old(rows), req.uuid).value;
                        && r.value == Merge(old(rows)[i], req)
                        && rows == old(rows)[i := r.value]
      ensures r.Ok? <==> ByUuid(old(rows), req.uuid).Ok? && (req.name != "" || req.location != "")
    {
      var found := ByUuid(rows, req.uuid);
      if found.Err? {
        return Err(found.msg);
      } else if req.name == "" && req.location == "" {
        return Err(ErrNothingToUpdate);
      }
      var updated := Merge(rows[found.value], req);
      rows := rows[found.value := updated];
      return Ok(updated);
    }

    method DeleteUser(req: User) returns (r: Result<()>)
      modifies this
      ensures ByUuid(old(rows), req.uuid).Err? ==> r == Err(ByUuid(old(rows), req.uuid).msg) && rows == old(rows)
      ensures ByUuid(old(rows), req.uuid).Ok? ==>
                var i := ByUuid(old(rows), req.uuid).value;
                r == Ok(()) && rows == old(rows)[..i] + old(rows)[i + 1..]
      ensures r.Ok? ==> |rows| == |old(rows)| - 1 && multiset(rows) <= multiset(old(rows))
    {
      var found := ByUuid(rows, req.uuid);
      if found.Err? {
        return Err(found.msg);
      }
      var i := found.value;
      assert rows == rows[..i] + [rows[i]] + rows[i + 1..];
      rows := rows[..i] + rows[i + 1..];
      return Ok(());
    }
  }

  /** Deleting a user and then looking for it again fails with "user not
      found" when its UUID was held by that one row only. */
  method DeleteThenFind(store: UserStore, id: string) returns (deleted: Result<()>, found: Result<User>)
    requires id != ""
    requires forall i, j :: 0 <= i < j < |store.rows| ==> store.rows[i].uuid != store.rows[j].uuid
    modifies store
    ensures deleted.Ok? ==> found == Err(ErrUserNotFound)
  {
    ghost var before := store.rows;
    deleted := store.DeleteUser(User(id, "", "", []));
    found := store.FindUserByID(User(id, "", "", []));
    if deleted.Ok? {
      ghost var k := ByUuid(before, id).value;
      forall u | u in store.rows ensures u.uuid != id {
        var j :| 0 <= j < |store.rows| && store.rows[j] == u;
        if j < k {
          assert u == before[j];
        } else {
          assert u == before[j + 1];
        }
      }
    }
  }
}
