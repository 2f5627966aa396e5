/** The Postgres-backed user records: create with a duplicate-name pre-check,
    list, find/update/delete by UUID, and editing a user's skill list.
    The users table is a sequence of rows in primary-key order, so a query's
    `First()` is the first matching row, `Save` replaces a row and `Delete`
    removes one. */
module PostgresUsers {
  import opened Outcomes
  import opened Search

  const ErrNameInPlay := "name already in play"
  const ErrInvalidName := "invalid [name]"
  const ErrInvalidLocation := "invalid [location]"
  const ErrNoUsers := "no users yet"
  const ErrInvalidUserUuid := "invalid user [UUID]"
  const ErrInvalidUserName := "invalid user [Name]"
  const ErrUserNotFound := "user not found"
  const ErrNothingToUpdate := "nothing to update"
  const ErrInvalidUuid := "invalid [uuid]"
  const ErrInvalidType := "invalid [type]"
  const ErrInvalidLevel := "invalid [level]"
  const ErrInvalidUserUuidLower := "invalid user [uuid]"
  const ErrInvalidSkillUuid := "invalid skill [uuid]"

  /** A skill entry; `kind` is the JSON field "type". */
  datatype Skill = Skill(uuid: string, kind: string, level: int)

  /** A user row; it is also the decoded body of create, find, update and
      delete requests. */
  datatype User = User(uuid: string, name: string, location: string, skills: seq<Skill>)

  datatype SkillRequest = SkillRequest(uuid: string, kind: string, level: int)

  datatype RemoveSkillRequest = RemoveSkillRequest(userUuid: string, skillUuid: string)

  /** userData_byUUID: the row a request's UUID selects, or why there is none. */
  function ByUuid(rows: seq<User>, id: string): (r: Result<nat>)
    ensures id == "" ==> r == Err(ErrInvalidUserUuid)
    ensures id != "" ==> (r.Ok? <==> exists j :: 0 <= j < |rows| && rows[j].uuid == id)
    ensures id != "" && r.Err? ==> r == Err(ErrUserNotFound)
    ensures r.Ok? ==> r.value < |rows| && rows[r.value].uuid == id
    ensures r.Ok? ==> forall j :: 0 <= j < r.value ==> rows[j].uuid != id
  {
    if id == "" then Err(ErrInvalidUserUuid)
    else
      var found := FirstIndex(rows, (u: User) => u.uuid == id);
      if found.None? then Err(ErrUserNotFound) else Ok(found.value)
  }

  /** userData_byName: the row holding a request's name, or why there is none. */
  function ByName(rows: seq<User>, name: string): (r: Result<nat>)
    ensures name == "" ==> r == Err(ErrInvalidUserName)
    ensures name != "" ==> (r.Ok? <==> exists j :: 0 <= j < |rows| && rows[j].name == name)
    ensures name != "" && r.Err? ==> r == Err(ErrUserNotFound)
    ensures r.Ok? ==> r.value < |rows| && rows[r.value].name == name
  {
    if name == "" then Err(ErrInvalidUserName)
    else
      var found := FirstIndex(rows, (u: User) => u.name == name);
      if found.None? then Err(ErrUserNotFound) else Ok(found.value)
  }

  /** The partial merge of UpdateUser: a non-empty request field overwrites
      the stored one; an empty one leaves it alone. */
  function Merge(stored: User, req: User): (m: User)
    ensures m.uuid == stored.uuid && m.skills == stored.skills
    ensures req.name != "" ==> m.name == req.name
    ensures req.name == "" ==> m.name == stored.name
    ensures req.location != "" ==> m.location == req.location
    ensures req.location == "" ==> m.location == stored.location
    ensures m.name == "" ==> stored.name == ""
    ensures m.location == "" ==> stored.location == ""
  {
    var name := if req.name != "" then req.name else stored.name;
    var location := if req.location != "" then req.location else stored.location;
    stored.(name := name, location := location)
  }

  /** Merging the same request twice changes nothing more. */
  lemma MergeIdempotent(stored: User, req: User)
    ensures Merge(Merge(stored, req), req) == Merge(stored, req)
  {
  }

  /** The skill list RemoveSkill keeps: its filter loop stops after keeping
      the first skill whose UUID differs from `id`. */
  function FirstOther(skills: seq<Skill>, id: string): (r: seq<Skill>)
    ensures |r| <= 1
    ensures r == [] <==> forall j :: 0 <= j < |skills| ==> skills[j].uuid == id
    ensures forall i :: (0 <= i < |skills| && skills[i].uuid != id &&
                         forall j :: 0 <= j < i ==> skills[j].uuid == id) ==> r == [skills[i]]
  {
    if skills == [] then []
    else if skills[0].uuid != id then [skills[0]]
    else FirstOther(skills[1..], id)
  }

  /** The filter that the RemoveSkill loop would compute without its `break`:
      every skill whose UUID differs from `id`, in order. */
  function WithoutSkill(skills: seq<Skill>, id: string): (r: seq<Skill>)
    ensures |r| <= |skills|
    ensures forall s :: s in r <==> s in skills && s.uuid != id
  {
    if skills == [] then []
    else (if skills[0].uuid != id then [skills[0]] else []) + WithoutSkill(skills[1..], id)
  }

  /** What RemoveSkill keeps is the first skill the full filter would keep. */
  lemma {:induction false} FirstOtherHeadOfFilter(skills: seq<Skill>, id: string)
    ensures var w := WithoutSkill(skills, id);
            FirstOther(skills, id) == if w == [] then [] else [w[0]]
  {
    if skills != [] && skills[0].uuid == id {
      FirstOtherHeadOfFilter(skills[1..], id);
    }
  }

  /** RemoveSkill agrees with a full filter exactly when at most one skill has
      a UUID different from the requested one. */
  lemma FirstOtherIsFilterIff(skills: seq<Skill>, id: string)
    ensures FirstOther(skills, id) == WithoutSkill(skills, id) <==> |WithoutSkill(skills, id)| <= 1
  {
    FirstOtherHeadOfFilter(skills, id);
    var w := WithoutSkill(skills, id);
    if |w| == 1 {
      assert w == [w[0]];
    }
  }

  class UserStore {
    /** The users table, in primary-key order. */
    var rows: seq<User>


    /** CreateUser: `id` stands for the fresh `uuid.New()`. */
    method CreateUser(req: User, id: string) returns (r: Result<User>)
      modifies this
      ensures ByName(old(rows), req.name).Ok? ==> r == Err(ErrNameInPlay)
      ensures req.name == "" ==> r == Err(ErrInvalidName)
      ensures ByName(old(rows), req.name).Err? && req.name != "" && req.location == "" ==>
                r == Err(ErrInvalidLocation)
      ensures r.Ok? <==> req.name != "" && req.location != "" && ByName(old(rows), req.name).Err?
      ensures r.Ok? ==> r.value == User(id, req.name, req.location, [])
      ensures r.Ok? ==> rows == old(rows) + [r.value]
      ensures r.Err? ==> rows == old(rows)
    {
      var existing := ByName(rows, req.name);
      if existing.Ok? {
        return Err(ErrNameInPlay);
      }
      if req.name == "" {
        return Err(ErrInvalidName);
      }
      if req.location == "" {
        return Err(ErrInvalidLocation);
      }
      var created := req.(uuid := id, skills := []);
      rows := rows + [created];
      return Ok(created);
    }

    method GetAllUsers() returns (r: Result<seq<User>>)
      ensures r == Err(ErrNoUsers) <==> rows == []
      ensures r.Ok? ==> r.value == rows
      ensures rows != [] ==> r == Ok(rows)
    {
      if |rows| == 0 {
        return Err(ErrNoUsers);
      }
      return Ok(rows);
    }

    method FindUserByID(req: User) returns (r: Result<User>)
      ensures req.uuid == "" ==> r == Err(ErrInvalidUserUuid)
      ensures req.uuid != "" && (forall u :: u in rows ==> u.uuid != req.uuid) ==> r == Err(ErrUserNotFound)
      ensures r.Ok? <==> req.uuid != "" && exists u :: u in rows && u.uuid == req.uuid
      ensures r.Ok? ==> r.value in rows && r.value.uuid == req.uuid
      ensures r.Ok? ==> exists i :: 0 <= i < |rows| && rows[i] == r.value &&
                          forall j :: 0 <= j < i ==> rows[j].uuid != req.uuid
    {
      var found := ByUuid(rows, req.uuid);
      if found.Err? {
        return Err(found.msg);
      }
      return Ok(rows[found.value]);
    }

    method UpdateUser(req: User) returns (r: Result<User>)
      modifies this
      ensures ByUuid(old(rows), req.uuid).Err? ==> r == Err(ByUuid(old(rows), req.uuid).msg)
      ensures ByUuid(old(rows), req.uuid).Ok? && req.name == "" && req.location == "" ==>
                r == Err(ErrNothingToUpdate)
      ensures r.Err? ==> rows == old(rows)
      ensures r.Ok? ==> var i := ByUuid(old(rows), req.uuid).value;
                        && r.value == Merge(old(rows)[i], req)
                        && rows == old(rows)[i := r.value]
      ensures r.Ok? <==> ByUuid(old(rows), req.uuid).Ok? && (req.name != "" || req.location != "")
    {
      var found := ByUuid(rows, req.uuid);
      if found.Err? {
        return Err(found.msg);
      } else if req.name == "" && req.location == "" {
        return Err(ErrNothingToUpdate);
      }
      var updated := Merge(rows[found.value], req);
      rows := rows[found.value := updated];
      return Ok(updated);
    }

    method DeleteUser(req: User) returns (r: Result<()>)
      modifies this
      ensures ByUuid(old(rows), req.uuid).Err? ==> r == Err(ByUuid(old(rows), req.uuid).msg) && rows == old(rows)
      ensures ByUuid(old(rows), req.uuid).Ok? ==>
                var i := ByUuid(old(rows), req.uuid).value;
                r == Ok(()) && rows == old(rows)[..i] + old(rows)[i + 1..]
      ensures r.Ok? ==> |rows| == |old(rows)| - 1 && multiset(rows) <= multiset(old(rows))
    {
      var found := ByUuid(rows, req.uuid);
      if found.Err? {
        return Err(found.msg);
      }
      var i := found.value;
      assert rows == rows[..i] + [rows[i]] + rows[i + 1..];
      rows := rows[..i] + rows[i + 1..];
      return Ok(());
    }

    /** AddSkill: `skillId` stands for the fresh `uuid.New()` of the new skill. */
    method AddSkill(req: SkillRequest, skillId: string) returns (r: Result<User>)
      modifies this
      ensures req.uuid == "" ==> r == Err(ErrInvalidUuid)
      ensures req.uuid != "" && req.kind == "" ==> r == Err(ErrInvalidType)
      ensures req.uuid != "" && req.kind != "" && req.level < 1 ==> r == Err(ErrInvalidLevel)
      ensures req.uuid != "" && req.kind != "" && req.level >= 1 && ByUuid(old(rows), req.uuid).Err? ==>
                r == Err(ErrUserNotFound)
      ensures r.Err? ==> rows == old(rows)
      ensures r.Ok? ==> var i := ByUuid(old(rows), req.uuid).value;
                        && r.value == old(rows)[i].(skills := old(rows)[i].skills + [Skill(skillId, req.kind, req.level)])
                        && rows == old(rows)[i := r.value]
      ensures r.Ok? <==> req.kind != "" && req.level >= 1 && ByUuid(old(rows), req.uuid).Ok?
    {
      if req.uuid == "" {
        return Err(ErrInvalidUuid);
      }
      if req.kind == "" {
        return Err(ErrInvalidType);
      }
      if req.level < 1 {
        return Err(ErrInvalidLevel);
      }
      var found := ByUuid(rows, req.uuid);
      if found.Err? {
        return Err(ErrUserNotFound);
      }
      var user := rows[found.value];
      var skill := Skill(skillId, req.kind, req.level);
      user := user.(skills := user.skills + [skill]);
      rows := rows[found.value := user];
      return Ok(user);
    }

    method RemoveSkill(req: RemoveSkillRequest) returns (r: Result<User>)
      modifies this
      ensures req.userUuid == "" ==> r == Err(ErrInvalidUserUuidLower)
      ensures req.userUuid != "" && req.skillUuid == "" ==> r == Err(ErrInvalidSkillUuid)
      ensures req.userUuid != "" && req.skillUuid != "" && ByUuid(old(rows), req.userUuid).Err? ==>
                r == Err(ErrUserNotFound)
      ensures r.Err? ==> rows == old(rows)
      ensures r.Ok? ==> var i := ByUuid(old(rows), req.userUuid).value;
                        && r.value == old(rows)[i].(skills := FirstOther(old(rows)[i].skills, req.skillUuid))
                        && rows == old(rows)[i := r.value]
      ensures r.Ok? <==> req.skillUuid != "" && ByUuid(old(rows), req.userUuid).Ok?
    {
      if req.userUuid == "" {
        return Err(ErrInvalidUserUuidLower);
      }
      if req.skillUuid == "" {
        return Err(ErrInvalidSkillUuid);
      }
      var found := ByUuid(rows, req.userUuid);
      if found.Err? {
        return Err(ErrUserNotFound);
      }
      var user := rows[found.value];
      var kept: seq<Skill> := [];
      for k := 0 to |user.skills|
        invariant kept == []
        invariant forall j :: 0 <= j < k ==> user.skills[j].uuid == req.skillUuid
      {
        if user.skills[k].uuid != req.skillUuid {
          kept := kept + [user.skills[k]];
          assert kept == FirstOther(user.skills, req.skillUuid);
          break;
        }
      }
      assert kept == FirstOther(user.skills, req.skillUuid);
      user := user.(skills := kept);
      rows := rows[found.value := user];
      return Ok(user);
    }
  }

  /** A record found right after it was created is the created record, when
      the new UUID was not in use. */
  method CreateThenFind(store: UserStore, req: User, id: string) returns (created: Result<User>, found: Result<User>)
    requires id != ""
    requires forall u :: u in store.rows ==> u.uuid != id
    modifies store
    ensures created.Ok? ==> found == created
  {
    ghost var before := store.rows;
    created := store.CreateUser(req, id);
    found := store.FindUserByID(User(id, "", "", []));
    if created.Ok? {
      assert store.rows[|before|] in store.rows;
      ghost var i :| 0 <= i < |store.rows| && store.rows[i] == found.value &&
               forall j :: 0 <= j < i ==> store.rows[j].uuid != id;
    }
  }

  /** A second create with a name already stored is refused and stores nothing. */
  method CreateSameNameTwice(store: UserStore, first: User, second: User, id1: string, id2: string)
    returns (r1: Result<User>, r2: Result<User>)
    requires first.name == second.name
    modifies store
    ensures r1.Ok? ==> r2 == Err(ErrNameInPlay) && store.rows == old(store.rows) + [r1.value]
  {
    ghost var before := store.rows;
    r1 := store.CreateUser(first, id1);
    if r1.Ok? {
      assert store.rows[|before|].name == second.name;
    }
    r2 := store.CreateUser(second, id2);
  }

  /** Adding a skill to a user without skills and removing it by its UUID
      leaves the user without skills. */
  method AddThenRemoveSkill(store: UserStore, userId: string, kind: string, level: int, skillId: string)
    returns (added: Result<User>, removed: Result<User>)
    requires skillId != ""
    requires ByUuid(store.rows, userId).Ok? && store.rows[ByUuid(store.rows, userId).value].skills == []
    modifies store
    ensures added.Ok? <==> kind != "" && level >= 1
    ensures added.Ok? ==> |added.value.skills| == 1 && removed.Ok? && removed.value.skills == []
  {
    ghost var i := ByUuid(store.rows, userId).value;
    added := store.AddSkill(SkillRequest(userId, kind, level), skillId);
    if added.Ok? {
      // the row keeps its UUID, so the same row is found again
      assert store.rows[i].uuid == userId;
      var k := ByUuid(store.rows, userId).value;
      assert k == i;
    }
    removed := store.RemoveSkill(RemoveSkillRequest(userId, skillId));
  }
}
