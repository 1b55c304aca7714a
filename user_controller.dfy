/** The user-administration handlers (server/controllers/userController.js):
    changing a role, toggling the active flag, the statistics formatting and
    the filters of the list endpoints. */
module UserController {
  import opened Common
  import opened UserModel

  /** A handler's status, the collection it leaves behind, and for a role
      change the role before and after. */
  datatype UserReply = UserReply(status: HttpStatus, users: map<Id, User>, change: Option<(Role, Role)>)

  // ----------------------------------------------------------- role change

  /** `updateUserRole`: the requested role must be `editor` or `writer`
      (400), checked before the lookup; then 404, 403 for an admin target,
      403 for the caller's own account; then only the role changes. */
  function ChangeRole(users: map<Id, User>, caller: Caller, userId: Id, role: string): (r: UserReply)
    ensures role != "editor" && role != "writer" ==> r == UserReply(BadRequest, users, None)
    ensures (role == "editor" || role == "writer") ==>
      && (userId !in users ==> r == UserReply(NotFound, users, None))
      && (userId in users && users[userId].role == Admin ==> r == UserReply(Forbidden, users, None))
      && (userId in users && users[userId].role != Admin && userId == caller.id ==>
            r == UserReply(Forbidden, users, None))
    ensures ((role == "editor" || role == "writer")
             && userId in users && users[userId].role != Admin && userId != caller.id) ==> r.status == Ok
    ensures r.status == Ok ==>
      && userId in users && userId != caller.id && users[userId].role != Admin
      && ParseRole(role).Some? && ParseRole(role).value in {Editor, Writer}
      && r.users == users[userId := users[userId].(role := ParseRole(role).value)]
      && r.change == Some((users[userId].role, ParseRole(role).value))
    ensures r.status != Ok ==> r.users == users && r.change == None
  {
    if role != "editor" && role != "writer" then UserReply(BadRequest, users, None)
    else if userId !in users then UserReply(NotFound, users, None)
    else if users[userId].role == Admin then UserReply(Forbidden, users, None)
    else if userId == caller.id then UserReply(Forbidden, users, None)
    else
      var newRole := if role == "editor" then Editor else Writer;
      UserReply(Ok, users[userId := users[userId].(role := newRole)], Some((users[userId].role, newRole)))
  }

  method UpdateUserRole(col: UserCollection, caller: Caller, userId: Id, role: string)
    returns (status: HttpStatus, change: Option<(Role, Role)>)
    modifies col
    ensures UserReply(status, col.docs, change) == ChangeRole(old(col.docs), caller, userId, role)
  {
    if role != "editor" && role != "writer" {
      return BadRequest, None;
    }
    if userId !in col.docs {
      return NotFound, None;
    }
    var user := col.docs[userId];
    if user.role == Admin {
      return Forbidden, None;
    }
    if userId == caller.id {
      return Forbidden, None;
    }
    var oldRole := user.role;
    user := user.(role := if role == "editor" then Editor else Writer);
    col.docs := col.docs[userId := user];
    return Ok, Some((oldRole, user.role));
  }

  /** No role change ever creates or removes an admin. */
  lemma ChangeRoleKeepsAdmins(users: map<Id, User>, caller: Caller, userId: Id, role: string)
    ensures var r := ChangeRole(users, caller, userId, role);
      forall id :: id in users ==> (users[id].role == Admin <==> r.users[id].role == Admin)
  {
  }

  // ---------------------------------------------------------- toggle status

  /** `toggleUserStatus`: 404, 403 for an admin target, 403 for the caller's
      own account; otherwise `isActive` is flipped and nothing else changes. */
  function Toggle(users: map<Id, User>, caller: Caller, userId: Id): (r: UserReply)
    ensures userId !in users ==> r.status == NotFound
    ensures userId in users && users[userId].role == Admin ==> r.status == Forbidden
    ensures userId in users && users[userId].role != Admin && userId == caller.id ==> r.status == Forbidden
    ensures r.status == Ok <==> userId in users && users[userId].role != Admin && userId != caller.id
    ensures r.status == Ok ==>
      r.users == users[userId := users[userId].(isActive := !users[userId].isActive)]
    ensures r.status != Ok ==> r.users == users
    ensures r.change == None
  {
    if userId !in users then UserReply(NotFound, users, None)
    else if users[userId].role == Admin then UserReply(Forbidden, users, None)
    else if userId == caller.id then UserReply(Forbidden, users, None)
    else UserReply(Ok, users[userId := users[userId].(isActive := !users[userId].isActive)], None)
  }

  method ToggleUserStatus(col: UserCollection, caller: Caller, userId: Id) returns (status: HttpStatus)
    modifies col
    ensures UserReply(status, col.docs, None) == Toggle(old(col.docs), caller, userId)
  {
    if userId !in col.docs {
      return NotFound;
    }
    var user := col.docs[userId];
    if user.role == Admin {
      return Forbidden;
    }
    if userId == caller.id {
      return Forbidden;
    }
    user := user.(isActive := !user.isActive);
    col.docs := col.docs[userId := user];
    return Ok;
  }

  /** A toggle that succeeds can be repeated, and the second one restores the
      collection. */
  lemma ToggleTwiceRestores(users: map<Id, User>, caller: Caller, userId: Id)
    requires Toggle(users, caller, userId).status == Ok
    ensures var once := Toggle(users, caller, userId).users;
      Toggle(once, caller, userId).status == Ok && Toggle(once, caller, userId).users == users
  {
    var once := Toggle(users, caller, userId).users;
    assert once[userId].(isActive := !once[userId].isActive) == users[userId];
  }

  // ------------------------------------------------------------- statistics

  /** The response of `getUserStats`. */
  datatype UserStats = UserStats(total: nat, active: nat, inactive: int, byRole: map<Role, nat>)

  /** `getUserStats` formatting: `inactive` is `total - active` and `byRole`
      maps each role of the `$group` rows to its count. */
  function FormatUserStats(total: nat, active: nat, groups: seq<(Role, nat)>): (s: UserStats)
    ensures s.total == total && s.active == active
    ensures s.active + s.inactive == s.total
    ensures s.byRole.Keys == set i | 0 <= i < |groups| :: groups[i].0
  {
    UserStats(total, active, total - active, IndexCounts(groups))
  }

  /** `$group` yields one row per role, so each role's row is its count. */
  lemma UserStatsCountsEachRole(total: nat, active: nat, groups: seq<(Role, nat)>)
    requires forall i, j :: 0 <= i < j < |groups| ==> groups[i].0 != groups[j].0
    ensures forall i :: 0 <= i < |groups| ==> FormatUserStats(total, active, groups).byRole[groups[i].0] == groups[i].1
  {
    IndexCountsDistinct(groups);
  }

  /** The ids of the active users. */
  function ActiveIds(users: map<Id, User>): set<Id> {
    set id | id in users && users[id].isActive
  }

  /** The ids of the inactive users. */
  function InactiveIds(users: map<Id, User>): set<Id> {
    set id | id in users && !users[id].isActive
  }

  /** With the two counts the database reports for a collection, `inactive`
      is the number of inactive users. */
  lemma InactiveCountsInactiveUsers(users: map<Id, User>)
    ensures FormatUserStats(|users.Keys|, |ActiveIds(users)|, []).inactive == |InactiveIds(users)|
  {
    assert users.Keys == ActiveIds(users) + InactiveIds(users);
    assert ActiveIds(users) !! InactiveIds(users);
  }

  // ----------------------------------------------------------- list filters

  /** The query object `getAllUsers` builds. The name/email search is kept as
      its pattern. */
  datatype UserQuery = UserQuery(role: Option<Role>, search: Option<string>)

  /** `getAllUsers`: the role filter is applied only for one of the four
      known role names; a search adds the name/email clause. */
  method BuildUserQuery(role: string, search: string) returns (q: UserQuery)
    ensures q.role.Some? <==> role in {"admin", "editor", "writer", "reader"}
    ensures q.role.Some? ==> RoleName(q.role.value) == role
    ensures q.search.Some? <==> search != ""
    ensures q.search.Some? ==> q.search.value == search
  {
    q := UserQuery(None, None);
    if role != "" && role in ["admin", "editor", "writer", "reader"] {
      q := q.(role := ParseRole(role));
    }
    if search != "" {
      q := q.(search := Some(search));
    }
  }

  /** `getEditors`: the users whose role is `editor` and who are active. */
  function Editors(users: map<Id, User>): (ids: set<Id>)
    ensures forall id :: id in ids <==> id in users && users[id].role == Editor && users[id].isActive
  {
    set id | id in users && users[id].role == Editor && users[id].isActive
  }

  /** `getWriters`: every user whose role is `writer`, active or not. */
  function Writers(users: map<Id, User>): (ids: set<Id>)
    ensures forall id :: id in ids <==> id in users && users[id].role == Writer
  {
    set id | id in users && users[id].role == Writer
  }

  /** An editor whose account is inactive is not offered by `getEditors`,
      yet `submitArticle` accepts it, since it checks only the role. */
  lemma InactiveEditorNotListed(users: map<Id, User>, id: Id)
    requires id in users && users[id] == User(Editor, false)
    ensures id !in Editors(users)
  {
  }

  /** Making a user a writer moves them from the editors `getEditors` lists
      to the writers `getWriters` lists; nobody else moves. */
  lemma ChangeRoleToWriter(users: map<Id, User>, caller: Caller, userId: Id)
    requires ChangeRole(users, caller, userId, "writer").status == Ok
    ensures var after := ChangeRole(users, caller, userId, "writer").users;
      Writers(after) == Writers(users) + {userId} && Editors(after) == Editors(users) - {userId}
  {
    var after := ChangeRole(users, caller, userId, "writer").users;
    assert Writers(after) == Writers(users) + {userId};
    assert Editors(after) == Editors(users) - {userId};
  }

  /** Making a user an editor takes them off the writers' list; they appear
      among `getEditors`' editors only if their account is active. */
  lemma ChangeRoleToEditor(users: map<Id, User>, caller: Caller, userId: Id)
    requires ChangeRole(users, caller, userId, "editor").status == Ok
    ensures var after := ChangeRole(users, caller, userId, "editor").users;
      && Writers(after) == Writers(users) - {userId}
      && Editors(after) == (Editors(users) - {userId}) + (if users[userId].isActive then {userId} else {})
  {
    var after := ChangeRole(users, caller, userId, "editor").users;
    assert Writers(after) == Writers(users) - {userId};
    assert Editors(after) == (Editors(users) - {userId}) + (if users[userId].isActive then {userId} else {});
  }
}
