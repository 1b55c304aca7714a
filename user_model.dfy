/** The user record as the controllers and the middleware read it: a role
    and an active flag. server/models/User.js is not part of this model; the
    four role names are the ones the controllers and routes test against. */
module UserModel {
  import opened Common

  datatype Role = Admin | Editor | Writer | Reader

  datatype User = User(role: Role, isActive: bool)

  /** `req.user` as the handlers read it once `protect` has admitted the
      request: the user's id and role. */
  datatype Caller = Caller(id: Id, role: Role)

  /** The role's stored name. */
  function RoleName(r: Role): string {
    match r
    case Admin => "admin"
    case Editor => "editor"
    case Writer => "writer"
    case Reader => "reader"
  }

  /** The role a request string names, if it names one of the four. */
  function ParseRole(s: string): (r: Option<Role>)
    ensures r.Some? ==> RoleName(r.value) == s
    ensures r.None? ==> forall q: Role :: RoleName(q) != s
  {
    if s == "admin" then Some(Admin)
    else if s == "editor" then Some(Editor)
    else if s == "writer" then Some(Writer)
    else if s == "reader" then Some(Reader)
    else None
  }

  lemma ParseRoleName(r: Role)
    ensures ParseRole(RoleName(r)) == Some(r)
  {
  }

  /** The users collection, keyed by id; `save()` replaces a document. */
  class UserCollection {
    var docs: map<Id, User>

    constructor (initial: map<Id, User>)
      ensures docs == initial
    {
      docs := initial;
    }
  }
}
