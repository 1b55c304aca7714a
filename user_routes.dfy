/** The user router (server/routes/userRoutes.js): every route behind
    `protect`, a role list per route, and the role-change validator. */
module UserRoutes {
  import opened Common
  import opened UserModel
  import Auth

  datatype Route =
    | ListEditors    // GET /editors
    | ListWriters    // GET /writers
    | UserStats      // GET /stats
    | ListUsers      // GET /
    | GetUser        // GET /:id
    | ChangeRole     // PUT /:id/role
    | ToggleStatus   // PUT /:id/toggle-status

  datatype ValidationError = RoleRequired | RoleNotAllowed

  /** `updateRoleValidation`: `role` must be present and one of `editor`,
      `writer`; both checks run. */
  function RoleValidation(role: string): (errors: seq<ValidationError>)
    ensures errors == [] <==> role == "editor" || role == "writer"
    ensures RoleRequired in errors <==> role == ""
    ensures RoleRequired in errors ==> RoleNotAllowed in errors
  {
    (if role == "" then [RoleRequired] else [])
    + (if role != "editor" && role != "writer" then [RoleNotAllowed] else [])
  }

  /** The roles of each route's `authorize(...)`. */
  function AllowedRoles(r: Route): (roles: seq<Role>)
    ensures Admin in roles
  {
    match r
    case ListEditors => [Writer, Editor, Admin]
    case ListWriters => [Admin, Editor]
    case _ => [Admin]
  }

  /** The middleware chain: `protect`, the route's `authorize`, then for the
      role change its validator. */
  function Pipeline(r: Route, auth: Auth.AuthOutcome, role: string): (s: Auth.Stage)
    ensures auth.Unauthenticated? ==> s == Auth.Respond(Unauthorized)
    ensures auth.Authenticated? && auth.caller.role !in AllowedRoles(r) ==> s == Auth.Respond(Forbidden)
    ensures auth.Authenticated? && auth.caller.role in AllowedRoles(r) ==>
      s == (if r == ChangeRole && RoleValidation(role) != [] then Auth.Respond(BadRequest)
            else Auth.Handle(Some(auth.caller)))
    ensures s.Handle? ==> auth.Authenticated? && s.user == Some(auth.caller)
    ensures s.Respond? ==> s.status in {Unauthorized, Forbidden, BadRequest}
  {
    if auth.Unauthenticated? then Auth.Respond(Unauthorized)
    else
      var afterRoles := Auth.Authorize(AllowedRoles(r), auth.caller);
      if afterRoles.Respond? then afterRoles
      else if r == ChangeRole && RoleValidation(role) != [] then Auth.Respond(BadRequest)
      else afterRoles
  }

  /** Statistics, the user list, a single user, role changes and status
      toggles are for admins, and every admin reaches them (a role change
      also needs a valid role). */
  lemma AdminOnlyRoutes(r: Route, auth: Auth.AuthOutcome, role: string)
    requires r in {UserStats, ListUsers, GetUser, ChangeRole, ToggleStatus}
    ensures Pipeline(r, auth, role).Handle? <==>
      auth.Authenticated? && auth.caller.role == Admin && (r == ChangeRole ==> RoleValidation(role) == [])
  {
  }

  /** Writers, editors and admins may list the editors; readers may not. */
  lemma EditorsListAccess(auth: Auth.AuthOutcome, role: string)
    ensures Pipeline(ListEditors, auth, role).Handle? <==> auth.Authenticated? && auth.caller.role != Reader
  {
  }

  /** Admins and editors may list the writers. */
  lemma WritersListAccess(auth: Auth.AuthOutcome, role: string)
    ensures Pipeline(ListWriters, auth, role).Handle? <==>
      auth.Authenticated? && auth.caller.role in {Admin, Editor}
  {
  }
}
