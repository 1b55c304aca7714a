/** The authentication and role middleware (server/middleware/auth.js).
    Token verification is an oracle: `verify` maps a token to the user id the
    token carries, or to `None` when the library refuses the token. */
module Auth {
  import opened Common
  import opened UserModel
  import Text

  /** Why `protect` answered 401. */
  datatype AuthFailure = NoToken | TokenFailed | UserNotFound | Inactive

  datatype AuthOutcome = Authenticated(caller: Caller) | Unauthenticated(reason: AuthFailure)

  /** Where a request stands after a chain of middleware: answered with a
      status, or handed on to the route handler with `req.user` (absent on a
      route that `protect` does not guard). */
  datatype Stage = Respond(status: HttpStatus) | Handle(user: Option<Caller>)

  /** The `if` of `protect`: an `Authorization` header starting with `Bearer`. */
  predicate HasBearer(authorization: Option<string>) {
    authorization.Some? && Text.StartsWith(authorization.value, "Bearer")
  }

  /** The id `jwt.verify` decodes from the header's token, `None` when it
      throws. The library always refuses a missing or empty token. */
  function DecodedId(authorization: Option<string>, verify: string -> Option<Id>): Option<Id> {
    if !HasBearer(authorization) then None
    else
      var token := Text.SecondField(authorization.value);
      if token.None? || token.value == "" then None else verify(token.value)
  }

  /** `protect`: step by step it takes the token from the header, verifies
      it, loads the user and refuses an inactive one. */
  method Protect(authorization: Option<string>, verify: string -> Option<Id>, users: map<Id, User>)
    returns (outcome: AuthOutcome)
    ensures outcome == Unauthenticated(NoToken) <==> !HasBearer(authorization)
    ensures outcome == Unauthenticated(TokenFailed) <==>
      HasBearer(authorization) && DecodedId(authorization, verify).None?
    ensures outcome == Unauthenticated(UserNotFound) <==>
      DecodedId(authorization, verify).Some? && DecodedId(authorization, verify).value !in users
    ensures outcome == Unauthenticated(Inactive) <==>
      var d := DecodedId(authorization, verify);
      d.Some? && d.value in users && !users[d.value].isActive
    ensures outcome.Authenticated? <==>
      var d := DecodedId(authorization, verify);
      d.Some? && d.value in users && users[d.value].isActive
    ensures outcome.Authenticated? ==>
      var id := DecodedId(authorization, verify).value;
      outcome.caller == Caller(id, users[id].role)
  {
    var token: Option<string> := None;
    if authorization.Some? && Text.StartsWith(authorization.value, "Bearer") {
      token := Text.SecondField(authorization.value);
      var decoded := if token.None? || token.value == "" then None else verify(token.value);
      if decoded.None? {
        return Unauthenticated(TokenFailed);
      }
      var id := decoded.value;
      if id !in users {
        return Unauthenticated(UserNotFound);
      }
      var user := users[id];
      if !user.isActive {
        return Unauthenticated(Inactive);
      }
      return Authenticated(Caller(id, user.role));
    }
    // `if (!token)`: only a request without a Bearer header gets here
    return Unauthenticated(NoToken);
  }

  /** `authorize(...roles)`: pass on when the caller's role is listed,
      answer 403 otherwise. */
  function Authorize(roles: seq<Role>, caller: Caller): (s: Stage)
    ensures s.Handle? <==> caller.role in roles
    ensures s.Handle? ==> s.user == Some(caller)
    ensures s.Respond? ==> s.status == Forbidden
  {
    if caller.role in roles then Handle(Some(caller)) else Respond(Forbidden)
  }

  /** A header that starts with `Bearer` but carries no space-separated token
      (`"Bearer"` alone, `"Bearertoken"`) fails as a bad token, never as a
      missing one, whatever the verifier would say. */
  lemma BearerWithoutTokenFails(authorization: string, verify: string -> Option<Id>)
    requires Text.StartsWith(authorization, "Bearer") && ' ' !in authorization
    ensures HasBearer(Some(authorization)) && DecodedId(Some(authorization), verify) == None
  {
  }
}
