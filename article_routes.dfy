/** The article router (server/routes/articleRoutes.js): the body validators
    with their sanitizers, and the middleware chain in front of each handler.
    server/middleware/validate.js is not part of this model; it is taken to
    answer 400 whenever the route's validators reported an error. */
module ArticleRoutes {
  import opened Common
  import opened UserModel
  import Text
  import Auth
  import ArticleModel

  datatype Route =
    | SearchArticles   // GET    /search
    | CreateArticle    // POST   /
    | ArticleStats     // GET    /stats
    | ListArticles     // GET    /
    | GetArticle       // GET    /:id
    | UpdateArticle    // PUT    /:id
    | DeleteArticle    // DELETE /:id
    | SubmitArticle    // PUT    /:id/submit
    | ApproveArticle   // PUT    /:id/approve
    | RejectArticle    // PUT    /:id/reject

  /** The request body fields the validators look at; an absent field is "". */
  datatype Body = Body(title: string, content: string, editorId: string, comment: string)

  datatype ValidationError =
    | TitleRequired | TitleLength
    | ContentRequired | ContentLength
    | EditorRequired | EditorNotMongoId
    | CommentRequired | CommentLength

  const MinTitleLength: nat := 5
  const MinContentLength: nat := 50
  const MinCommentLength: nat := 10

  /** `articleValidation`. Each chain runs all its validators, so an empty
      title reports both its errors. Content length counts the raw text,
      markup included. */
  function ArticleValidation(title: string, content: string): (errors: seq<ValidationError>)
    ensures errors == [] <==>
      MinTitleLength <= |Text.Trim(title)| <= ArticleModel.MaxTitleLength && |Text.Trim(content)| >= MinContentLength
    ensures TitleRequired in errors <==> Text.Trim(title) == ""
    ensures TitleRequired in errors ==> TitleLength in errors
    ensures ContentRequired in errors <==> Text.Trim(content) == ""
    ensures ContentRequired in errors ==> ContentLength in errors
  {
    TrimmedArticleErrors(Text.Trim(title), Text.Trim(content))
  }

  /** The two chains of `articleValidation` on the trimmed title `t` and
      content `c`. */
  function TrimmedArticleErrors(t: string, c: string): seq<ValidationError> {
    (if t == "" then [TitleRequired] else [])
    + (if |t| < MinTitleLength || |t| > ArticleModel.MaxTitleLength then [TitleLength] else [])
    + (if c == "" then [ContentRequired] else [])
    + (if |c| < MinContentLength then [ContentLength] else [])
  }

  predicate IsHexDigit(c: char) {
    '0' <= c <= '9' || 'a' <= c <= 'f' || 'A' <= c <= 'F'
  }

  /** The validator library's `isHexadecimal`, `/^(0x|0h)?[0-9a-f]+$/i`. */
  predicate IsHexadecimal(s: string) {
    var digits := if |s| >= 2 && s[0] == '0' && s[1] in "xXhH" then s[2..] else s;
    digits != [] && forall i :: 0 <= i < |digits| ==> IsHexDigit(digits[i])
  }

  /** `isMongoId`: hexadecimal and 24 characters long. */
  predicate IsMongoId(s: string) {
    IsHexadecimal(s) && |s| == 24
  }

  /** `isMongoId` also admits a `0x`-prefixed string, which is not the text of
      an ObjectId. */
  lemma MongoIdAdmitsHexPrefix()
    ensures IsMongoId("0x" + "0123456789abcdef012345")
    ensures !IsHexDigit(("0x" + "0123456789abcdef012345")[1])
  {
    var d := "0123456789abcdef012345";
    var s := "0x" + d;
    assert s[2..] == d;
    forall i | 0 <= i < |d| ensures IsHexDigit(d[i]) {
      assert d[i] in "0123456789abcdef";
    }
  }

  /** `submitValidation` (no sanitizer on `editorId`). */
  function SubmitValidation(editorId: string): (errors: seq<ValidationError>)
    ensures errors == [] <==> IsMongoId(editorId)
    ensures errors == [] ==> editorId != ""
  {
    (if editorId == "" then [EditorRequired] else [])
    + (if !IsMongoId(editorId) then [EditorNotMongoId] else [])
  }

  /** `rejectValidation`: the trimmed comment must have at least 10 characters. */
  function RejectValidation(comment: string): (errors: seq<ValidationError>)
    ensures errors == [] <==> |Text.Trim(comment)| >= MinCommentLength
    ensures CommentRequired in errors <==> Text.Trim(comment) == ""
  {
    TrimmedCommentErrors(Text.Trim(comment))
  }

  /** The chain of `rejectValidation` on the trimmed comment `c`. */
  function TrimmedCommentErrors(c: string): seq<ValidationError> {
    (if c == "" then [CommentRequired] else [])
    + (if |c| < MinCommentLength then [CommentLength] else [])
  }

  /** The validators a route runs on the body. */
  function Validation(r: Route, body: Body): (errors: seq<ValidationError>)
    ensures r !in {CreateArticle, UpdateArticle, SubmitArticle, RejectArticle} ==> errors == []
  {
    match r
    case CreateArticle => ArticleValidation(body.title, body.content)
    case UpdateArticle => ArticleValidation(body.title, body.content)
    case SubmitArticle => SubmitValidation(body.editorId)
    case RejectArticle => RejectValidation(body.comment)
    case _ => []
  }

  /** The body the handler sees: the `trim()` sanitizers rewrite the fields
      they validate. */
  function SanitizedBody(r: Route, body: Body): (b: Body)
    ensures b.editorId == body.editorId
    ensures r in {CreateArticle, UpdateArticle} ==>
      b == body.(title := Text.Trim(body.title), content := Text.Trim(body.content))
    ensures r == RejectArticle ==> b == body.(comment := Text.Trim(body.comment))
    ensures r !in {CreateArticle, UpdateArticle, RejectArticle} ==> b == body
  {
    match r
    case CreateArticle => body.(title := Text.Trim(body.title), content := Text.Trim(body.content))
    case UpdateArticle => body.(title := Text.Trim(body.title), content := Text.Trim(body.content))
    case RejectArticle => body.(comment := Text.Trim(body.comment))
    case _ => body
  }

  /** The validators judge the trimmed fields, so the body they leave behind
      passes or fails them just as the request did. */
  lemma SanitizingKeepsValidation(r: Route, body: Body)
    ensures Validation(r, SanitizedBody(r, body)) == Validation(r, body)
  {
    match r
    case CreateArticle => ArticleValidationOfTrimmed(body.title, body.content);
    case UpdateArticle => ArticleValidationOfTrimmed(body.title, body.content);
    case RejectArticle => RejectValidationOfTrimmed(body.comment);
    case _ =>
  }

  lemma ArticleValidationOfTrimmed(title: string, content: string)
    ensures ArticleValidation(Text.Trim(title), Text.Trim(content)) == ArticleValidation(title, content)
  {
    Text.TrimIdempotent(title);
    Text.TrimIdempotent(content);
  }

  lemma RejectValidationOfTrimmed(comment: string)
    ensures RejectValidation(Text.Trim(comment)) == RejectValidation(comment)
  {
    Text.TrimIdempotent(comment);
  }

  /** The roles of each route's `authorize(...)`, `None` where it has none. */
  function AllowedRoles(r: Route): (roles: Option<seq<Role>>)
    ensures roles.None? <==> r in {SearchArticles, ListArticles, GetArticle}
    ensures roles.Some? ==> roles.value != [] && Reader !in roles.value
  {
    match r
    case CreateArticle => Some([Writer])
    case ArticleStats => Some([Admin])
    case UpdateArticle => Some([Writer])
    case DeleteArticle => Some([Writer, Admin])
    case SubmitArticle => Some([Writer])
    case ApproveArticle => Some([Editor])
    case RejectArticle => Some([Editor])
    case _ => None
  }

  /** The middleware chain of each route: `/search` is mounted before
      `router.use(protect)`; every other route goes through `protect`, then
      its `authorize`, then its validators. */
  function Pipeline(r: Route, auth: Auth.AuthOutcome, body: Body): (s: Auth.Stage)
    ensures r == SearchArticles ==> s == Auth.Handle(None)
    ensures r != SearchArticles && auth.Unauthenticated? ==> s == Auth.Respond(Unauthorized)
    ensures (r != SearchArticles && auth.Authenticated? && AllowedRoles(r).Some?
             && auth.caller.role !in AllowedRoles(r).value) ==> s == Auth.Respond(Forbidden)
    ensures r != SearchArticles && auth.Authenticated?
            && (AllowedRoles(r).None? || auth.caller.role in AllowedRoles(r).value) ==>
      s == (if Validation(r, body) != [] then Auth.Respond(BadRequest) else Auth.Handle(Some(auth.caller)))
    ensures r != SearchArticles && s.Handle? ==>
      auth.Authenticated? && s.user == Some(auth.caller) && Validation(r, body) == []
    ensures s.Respond? ==> s.status in {Unauthorized, Forbidden, BadRequest}
  {
    if r == SearchArticles then Auth.Handle(None)
    else if auth.Unauthenticated? then Auth.Respond(Unauthorized)
    else
      var afterRoles := if AllowedRoles(r).Some? then Auth.Authorize(AllowedRoles(r).value, auth.caller)
                        else Auth.Handle(Some(auth.caller));
      if afterRoles.Respond? then afterRoles
      else if Validation(r, body) != [] then Auth.Respond(BadRequest)
      else afterRoles
  }

  /** Only writers reach the create, update and submit handlers. */
  lemma OnlyWritersWrite(r: Route, auth: Auth.AuthOutcome, body: Body)
    requires r in {CreateArticle, UpdateArticle, SubmitArticle}
    ensures Pipeline(r, auth, body).Handle? <==>
      auth.Authenticated? && auth.caller.role == Writer && Validation(r, body) == []
  {
  }

  /** Only editors reach the approve and reject handlers. */
  lemma OnlyEditorsReview(r: Route, auth: Auth.AuthOutcome, body: Body)
    requires r in {ApproveArticle, RejectArticle}
    ensures Pipeline(r, auth, body).Handle? <==>
      auth.Authenticated? && auth.caller.role == Editor && Validation(r, body) == []
  {
  }

  /** Writers and admins, and no one else, reach the delete handler. */
  lemma DeleteByWriterOrAdmin(auth: Auth.AuthOutcome, body: Body)
    ensures Pipeline(DeleteArticle, auth, body).Handle? <==>
      auth.Authenticated? && auth.caller.role in {Writer, Admin}
  {
  }

  /** Only admins reach the statistics handler. */
  lemma StatsAdminOnly(auth: Auth.AuthOutcome, body: Body)
    ensures Pipeline(ArticleStats, auth, body).Handle? <==>
      auth.Authenticated? && auth.caller.role == Admin
  {
  }

  /** Listing and reading articles need a signed-in user but no role, so the
      handlers' branches for a request without `req.user` cannot be reached. */
  lemma ReadRoutesAlwaysAuthenticated(r: Route, auth: Auth.AuthOutcome, body: Body)
    requires r in {ListArticles, GetArticle}
    ensures Pipeline(r, auth, body).Handle? <==> auth.Authenticated?
    ensures Pipeline(r, auth, body).Handle? ==> Pipeline(r, auth, body).user.Some?
  {
  }

  /** A reject request that passes its validator carries, after the trim
      sanitizer, a comment that is non-blank, so the handler's own comment
      check never fires behind the router. */
  lemma ValidatedCommentIsNonBlank(body: Body)
    requires RejectValidation(body.comment) == []
    ensures var c := SanitizedBody(RejectArticle, body).comment;
      c != "" && Text.Trim(c) != "" && |c| >= MinCommentLength
  {
    Text.TrimIdempotent(body.comment);
  }

  /** A create or update that passes its validators hands the controller a
      title that the schema's trim setter leaves as it is and that fits the
      schema's 200-character bound. */
  lemma ValidatedTitleFitsSchema(r: Route, body: Body)
    requires r in {CreateArticle, UpdateArticle}
    requires Validation(r, body) == []
    ensures var t := SanitizedBody(r, body).title;
      Text.Trim(t) == t && MinTitleLength <= |t| <= ArticleModel.MaxTitleLength
  {
    Text.TrimIdempotent(body.title);
  }
}
