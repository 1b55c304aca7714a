/** The article handlers (server/controllers/articleController.js). Each
    handler is a run of guards with early returns followed by in-place field
    updates on the loaded document and a `save()`. The pure functions give
    each handler's effect on the collection as a value; the methods carry
    out the same steps on an `ArticleCollection` and are proved equal to
    them. The HTML sanitizer is an oracle: the methods take it as a
    parameter, the functions take its output. */
module ArticleController {
  import opened Common
  import opened UserModel
  import opened ArticleModel
  import Text

  /** A handler's status together with the collection it leaves behind. */
  datatype Reply = Reply(status: HttpStatus, store: map<Id, Article>)

  /** The two statuses from which an article may be edited or submitted. */
  predicate Editable(s: Status) {
    s == Draft || s == Rejected
  }

  /** `await doc.save()`: a document failing schema validation throws, which
      the handler's `catch` turns into a 500. */
  function SaveReply(store: map<Id, Article>, id: Id, a: Article): (r: Reply)
    ensures r.status == Ok <==> SchemaValid(a)
    ensures r.store == if SchemaValid(a) then store[id := a] else store
    ensures r.status == Ok || r.status == ServerError
  {
    if SchemaValid(a) then Reply(Ok, store[id := a]) else Reply(ServerError, store)
  }

  // ---------------------------------------------------------------- create

  /** `createArticle`: a new draft by the caller whose content is
      `sanitized`, the sanitizer's output for the request's content. `newId`
      is the id the database assigns; inserting over an existing id fails
      like any other write error. */
  function Create(store: map<Id, Article>, caller: Caller, title: string, sanitized: string,
                  newId: Id): (r: Reply)
    ensures r.status == Created || r.status == ServerError
    ensures r.status == ServerError ==> r.store == store
    ensures r.status == Created <==>
      newId !in store && SchemaValid(NewArticle(title, sanitized, caller.id))
    ensures r.status == Created ==>
      && r.store.Keys == store.Keys + {newId}
      && (forall id :: id in store ==> r.store[id] == store[id])
      && var a := r.store[newId];
         a.status == Draft && a.author == caller.id && a.content == sanitized
         && a.title == Text.Trim(title) && a.assignedEditor == None && a.approvedBy == None
         && a.rejectionComment == ""
  {
    var a := NewArticle(title, sanitized, caller.id);
    if !SchemaValid(a) || newId in store then Reply(ServerError, store)
    else Reply(Created, store[newId := a])
  }

  method CreateArticle(articles: ArticleCollection, caller: Caller, title: string, content: string,
                       newId: Id, sanitize: string -> string) returns (status: HttpStatus)
    modifies articles
    ensures Reply(status, articles.docs) == Create(old(articles.docs), caller, title, sanitize(content), newId)
  {
    var sanitizedContent := sanitize(content);
    var article := NewArticle(title, sanitizedContent, caller.id);
    if !SchemaValid(article) || newId in articles.docs {
      return ServerError;
    }
    articles.docs := articles.docs[newId := article];
    return Created;
  }

  // ---------------------------------------------------------------- update

  /** The in-place edits of `updateArticle`: a truthy (non-empty) title goes
      through the trim setter, a truthy content is replaced by `sanitized`,
      the sanitizer's output for it; nothing else changes. */
  function Edited(a: Article, title: string, content: string, sanitized: string): (b: Article)
    ensures b.title == (if title != "" then Text.Trim(title) else a.title)
    ensures b.content == (if content != "" then sanitized else a.content)
    ensures b == a.(title := b.title, content := b.content)
  {
    var a := if title != "" then SetTitle(a, title) else a;
    if content != "" then a.(content := sanitized) else a
  }

  /** `updateArticle`: 404, then 403 unless the caller wrote the article,
      then 400 unless it is a draft or rejected; then the edits are saved. */
  function Update(store: map<Id, Article>, caller: Caller, id: Id, title: string, content: string,
                  sanitized: string): (r: Reply)
    ensures id !in store ==> r == Reply(NotFound, store)
    ensures id in store && store[id].author != caller.id ==> r == Reply(Forbidden, store)
    ensures id in store && store[id].author == caller.id && !Editable(store[id].status) ==>
      r == Reply(BadRequest, store)
    ensures r.status == Ok ==>
      && id in store && store[id].author == caller.id && Editable(store[id].status)
      && r.store == store[id := Edited(store[id], title, content, sanitized)]
    ensures id in store && store[id].author == caller.id && Editable(store[id].status) ==>
      r == SaveReply(store, id, Edited(store[id], title, content, sanitized))
    ensures r.status != Ok ==> r.store == store
  {
    if id !in store then Reply(NotFound, store)
    else if store[id].author != caller.id then Reply(Forbidden, store)
    else if !Editable(store[id].status) then Reply(BadRequest, store)
    else SaveReply(store, id, Edited(store[id], title, content, sanitized))
  }

  method UpdateArticle(articles: ArticleCollection, caller: Caller, id: Id, title: string, content: string,
                       sanitize: string -> string) returns (status: HttpStatus)
    modifies articles
    ensures Reply(status, articles.docs) == Update(old(articles.docs), caller, id, title, content, sanitize(content))
  {
    if id !in articles.docs {
      return NotFound;
    }
    var article := articles.docs[id];
    if article.author != caller.id {
      return Forbidden;
    }
    if !Editable(article.status) {
      return BadRequest;
    }
    if title != "" {
      article := SetTitle(article, title);
    }
    if content != "" {
      article := article.(content := sanitize(content));
    }
    var saved := articles.Save(id, article);
    status := if saved then Ok else ServerError;
  }

  // ---------------------------------------------------------------- submit

  /** `submitArticle`. The editor is checked first, before the article is
      loaded: it must be an existing user whose role is `editor`; whether
      that user is active is not checked. */
  function Submit(store: map<Id, Article>, users: map<Id, User>, caller: Caller, id: Id,
                  editorId: string, now: Time): (r: Reply)
    ensures editorId == "" || editorId !in users || users[editorId].role != Editor ==>
      r == Reply(BadRequest, store)
    ensures editorId != "" && editorId in users && users[editorId].role == Editor ==>
      && (id !in store ==> r == Reply(NotFound, store))
      && (id in store && store[id].author != caller.id ==> r == Reply(Forbidden, store))
      && (id in store && store[id].author == caller.id && !Editable(store[id].status) ==>
            r == Reply(BadRequest, store))
    ensures r.status == Ok ==>
      && editorId in users && users[editorId].role == Editor
      && id in store && store[id].author == caller.id && Editable(store[id].status)
      && r.store == store[id := store[id].(status := Submitted, assignedEditor := Some(editorId),
                                           submittedAt := Some(now), rejectionComment := "")]
    ensures editorId != "" && editorId in users && users[editorId].role == Editor
            && id in store && store[id].author == caller.id && Editable(store[id].status) ==>
      r == SaveReply(store, id, store[id].(status := Submitted, assignedEditor := Some(editorId),
                                           submittedAt := Some(now), rejectionComment := ""))
    ensures r.status != Ok ==> r.store == store
  {
    if editorId == "" then Reply(BadRequest, store)
    else if editorId !in users || users[editorId].role != Editor then Reply(BadRequest, store)
    else if id !in store then Reply(NotFound, store)
    else if store[id].author != caller.id then Reply(Forbidden, store)
    else if !Editable(store[id].status) then Reply(BadRequest, store)
    else
      SaveReply(store, id, store[id].(status := Submitted, assignedEditor := Some(editorId),
                                      submittedAt := Some(now), rejectionComment := ""))
  }

  method SubmitArticle(articles: ArticleCollection, users: UserCollection, caller: Caller, id: Id,
                       editorId: string, now: Time) returns (status: HttpStatus)
    modifies articles
    ensures Reply(status, articles.docs) == Submit(old(articles.docs), users.docs, caller, id, editorId, now)
  {
    if editorId == "" {
      return BadRequest;
    }
    if editorId !in users.docs || users.docs[editorId].role != Editor {
      return BadRequest;
    }
    if id !in articles.docs {
      return NotFound;
    }
    var article := articles.docs[id];
    if article.author != caller.id {
      return Forbidden;
    }
    if !Editable(article.status) {
      return BadRequest;
    }
    article := article.(status := Submitted);
    article := article.(assignedEditor := Some(editorId));
    article := article.(submittedAt := Some(now));
    article := article.(rejectionComment := "");
    var saved := articles.Save(id, article);
    status := if saved then Ok else ServerError;
  }

  // --------------------------------------------------------------- approve

  /** `approveArticle`: 404, then 403 unless the caller is the assigned
      editor, and only then 400 unless the article is submitted. */
  function Approve(store: map<Id, Article>, caller: Caller, id: Id, now: Time): (r: Reply)
    ensures id !in store ==> r == Reply(NotFound, store)
    ensures id in store && store[id].assignedEditor != Some(caller.id) ==> r == Reply(Forbidden, store)
    ensures id in store && store[id].assignedEditor == Some(caller.id) && store[id].status != Submitted ==>
      r == Reply(BadRequest, store)
    ensures r.status == Ok ==>
      && id in store && store[id].assignedEditor == Some(caller.id) && store[id].status == Submitted
      && r.store == store[id := store[id].(status := Approved, approvedBy := Some(caller.id),
                                           reviewedAt := Some(now), rejectionComment := "")]
    ensures id in store && store[id].assignedEditor == Some(caller.id) && store[id].status == Submitted ==>
      r == SaveReply(store, id, store[id].(status := Approved, approvedBy := Some(caller.id),
                                           reviewedAt := Some(now), rejectionComment := ""))
    ensures r.status != Ok ==> r.store == store
  {
    if id !in store then Reply(NotFound, store)
    else if store[id].assignedEditor != Some(caller.id) then Reply(Forbidden, store)
    else if store[id].status != Submitted then Reply(BadRequest, store)
    else
      SaveReply(store, id, store[id].(status := Approved, approvedBy := Some(caller.id),
                                      reviewedAt := Some(now), rejectionComment := ""))
  }

  method ApproveArticle(articles: ArticleCollection, caller: Caller, id: Id, now: Time)
    returns (status: HttpStatus)
    modifies articles
    ensures Reply(status, articles.docs) == Approve(old(articles.docs), caller, id, now)
  {
    if id !in articles.docs {
      return NotFound;
    }
    var article := articles.docs[id];
    if article.assignedEditor != Some(caller.id) {
      return Forbidden;
    }
    if article.status != Submitted {
      return BadRequest;
    }
    article := article.(status := Approved);
    article := article.(approvedBy := Some(caller.id));
    article := article.(reviewedAt := Some(now));
    article := article.(rejectionComment := "");
    var saved := articles.Save(id, article);
    status := if saved then Ok else ServerError;
  }

  // ---------------------------------------------------------------- reject

  /** `rejectArticle`: a blank comment is refused before the article is
      loaded; then the guards of `approveArticle`. `approvedBy` is left as
      it was. */
  function Reject(store: map<Id, Article>, caller: Caller, id: Id, comment: string, now: Time): (r: Reply)
    ensures Text.Trim(comment) == "" ==> r == Reply(BadRequest, store)
    ensures Text.Trim(comment) != "" ==>
      && (id !in store ==> r == Reply(NotFound, store))
      && (id in store && store[id].assignedEditor != Some(caller.id) ==> r == Reply(Forbidden, store))
      && (id in store && store[id].assignedEditor == Some(caller.id) && store[id].status != Submitted ==>
            r == Reply(BadRequest, store))
    ensures r.status == Ok ==>
      && comment != "" && Text.Trim(comment) != ""
      && id in store && store[id].assignedEditor == Some(caller.id) && store[id].status == Submitted
      && r.store == store[id := store[id].(status := Rejected, rejectionComment := comment,
                                           reviewedAt := Some(now))]
    ensures Text.Trim(comment) != ""
            && id in store && store[id].assignedEditor == Some(caller.id) && store[id].status == Submitted ==>
      r == SaveReply(store, id, store[id].(status := Rejected, rejectionComment := comment,
                                           reviewedAt := Some(now)))
    ensures r.status != Ok ==> r.store == store
  {
    if comment == "" || Text.Trim(comment) == "" then Reply(BadRequest, store)
    else if id !in store then Reply(NotFound, store)
    else if store[id].assignedEditor != Some(caller.id) then Reply(Forbidden, store)
    else if store[id].status != Submitted then Reply(BadRequest, store)
    else
      SaveReply(store, id, store[id].(status := Rejected, rejectionComment := comment,
                                      reviewedAt := Some(now)))
  }

  method RejectArticle(articles: ArticleCollection, caller: Caller, id: Id, comment: string, now: Time)
    returns (status: HttpStatus)
    modifies articles
    ensures Reply(status, articles.docs) == Reject(old(articles.docs), caller, id, comment, now)
  {
    if comment == "" || Text.Trim(comment) == "" {
      return BadRequest;
    }
    if id !in articles.docs {
      return NotFound;
    }
    var article := articles.docs[id];
    if article.assignedEditor != Some(caller.id) {
      return Forbidden;
    }
    if article.status != Submitted {
      return BadRequest;
    }
    article := article.(status := Rejected);
    article := article.(rejectionComment := comment);
    article := article.(reviewedAt := Some(now));
    var saved := articles.Save(id, article);
    status := if saved then Ok else ServerError;
  }

  // ---------------------------------------------------------------- delete

  /** `deleteArticle`: only the author or an admin; an author who is not an
      admin only while the article is a draft; an admin at any status. */
  function Delete(store: map<Id, Article>, caller: Caller, id: Id): (r: Reply)
    ensures id !in store ==> r == Reply(NotFound, store)
    ensures id in store ==>
      var isAuthor := store[id].author == caller.id;
      var isAdmin := caller.role == Admin;
      && (!isAuthor && !isAdmin ==> r == Reply(Forbidden, store))
      && (isAuthor && !isAdmin && store[id].status != Draft ==> r == Reply(BadRequest, store))
      && (isAdmin || (isAuthor && store[id].status == Draft) ==> r == Reply(Ok, store - {id}))
    ensures r.status == Ok ==> r.store.Keys == store.Keys - {id} && forall k :: k in r.store ==> r.store[k] == store[k]
  {
    if id !in store then Reply(NotFound, store)
    else
      var isAuthor := store[id].author == caller.id;
      var isAdmin := caller.role == Admin;
      if !isAuthor && !isAdmin then Reply(Forbidden, store)
      else if isAuthor && !isAdmin && store[id].status != Draft then Reply(BadRequest, store)
      else Reply(Ok, store - {id})
  }

  method DeleteArticle(articles: ArticleCollection, caller: Caller, id: Id) returns (status: HttpStatus)
    modifies articles
    ensures Reply(status, articles.docs) == Delete(old(articles.docs), caller, id)
  {
    if id !in articles.docs {
      return NotFound;
    }
    var article := articles.docs[id];
    var isAuthor := article.author == caller.id;
    var isAdmin := caller.role == Admin;
    if !isAuthor && !isAdmin {
      return Forbidden;
    }
    if isAuthor && !isAdmin && article.status != Draft {
      return BadRequest;
    }
    articles.Remove(id);
    return Ok;
  }

  // --------------------------------------------------------------- reading

  /** `getArticleById`'s answer: the status and, on success, the article. */
  datatype ViewReply = ViewReply(status: HttpStatus, article: Option<Article>)

  /** `getArticleById`: 404 for a missing id; an article that is not
      approved is shown only to a signed-in caller who wrote it, is its
      assigned editor, or is an admin; an approved article to anyone. */
  function GetById(store: map<Id, Article>, user: Option<Caller>, id: Id): (r: ViewReply)
    ensures r.status == NotFound <==> id !in store
    ensures r.status == Ok <==>
      && id in store
      && (|| store[id].status == Approved
          || (&& user.Some?
              && (|| store[id].author == user.value.id
                  || store[id].assignedEditor == Some(user.value.id)
                  || user.value.role == Admin)))
    ensures r.status == Ok ==> r.article == Some(store[id])
    ensures r.status != Ok ==> r.article == None && (r.status == NotFound || r.status == Forbidden)
  {
    if id !in store then ViewReply(NotFound, None)
    else
      var a := store[id];
      if a.status != Approved && user.None? then ViewReply(Forbidden, None)
      else if user.Some? &&
        var isAuthor := a.author == user.value.id;
        var isEditor := a.assignedEditor == Some(user.value.id);
        var isAdmin := user.value.role == Admin;
        a.status != Approved && !isAuthor && !isEditor && !isAdmin
      then ViewReply(Forbidden, None)
      else ViewReply(Ok, Some(a))
  }

  /** The query-string parameters of `getArticles`; an absent one is "". */
  datatype ListParams = ListParams(status: string, search: string, author: string, editor: string)

  /** The `$or` clause of the query. */
  datatype AnyOf =
    | AssignedOrApprovedBy(editor: Id)   // [{assignedEditor: id}, {approvedBy: id}]
    | TitleMatches(pattern: string)      // [{title: {$regex: pattern, $options: 'i'}}]

  /** The query object `getArticles` hands to `Article.find`. */
  datatype ArticleQuery = ArticleQuery(
    status: Option<string>,
    author: Option<Id>,
    assignedEditor: Option<Id>,
    anyOf: Option<AnyOf>)

  /** Whether a document satisfies a query. The regular-expression test on
      the title is the oracle `titleMatches(title, pattern)`. */
  predicate Matches(q: ArticleQuery, a: Article, titleMatches: (string, string) -> bool) {
    && (q.status.Some? ==> StatusName(a.status) == q.status.value)
    && (q.author.Some? ==> a.author == q.author.value)
    && (q.assignedEditor.Some? ==> a.assignedEditor == Some(q.assignedEditor.value))
    && (q.anyOf.Some? ==>
          match q.anyOf.value
          case AssignedOrApprovedBy(e) => a.assignedEditor == Some(e) || a.approvedBy == Some(e)
          case TitleMatches(pattern) => titleMatches(a.title, pattern))
  }

  /** The query of `getArticles`, clause by clause: each clause is set by the
      role scoping unless a later request parameter overwrites it. */
  function ListQuery(user: Option<Caller>, p: ListParams): (q: ArticleQuery)
    ensures user.Some? && user.value.role == Reader ==> q.status == Some("approved")
    ensures user.Some? && user.value.role == Writer && p.author == "" ==> q.author == Some(user.value.id)
    ensures user.Some? && user.value.role == Admin ==>
      q == ArticleQuery(if p.status != "" then Some(p.status) else None,
                        if p.author != "" then Some(p.author) else None,
                        if p.editor != "" then Some(p.editor) else None,
                        if p.search != "" then Some(TitleMatches(p.search)) else None)
  {
    var role := if user.Some? then Some(user.value.role) else None;
    var isReader := role == Some(Reader);
    ArticleQuery(
      status :=
        if p.status != "" && !isReader then Some(p.status)
        else if role.None? || isReader then Some("approved")
        else None,
      author :=
        if p.author != "" then Some(p.author)
        else if role == Some(Writer) then Some(user.value.id)
        else None,
      assignedEditor :=
        if p.editor != "" then Some(p.editor)
        else if role == Some(Editor) && p.status != "" then Some(user.value.id)
        else None,
      anyOf :=
        if p.search != "" then Some(TitleMatches(p.search))
        else if role == Some(Editor) && p.status == "" then Some(AssignedOrApprovedBy(user.value.id))
        else None)
  }

  /** `getArticles` building its query field by field: role scoping first,
      then the `status`, `author`, `editor` and `search` parameters. */
  method BuildListQuery(user: Option<Caller>, p: ListParams) returns (q: ArticleQuery)
    ensures q == ListQuery(user, p)
  {
    q := ArticleQuery(None, None, None, None);
    if user.None? {
      q := q.(status := Some("approved"));
    } else {
      match user.value.role {
        case Reader =>
          q := q.(status := Some("approved"));
        case Writer =>
          q := q.(author := Some(user.value.id));
        case Editor =>
          if p.status == "" {
            q := q.(anyOf := Some(AssignedOrApprovedBy(user.value.id)));
          } else {
            q := q.(assignedEditor := Some(user.value.id));
          }
        case Admin =>
      }
    }
    if p.status != "" && !(user.Some? && user.value.role == Reader) {
      q := q.(status := Some(p.status));
    }
    if p.author != "" {
      q := q.(author := Some(p.author));
    }
    if p.editor != "" {
      q := q.(assignedEditor := Some(p.editor));
    }
    if p.search != "" {
      q := q.(anyOf := Some(TitleMatches(p.search)));
    }
  }

  /** Whatever the parameters, a reader lists only approved articles. */
  lemma ReaderListsOnlyApproved(c: Caller, p: ListParams, a: Article, titleMatches: (string, string) -> bool)
    requires c.role == Reader
    requires Matches(ListQuery(Some(c), p), a, titleMatches)
    ensures a.status == Approved
  {
    StatusNamesDistinct(a.status, Approved);
  }

  /** Without an `author` parameter a writer lists only their own articles. */
  lemma WriterListsOwn(c: Caller, p: ListParams, a: Article, titleMatches: (string, string) -> bool)
    requires c.role == Writer && p.author == ""
    requires Matches(ListQuery(Some(c), p), a, titleMatches)
    ensures a.author == c.id
  {
  }

  /** The `author` parameter replaces a writer's own-articles scope: a writer
      passing another author's id lists that author's articles, drafts
      included. */
  lemma WriterAuthorParameterOverridesScope(c: Caller, other: Id, a: Article, titleMatches: (string, string) -> bool)
    requires c.role == Writer && other != ""
    ensures Matches(ListQuery(Some(c), ListParams("", "", other, "")), a, titleMatches) <==> a.author == other
  {
  }

  /** With no parameters an editor lists the articles assigned to them or
      approved by them. */
  lemma EditorDefaultScope(c: Caller, a: Article, titleMatches: (string, string) -> bool)
    requires c.role == Editor
    ensures Matches(ListQuery(Some(c), ListParams("", "", "", "")), a, titleMatches) <==>
      a.assignedEditor == Some(c.id) || a.approvedBy == Some(c.id)
  {
  }

  /** With a `status` parameter an editor's scope narrows to the articles
      assigned to them in that status. */
  lemma EditorStatusScope(c: Caller, s: string, a: Article, titleMatches: (string, string) -> bool)
    requires c.role == Editor && s != ""
    ensures Matches(ListQuery(Some(c), ListParams(s, "", "", "")), a, titleMatches) <==>
      a.assignedEditor == Some(c.id) && StatusName(a.status) == s
  {
  }

  /** The `editor` parameter replaces an editor's own assignment: an editor
      passing a status and another editor's id lists that editor's articles
      in that status. */
  lemma EditorParameterOverridesScope(c: Caller, s: string, other: Id, a: Article,
                                      titleMatches: (string, string) -> bool)
    requires c.role == Editor && s != "" && other != ""
    ensures Matches(ListQuery(Some(c), ListParams(s, "", "", other)), a, titleMatches) <==>
      a.assignedEditor == Some(other) && StatusName(a.status) == s
  {
  }

  /** A `search` parameter replaces the editor's `$or` scope: an editor
      searching lists every article whose title matches. */
  lemma EditorSearchDropsScope(c: Caller, pattern: string, a: Article, titleMatches: (string, string) -> bool)
    requires c.role == Editor && pattern != ""
    ensures Matches(ListQuery(Some(c), ListParams("", pattern, "", "")), a, titleMatches) <==>
      titleMatches(a.title, pattern)
  {
  }

  /** With no parameters an admin lists every article. */
  lemma AdminListsAll(c: Caller, a: Article, titleMatches: (string, string) -> bool)
    requires c.role == Admin
    ensures Matches(ListQuery(Some(c), ListParams("", "", "", "")), a, titleMatches)
  {
  }

  /** In the branch for a request without `req.user` the `status` parameter
      still overwrites `approved` (`req.user?.role` is not `'reader'`). The
      router puts `protect` in front of this handler, so the branch is never
      taken. */
  lemma AnonymousStatusParameterOverrides(s: string, a: Article, titleMatches: (string, string) -> bool)
    requires s != ""
    ensures Matches(ListQuery(None, ListParams(s, "", "", "")), a, titleMatches) <==> StatusName(a.status) == s
  {
  }

  /** `searchArticles`: a blank `q` is a 400; otherwise approved articles
      whose title matches `q`. Sorting and the limit of 20 are not modelled. */
  function SearchQuery(q: string): (r: Option<ArticleQuery>)
    ensures r.None? <==> Text.Trim(q) == ""
    ensures r.Some? ==> r.value.status == Some("approved") && r.value.anyOf == Some(TitleMatches(q))
  {
    if q == "" || Text.Trim(q) == "" then None
    else Some(ArticleQuery(Some("approved"), None, None, Some(TitleMatches(q))))
  }

  /** The public search finds approved articles only. */
  lemma SearchFindsOnlyApproved(q: string, a: Article, titleMatches: (string, string) -> bool)
    requires SearchQuery(q).Some? && Matches(SearchQuery(q).value, a, titleMatches)
    ensures a.status == Approved && titleMatches(a.title, q)
  {
    StatusNamesDistinct(a.status, Approved);
  }

  /** The formatted part of `getArticleStats`: the total and the per-status
      counts of the `$group` stage. */
  datatype ArticleStatsView = ArticleStatsView(total: nat, byStatus: map<Status, nat>)

  function FormatArticleStats(total: nat, groups: seq<(Status, nat)>): (v: ArticleStatsView)
    ensures v.total == total
    ensures v.byStatus.Keys == set i | 0 <= i < |groups| :: groups[i].0
  {
    ArticleStatsView(total, IndexCounts(groups))
  }

  /** `$group` yields one row per status, so each status's row is its count. */
  lemma ArticleStatsCountsEachStatus(total: nat, groups: seq<(Status, nat)>)
    requires forall i, j :: 0 <= i < j < |groups| ==> groups[i].0 != groups[j].0
    ensures forall i :: 0 <= i < |groups| ==> FormatArticleStats(total, groups).byStatus[groups[i].0] == groups[i].1
  {
    IndexCountsDistinct(groups);
  }
}
