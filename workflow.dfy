/** The editorial workflow as a whole: the article and user handlers applied
    one request after another to the two collections. The handlers are the
    functions of `ArticleController` and `UserController`; this module
    states what every sequence of requests keeps true, whoever sends them. */
module Workflow {
  import opened Common
  import opened UserModel
  import opened ArticleModel
  import opened ArticleController
  import UserController
  import UserRoutes
  import Auth
  import Text

  /** What the status of an article says about its other fields. */
  predicate WorkflowInvariant(a: Article) {
    // a draft has never been submitted or reviewed
    && (a.status == Draft ==> a.assignedEditor == None && a.submittedAt == None && a.reviewedAt == None)
    // every other status was reached through a submission to an editor
    && (a.status != Draft ==> a.assignedEditor.Some? && a.submittedAt.Some?)
    // a reviewed article carries its review time
    && (a.status == Approved || a.status == Rejected ==> a.reviewedAt.Some?)
    // only an approved article names its approver, and the approver is the assigned editor
    && (a.approvedBy.Some? <==> a.status == Approved)
    && (a.approvedBy.Some? ==> a.approvedBy == a.assignedEditor)
    // only a rejected article carries a comment, and it is not blank
    && (a.rejectionComment != "" <==> a.status == Rejected)
    && (a.status == Rejected ==> Text.Trim(a.rejectionComment) != "")
  }

  /** Every stored article passed the schema, has a title that went through
      the trim setter, and keeps the workflow invariant. */
  predicate StoreInvariant(store: map<Id, Article>) {
    forall id :: id in store ==> StoredValid(store[id])
  }

  predicate StoredValid(a: Article) {
    SchemaValid(a) && a.title == Text.Trim(a.title) && WorkflowInvariant(a)
  }

  /** The two collections. */
  datatype State = State(articles: map<Id, Article>, users: map<Id, User>)

  /** A request that reached its handler, with its authenticated caller. The
      sanitizer's output, the new id and the clock are part of the request. */
  datatype Request =
    | CreateReq(caller: Caller, title: string, sanitized: string, newId: Id)
    | UpdateReq(caller: Caller, id: Id, title: string, content: string, sanitized: string)
    | SubmitReq(caller: Caller, id: Id, editorId: string, now: Time)
    | ApproveReq(caller: Caller, id: Id, now: Time)
    | RejectReq(caller: Caller, id: Id, comment: string, now: Time)
    | DeleteReq(caller: Caller, id: Id)
    | ChangeRoleReq(caller: Caller, userId: Id, role: string)
    | ToggleReq(caller: Caller, userId: Id)

  /** One request handled. */
  function Step(s: State, req: Request): (t: State)
    ensures t.users.Keys == s.users.Keys
    ensures !req.ChangeRoleReq? && !req.ToggleReq? ==> t.users == s.users
    ensures req.ChangeRoleReq? || req.ToggleReq? ==> t.articles == s.articles
  {
    match req
    case CreateReq(c, title, sanitized, newId) =>
      s.(articles := Create(s.articles, c, title, sanitized, newId).store)
    case UpdateReq(c, id, title, content, sanitized) =>
      s.(articles := Update(s.articles, c, id, title, content, sanitized).store)
    case SubmitReq(c, id, editorId, now) =>
      s.(articles := Submit(s.articles, s.users, c, id, editorId, now).store)
    case ApproveReq(c, id, now) =>
      s.(articles := Approve(s.articles, c, id, now).store)
    case RejectReq(c, id, comment, now) =>
      s.(articles := Reject(s.articles, c, id, comment, now).store)
    case DeleteReq(c, id) =>
      s.(articles := Delete(s.articles, c, id).store)
    case ChangeRoleReq(c, userId, role) =>
      s.(users := UserController.ChangeRole(s.users, c, userId, role).users)
    case ToggleReq(c, userId) =>
      s.(users := UserController.Toggle(s.users, c, userId).users)
  }

  /** Requests handled in order. */
  function Run(s: State, reqs: seq<Request>): (t: State)
    ensures t.users.Keys == s.users.Keys
    ensures (forall i | 0 <= i < |reqs| :: !reqs[i].ChangeRoleReq? && !reqs[i].ToggleReq?) ==> t.users == s.users
    decreases |reqs|
  {
    if reqs == [] then s else Run(Step(s, reqs[0]), reqs[1..])
  }

  /** A store that differs from an invariant store at most at `id`, where it
      holds a valid article that keeps the workflow invariant, or nothing. */
  lemma UpdatedStoreInvariant(store: map<Id, Article>, t: map<Id, Article>, id: Id)
    requires StoreInvariant(store)
    requires forall k :: k in t && k != id ==> k in store && t[k] == store[k]
    requires id in t ==> StoredValid(t[id])
    ensures StoreInvariant(t)
  {
  }

  /** Creating an article keeps the invariant: the new draft is unassigned. */
  lemma CreateKeepsInvariant(store: map<Id, Article>, c: Caller, title: string, sanitized: string, newId: Id)
    requires StoreInvariant(store)
    ensures StoreInvariant(Create(store, c, title, sanitized, newId).store)
  {
    UpdatedStoreInvariant(store, Create(store, c, title, sanitized, newId).store, newId);
  }

  /** Editing touches only the title and the content. */
  lemma UpdateKeepsInvariant(store: map<Id, Article>, c: Caller, id: Id, title: string, content: string,
                             sanitized: string)
    requires StoreInvariant(store)
    ensures StoreInvariant(Update(store, c, id, title, content, sanitized).store)
  {
    UpdatedStoreInvariant(store, Update(store, c, id, title, content, sanitized).store, id);
  }

  /** A submission assigns an editor, stamps the time and clears the comment;
      it starts from a draft or a rejected article, neither of which names
      an approver. */
  lemma SubmitKeepsInvariant(store: map<Id, Article>, users: map<Id, User>, c: Caller, id: Id,
                             editorId: string, now: Time)
    requires StoreInvariant(store)
    ensures StoreInvariant(Submit(store, users, c, id, editorId, now).store)
  {
    UpdatedStoreInvariant(store, Submit(store, users, c, id, editorId, now).store, id);
  }

  /** The approver is the assigned editor, since only that editor passes the
      guard. */
  lemma ApproveKeepsInvariant(store: map<Id, Article>, c: Caller, id: Id, now: Time)
    requires StoreInvariant(store)
    ensures StoreInvariant(Approve(store, c, id, now).store)
  {
    UpdatedStoreInvariant(store, Approve(store, c, id, now).store, id);
  }

  /** A rejection stores a comment that is not blank. */
  lemma RejectKeepsInvariant(store: map<Id, Article>, c: Caller, id: Id, comment: string, now: Time)
    requires StoreInvariant(store)
    ensures StoreInvariant(Reject(store, c, id, comment, now).store)
  {
    UpdatedStoreInvariant(store, Reject(store, c, id, comment, now).store, id);
  }

  /** Deleting only removes. */
  lemma DeleteKeepsInvariant(store: map<Id, Article>, c: Caller, id: Id)
    requires StoreInvariant(store)
    ensures StoreInvariant(Delete(store, c, id).store)
  {
    var t := Delete(store, c, id).store;
    assert t == store || t == store - {id};
  }

  /** Every handler keeps the store invariant, whatever the caller. */
  lemma StepPreservesInvariant(s: State, req: Request)
    requires StoreInvariant(s.articles)
    ensures StoreInvariant(Step(s, req).articles)
  {
    match req {
      case CreateReq(_, _, _, _) => StepCreate(s, req);
      case UpdateReq(_, _, _, _, _) => StepUpdate(s, req);
      case SubmitReq(_, _, _, _) => StepSubmit(s, req);
      case ApproveReq(_, _, _) => StepApprove(s, req);
      case RejectReq(_, _, _, _) => StepReject(s, req);
      case DeleteReq(_, _) => StepDelete(s, req);
      case ChangeRoleReq(_, _, _) =>
      case ToggleReq(_, _) =>
    }
  }

  lemma StepCreate(s: State, req: Request)
    requires req.CreateReq? && StoreInvariant(s.articles)
    ensures StoreInvariant(Step(s, req).articles)
  {
    CreateKeepsInvariant(s.articles, req.caller, req.title, req.sanitized, req.newId);
  }

  lemma StepUpdate(s: State, req: Request)
    requires req.UpdateReq? && StoreInvariant(s.articles)
    ensures StoreInvariant(Step(s, req).articles)
  {
    UpdateKeepsInvariant(s.articles, req.caller, req.id, req.title, req.content, req.sanitized);
  }

  lemma StepSubmit(s: State, req: Request)
    requires req.SubmitReq? && StoreInvariant(s.articles)
    ensures StoreInvariant(Step(s, req).articles)
  {
    SubmitKeepsInvariant(s.articles, s.users, req.caller, req.id, req.editorId, req.now);
  }

  lemma StepApprove(s: State, req: Request)
    requires req.ApproveReq? && StoreInvariant(s.articles)
    ensures StoreInvariant(Step(s, req).articles)
  {
    ApproveKeepsInvariant(s.articles, req.caller, req.id, req.now);
  }

  lemma StepReject(s: State, req: Request)
    requires req.RejectReq? && StoreInvariant(s.articles)
    ensures StoreInvariant(Step(s, req).articles)
  {
    RejectKeepsInvariant(s.articles, req.caller, req.id, req.comment, req.now);
  }

  lemma StepDelete(s: State, req: Request)
    requires req.DeleteReq? && StoreInvariant(s.articles)
    ensures StoreInvariant(Step(s, req).articles)
  {
    DeleteKeepsInvariant(s.articles, req.caller, req.id);
  }

  /** Starting from a store that keeps the invariant — the empty one among
      them — any sequence of requests keeps it. */
  lemma {:induction false} RunPreservesInvariant(s: State, reqs: seq<Request>)
    requires StoreInvariant(s.articles)
    ensures StoreInvariant(Run(s, reqs).articles)
    decreases |reqs|
  {
    if reqs != [] {
      StepPreservesInvariant(s, reqs[0]);
      RunPreservesInvariant(Step(s, reqs[0]), reqs[1..]);
    }
  }

  /** No handler changes the author of a stored article. */
  lemma StepKeepsAuthor(s: State, req: Request, id: Id)
    requires id in s.articles && id in Step(s, req).articles
    ensures Step(s, req).articles[id].author == s.articles[id].author
  {
  }

  /** An approved article is final: a request either leaves it as it is or
      deletes it. */
  lemma StepKeepsApproved(s: State, req: Request, id: Id)
    requires id in s.articles && s.articles[id].status == Approved
    ensures id in Step(s, req).articles ==> Step(s, req).articles[id] == s.articles[id]
    ensures id !in Step(s, req).articles ==> req.DeleteReq? && req.id == id && req.caller.role == Admin
  {
  }

  /** Hence an approved article that no request deletes outlives any sequence
      of requests unchanged. */
  lemma {:induction false} RunKeepsApproved(s: State, reqs: seq<Request>, id: Id)
    requires id in s.articles && s.articles[id].status == Approved
    requires forall i :: 0 <= i < |reqs| ==> !(reqs[i].DeleteReq? && reqs[i].id == id)
    ensures id in Run(s, reqs).articles && Run(s, reqs).articles[id] == s.articles[id]
    decreases |reqs|
  {
    if reqs != [] {
      StepKeepsApproved(s, reqs[0], id);
      assert forall i :: 0 <= i < |reqs[1..]| ==> reqs[1..][i] == reqs[i + 1];
      RunKeepsApproved(Step(s, reqs[0]), reqs[1..], id);
    }
  }

  /** The admins of the user collection. */
  function Admins(users: map<Id, User>): set<Id> {
    set id | id in users && users[id].role == Admin
  }

  /** No request adds or removes a user or an admin. */
  lemma StepKeepsAdmins(s: State, req: Request)
    ensures Step(s, req).users.Keys == s.users.Keys
    ensures Admins(Step(s, req).users) == Admins(s.users)
  {
    if req.ChangeRoleReq? {
      UserController.ChangeRoleKeepsAdmins(s.users, req.caller, req.userId, req.role);
    }
  }

  lemma {:induction false} RunKeepsAdmins(s: State, reqs: seq<Request>)
    ensures Run(s, reqs).users.Keys == s.users.Keys
    ensures Admins(Run(s, reqs).users) == Admins(s.users)
    decreases |reqs|
  {
    if reqs != [] {
      StepKeepsAdmins(s, reqs[0]);
      RunKeepsAdmins(Step(s, reqs[0]), reqs[1..]);
    }
  }

  /** Approving a draft is answered 403, not 400: nobody is assigned to a
      draft, and the assignment is checked before the status. */
  lemma ApproveDraftForbidden(store: map<Id, Article>, caller: Caller, id: Id, now: Time)
    requires StoreInvariant(store) && id in store && store[id].status == Draft
    ensures Approve(store, caller, id, now) == Reply(Forbidden, store)
  {
  }

  /** `submitArticle` does not look at the editor's `isActive` flag: the
      answer is the same for an active and an inactive editor. */
  lemma SubmitIgnoresEditorActivity(store: map<Id, Article>, users: map<Id, User>, caller: Caller,
                                    id: Id, editorId: Id, now: Time, active: bool)
    requires editorId in users
    ensures var users' := users[editorId := users[editorId].(isActive := active)];
      Submit(store, users', caller, id, editorId, now) == Submit(store, users, caller, id, editorId, now)
  {
  }

  /** On the caller's own draft or rejected article, `submitArticle`'s editor
      check accepts exactly the editors `getEditors` lists plus the inactive
      ones it hides, and a successful submission assigns the chosen one. */
  lemma SubmitAcceptsListedAndInactiveEditors(store: map<Id, Article>, users: map<Id, User>, caller: Caller,
                                              id: Id, e: Id, now: Time)
    requires id in store && store[id].author == caller.id && Editable(store[id].status)
    ensures Submit(store, users, caller, id, e, now).status != BadRequest <==>
      e != "" && (e in UserController.Editors(users) || (e in users && users[e] == User(Editor, false)))
    ensures Submit(store, users, caller, id, e, now).status == Ok ==>
      Submit(store, users, caller, id, e, now).store[id].assignedEditor == Some(e)
  {
    if e in users && users[e].role == Editor {
      assert users[e] == User(Editor, users[e].isActive);
    }
  }

  /** With the invariant, an editor's default listing ("assigned to me or
      approved by me") is exactly the articles assigned to them. */
  lemma EditorDefaultScopeIsAssigned(c: Caller, a: Article, titleMatches: (string, string) -> bool)
    requires c.role == Editor && WorkflowInvariant(a)
    ensures Matches(ListQuery(Some(c), ListParams("", "", "", "")), a, titleMatches) <==>
      a.assignedEditor == Some(c.id)
  {
    EditorDefaultScope(c, a, titleMatches);
  }

  /** A role change that passed the route's validator is never refused by the
      handler's own role check. */
  lemma ValidatedRoleChangeNotBadRequest(auth: Auth.AuthOutcome, users: map<Id, User>, userId: Id, role: string)
    requires UserRoutes.Pipeline(UserRoutes.ChangeRole, auth, role).Handle?
    ensures UserController.ChangeRole(users, auth.caller, userId, role).status != BadRequest
  {
  }
}
