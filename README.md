# Newsroom CMS editorial workflow in Dafny

This project models the server side of a small newsroom content-management
system. Writers draft articles and submit them to an editor. The editor
approves or rejects them, and admins manage users. The model covers:

- the article document and its schema validation (`ArticleModel`);
- the article handlers: create, update, submit, approve, reject, delete,
  the access check of the single-article read, and the query the list
  endpoint builds (`ArticleController`);
- the user handlers: role change, active toggle, the statistics formatting
  and the list filters (`UserController`);
- the authentication middleware `protect` and the role check `authorize`
  (`Auth`);
- both routers: their role tables and body validators (`ArticleRoutes`,
  `UserRoutes`);
- the client's article form: its validator and the two state handlers
  (`ArticleForm`);
- JavaScript's `trim`, the form's tag stripping and the header split
  (`Text`);
- the workflow as a whole: what any sequence of handled requests keeps
  true (`Workflow`).

The collections are classes holding a `map` from id to document. Each
handler is a method that follows the source's guards and in-place field
updates, and each method is proved equal to a pure function. The
properties are proved about those functions.

Three things the server calls but does not compute are parameters:

- the HTML sanitizer;
- JWT verification;
- the title regular-expression test.

Clock readings and the ids the database assigns are parameters too.

Where the two sides disagree, the model follows the code:

- `submitArticle` accepts an inactive editor.
- Approving a draft answers 403, not 400.
- The server counts the raw HTML of the content. The form counts the text
  with its tags stripped.
- The form and the server measure the title differently.

## Model

| member | source | states |
|---|---|---|
| `Common.IndexCounts` | server/controllers/articleController.js:536-539 | the `reduce` into an object: its keys are the groups' keys and the last row for a key wins |
| `Common.IndexCountsDistinct` | server/controllers/userController.js:243-246 | with distinct group keys, every group's count is the one stored |
| `Text.TrimStart` | server/routes/articleRoutes.js:23 | the result is no longer than the input and does not start with white space |
| `Text.TrimStartIsSuffix` | server/routes/articleRoutes.js:23 | the start trim keeps a suffix of the input |
| `Text.TrimStartDropsSpace` | server/routes/articleRoutes.js:23 | every character the start trim drops is white space |
| `Text.TrimEnd` | server/routes/articleRoutes.js:23 | the result is no longer than the input and does not end with white space |
| `Text.TrimEndIsPrefix` | server/routes/articleRoutes.js:23 | the end trim keeps a prefix of the input |
| `Text.TrimEndDropsSpace` | server/routes/articleRoutes.js:23 | every character the end trim drops is white space |
| `Text.Trim` | server/routes/articleRoutes.js:23 | `trim()` is no longer than its input and has no white space at either end |
| `Text.IsSpace` | server/routes/articleRoutes.js:23 | the characters `trim()` removes: ASCII white space, the Unicode space separators, the line and paragraph separators and the byte-order mark |
| `Text.TrimEmptyIffAllSpace` | server/controllers/articleController.js:376 | a string trims to empty exactly when it is all white space |
| `Text.TrimIdempotent` | server/models/Article.js:8 | trimming twice is trimming once, so the stored title is already trimmed |
| `Text.IndexFrom` | client/src/pages/articles/ArticleForm.jsx:123 | the first position at or after a start holding the character, or the length when there is none |
| `Text.StartsWith` | server/middleware/auth.js:9 | `startsWith`: the string begins with the prefix |
| `Text.SecondField` | server/middleware/auth.js:12 | `split(' ')[1]`: absent exactly when there is no space; otherwise the run of non-spaces that starts just after the first space and ends at the next space or the end of the string |
| `Text.StripTags` | client/src/pages/articles/ArticleForm.jsx:123 | `replace(/<[^>]*>/g, "")` keeps no character the input lacks and is no longer than the input |
| `Text.StripTagsKeepsText` | client/src/pages/articles/ArticleForm.jsx:123 | text containing no `<` passes through the stripping unchanged, ahead of whatever follows |
| `Text.StripTagsDropsTag` | client/src/pages/articles/ArticleForm.jsx:123 | a `<`, text without `>`, and a `>` are removed as one tag |
| `Text.StripTagsLeavesNoTag` | client/src/pages/articles/ArticleForm.jsx:123 | nothing of the form `<…>` survives the stripping |
| `Text.StripTagsFixesNoTag` | client/src/pages/articles/ArticleForm.jsx:123 | text without a complete tag is left as it is |
| `Text.StripTagsIdempotent` | client/src/pages/articles/ArticleForm.jsx:123 | stripping twice is stripping once |
| `Text.SubsequenceOfSuffix` | client/src/pages/articles/ArticleForm.jsx:123 | a subsequence of a suffix is a subsequence of the whole |
| `Text.StripTagsIsSubsequence` | client/src/pages/articles/ArticleForm.jsx:123 | the stripped text is a subsequence of the HTML |
| `Text.TrimEndCons` | client/src/pages/articles/ArticleForm.jsx:123 | the end trim of `x + u` is one longer than that of `u`, or when `u` trims to nothing, 1 or 0 as `x` is white space or not |
| `Text.SubsequenceTrimEnd` | client/src/pages/articles/ArticleForm.jsx:123 | the end-trimmed subsequence of a string is a subsequence of the string's end-trimmed form |
| `Text.TrimCons` | client/src/pages/articles/ArticleForm.jsx:123 | the trim of `x + u` has the length of the trim of `u` when `x` is white space, otherwise one more than the end trim of `u` |
| `Text.TrimAtMostTrimEnd` | client/src/pages/articles/ArticleForm.jsx:123 | a full trim is never longer than the end trim |
| `Text.SubsequenceOfItself` | client/src/pages/articles/ArticleForm.jsx:123 | every string is a subsequence of itself |
| `Text.SubsequenceTrim` | client/src/pages/articles/ArticleForm.jsx:123 | trimming keeps the subsequence relation, so the trimmed subsequence is no longer than the trimmed string |
| `Text.StrippedTrimmedAtMostTrimmed` | client/src/pages/articles/ArticleForm.jsx:123 | the form's measure of the content is never more than the server's measure of it |
| `UserModel.ParseRole` | server/controllers/userController.js:10 | only the four role names parse, and each to the role it names |
| `UserModel.RoleName` | server/controllers/userController.js:10 | the enum string of each role |
| `UserModel.ParseRoleName` | server/controllers/userController.js:10 | every role's name parses back to that role |
| `UserModel.UserCollection.constructor` | server/controllers/userController.js:1 | the collection starts with the given documents |
| `ArticleModel.StatusNamesDistinct` | server/models/Article.js:20-24 | the four status names of the enum are distinct |
| `ArticleModel.StatusName` | server/models/Article.js:20-24 | the enum string of each status |
| `ArticleModel.NewArticle` | server/models/Article.js:20-46 | a created document is a draft with no editor, no approver, an empty comment, no timestamps and the trimmed title |
| `ArticleModel.SchemaValid` | server/models/Article.js:5-19 | what `save` validates: a non-empty title of at most 200 characters, non-empty content and an author; the trim is the setter's job, not a validator's |
| `ArticleModel.SetTitle` | server/models/Article.js:5-10 | assigning a title stores its trimmed form and changes nothing else |
| `ArticleModel.NewArticleValid` | server/models/Article.js:5-19 | a new document passes validation exactly when its trimmed title is non-empty and at most 200 characters and content and author are non-empty |
| `ArticleModel.ArticleCollection.constructor` | server/models/Article.js:3-51 | the collection starts with the given documents |
| `ArticleModel.ArticleCollection.Save` | server/models/Article.js:5-19 | `save()` writes the document exactly when it passes schema validation and otherwise changes nothing |
| `ArticleModel.ArticleCollection.Remove` | server/controllers/articleController.js:473 | `deleteOne()` removes exactly that document |
| `Auth.Protect` | server/middleware/auth.js:4-47 | 401 "no token" exactly without a `Bearer` header, "token failed" exactly when no id is decoded, then user-not-found and inactive; only an existing active user passes, with that user's role |
| `Auth.Authorize` | server/middleware/auth.js:50-59 | the request goes on exactly when the caller's role is in the list, otherwise 403 |
| `Auth.BearerWithoutTokenFails` | server/middleware/auth.js:7-13 | a header that is just `Bearer` passes the prefix test but yields no token, so it fails as "token failed" |
| `Auth.HasBearer` | server/middleware/auth.js:7-10 | the header is present and starts with `Bearer` |
| `Auth.DecodedId` | server/middleware/auth.js:11-13 | the id `jwt.verify` decodes from the header's second field; nothing without a bearer header or without a token |
| `ArticleRoutes.ArticleValidation` | server/routes/articleRoutes.js:21-34 | no error exactly when the trimmed title has 5 to 200 characters and the trimmed raw content at least 50; the required error of each field exactly when its trim is empty, and then its length error too |
| `ArticleRoutes.MongoIdAdmitsHexPrefix` | server/routes/articleRoutes.js:40 | `isMongoId` accepts a 24-character string with a `0x` prefix, whose `x` is no hex digit |
| `ArticleRoutes.IsHexadecimal` | server/routes/articleRoutes.js:40 | `isHexadecimal`: an optional `0x`/`0h` prefix, then one or more hexadecimal digits in either case |
| `ArticleRoutes.IsMongoId` | server/routes/articleRoutes.js:40 | `isMongoId`: hexadecimal and exactly 24 characters long |
| `ArticleRoutes.SubmitValidation` | server/routes/articleRoutes.js:36-42 | no error exactly when `editorId` is a well-formed id |
| `ArticleRoutes.RejectValidation` | server/routes/articleRoutes.js:44-51 | no error exactly when the trimmed comment has at least 10 characters |
| `ArticleRoutes.SanitizedBody` | server/routes/articleRoutes.js:23-46 | create and update replace the title and content by their trim and keep the comment; reject replaces the comment by its trim; every other field and route is untouched |
| `ArticleRoutes.Validation` | server/routes/articleRoutes.js:60-70 | create and update run the article chain, submit the editor chain, reject the comment chain; every other route runs none |
| `ArticleRoutes.SanitizingKeepsValidation` | server/routes/articleRoutes.js:21-51 | the trimmed body passes or fails the validators exactly as the request did |
| `ArticleRoutes.ArticleValidationOfTrimmed` | server/routes/articleRoutes.js:21-34 | the article validators give the same errors on the trimmed title and content |
| `ArticleRoutes.RejectValidationOfTrimmed` | server/routes/articleRoutes.js:44-51 | the comment validator gives the same errors on the trimmed comment |
| `ArticleRoutes.Pipeline` | server/routes/articleRoutes.js:54-70 | search is public; every other route answers 401 without a user, then 403 when the caller's role is not in its list, and only then 400 for a body failing its validators; otherwise the handler runs with the caller |
| `ArticleRoutes.AllowedRoles` | server/routes/articleRoutes.js:54-70 | search, list and read run no `authorize`; every other route names at least one role and never the reader |
| `ArticleRoutes.OnlyWritersWrite` | server/routes/articleRoutes.js:60-68 | create, update and submit reach their handler exactly for writers whose body passes the validators |
| `ArticleRoutes.OnlyEditorsReview` | server/routes/articleRoutes.js:69-70 | approve and reject reach their handler exactly for editors whose body passes the validators |
| `ArticleRoutes.DeleteByWriterOrAdmin` | server/routes/articleRoutes.js:65 | delete reaches its handler exactly for signed-in writers and admins |
| `ArticleRoutes.StatsAdminOnly` | server/routes/articleRoutes.js:61 | statistics reach their handler exactly for admins |
| `ArticleRoutes.ReadRoutesAlwaysAuthenticated` | server/routes/articleRoutes.js:57-63 | the list and single-article routes always have a signed-in caller, so the anonymous branch of the list is never taken |
| `ArticleRoutes.ValidatedCommentIsNonBlank` | server/routes/articleRoutes.js:44-51 | a comment that passed the validator passes the handler's own blank check |
| `ArticleRoutes.ValidatedTitleFitsSchema` | server/routes/articleRoutes.js:21-27 | a title that passed the validator passes the schema's title rules |
| `ArticleController.SaveReply` | server/controllers/articleController.js:216 | a save answers 200 and writes exactly when the document is valid, otherwise 500 and nothing changes |
| `ArticleController.Create` | server/controllers/articleController.js:26-38 | 201 exactly for a fresh id and a valid document: a draft by the caller with the sanitized content and the trimmed title, all other articles unchanged; otherwise 500 and no change |
| `ArticleController.CreateArticle` | server/controllers/articleController.js:26-38 | the handler's status and new collection are those of `Create` |
| `ArticleController.Edited` | server/controllers/articleController.js:213-214 | a non-empty title is trimmed in, a non-empty content is sanitized in, and nothing else changes |
| `ArticleController.Update` | server/controllers/articleController.js:183-216 | 404, then 403 unless the author, then 400 unless draft or rejected, each with no change; past the guards the edits are saved (200, or 500 when the schema fails), and only the supplied fields change |
| `ArticleController.UpdateArticle` | server/controllers/articleController.js:183-216 | the handler's status and new collection are those of `Update` |
| `ArticleController.Submit` | server/controllers/articleController.js:237-288 | 400 for a missing id or a user that is not an editor, checked before the lookup and ignoring `isActive`; then 404, 403 and 400; past the guards the article is saved as submitted, with the editor, the time and an empty comment |
| `ArticleController.SubmitArticle` | server/controllers/articleController.js:237-288 | the handler's status and new collection are those of `Submit` |
| `ArticleController.Approve` | server/controllers/articleController.js:309-342 | 404, then 403 unless the assigned editor, checked before the status, then 400 unless submitted; past the guards the article is saved as approved, with the approver, the time and an empty comment |
| `ArticleController.ApproveArticle` | server/controllers/articleController.js:309-342 | the handler's status and new collection are those of `Approve` |
| `ArticleController.Reject` | server/controllers/articleController.js:372-413 | 400 for a blank comment before the lookup; then the guards of approve; past them the article is saved as rejected with the comment and the time, the approver left as it was |
| `ArticleController.RejectArticle` | server/controllers/articleController.js:372-413 | the handler's status and new collection are those of `Reject` |
| `ArticleController.Delete` | server/controllers/articleController.js:443-473 | 404; 403 for neither author nor admin; 400 for a non-admin author of anything but a draft; otherwise exactly that article is removed |
| `ArticleController.DeleteArticle` | server/controllers/articleController.js:443-473 | the handler's status and new collection are those of `Delete` |
| `ArticleController.GetById` | server/controllers/articleController.js:134-167 | 404 exactly for a missing id; 200 with the article exactly when it is approved or the caller is its author, its assigned editor or an admin; otherwise 403 |
| `ArticleController.ListQuery` | server/controllers/articleController.js:58-111 | readers are held to approved; writers without `author` see their own; admins get exactly the parameters they pass |
| `ArticleController.Matches` | server/controllers/articleController.js:58-111 | what `find(query)` selects: every clause the query sets holds of the article, and the `$or` clause holds through one of its branches |
| `ArticleController.BuildListQuery` | server/controllers/articleController.js:58-111 | building the query clause by clause gives `ListQuery` |
| `ArticleController.ReaderListsOnlyApproved` | server/controllers/articleController.js:69-71 | whatever the parameters, a reader lists only approved articles |
| `ArticleController.WriterListsOwn` | server/controllers/articleController.js:72-75 | a writer without an `author` parameter lists only their own articles |
| `ArticleController.WriterAuthorParameterOverridesScope` | server/controllers/articleController.js:98-100 | a writer's `author` parameter replaces the own-articles scope |
| `ArticleController.EditorDefaultScope` | server/controllers/articleController.js:76-82 | an editor without parameters lists what is assigned to or approved by them |
| `ArticleController.EditorStatusScope` | server/controllers/articleController.js:83-96 | an editor with a status lists what is assigned to them in that status |
| `ArticleController.EditorParameterOverridesScope` | server/controllers/articleController.js:102-104 | an editor passing a status and another editor's id lists that editor's articles in that status |
| `ArticleController.EditorSearchDropsScope` | server/controllers/articleController.js:107-111 | a search replaces the editor's scope: every article whose title matches |
| `ArticleController.AdminListsAll` | server/controllers/articleController.js:87-89 | an admin without parameters lists every article |
| `ArticleController.AnonymousStatusParameterOverrides` | server/controllers/articleController.js:63-96 | in the anonymous branch a `status` parameter would replace `approved` |
| `ArticleController.SearchQuery` | server/controllers/articleController.js:557-574 | a blank query is a 400; otherwise approved articles whose title matches |
| `ArticleController.SearchFindsOnlyApproved` | server/controllers/articleController.js:569-573 | the public search finds approved articles only |
| `ArticleController.FormatArticleStats` | server/controllers/articleController.js:534-541 | the total as counted and one entry per status group |
| `ArticleController.ArticleStatsCountsEachStatus` | server/controllers/articleController.js:534-539 | each status group's count is the one reported |
| `UserController.ChangeRole` | server/controllers/userController.js:108-152 | 400 for a role other than editor or writer before the lookup; then 404, 403 for an admin, 403 for oneself; past the guards the change succeeds, changes only the role and reports the old and new role |
| `UserController.UpdateUserRole` | server/controllers/userController.js:108-152 | the handler's status, new collection and reported change are those of `ChangeRole` |
| `UserController.ChangeRoleKeepsAdmins` | server/controllers/userController.js:114-136 | no role change makes or unmakes an admin |
| `UserController.Toggle` | server/controllers/userController.js:172-199 | 404, 403 for an admin, 403 for oneself; otherwise only `isActive` flips |
| `UserController.ToggleUserStatus` | server/controllers/userController.js:172-199 | the handler's status and new collection are those of `Toggle` |
| `UserController.ToggleTwiceRestores` | server/controllers/userController.js:199 | a second successful toggle restores the collection |
| `UserController.FormatUserStats` | server/controllers/userController.js:236-246 | `inactive` is `total - active`, and `byRole` has one entry per role group |
| `UserController.UserStatsCountsEachRole` | server/controllers/userController.js:243-246 | each role group's count is the one reported |
| `UserController.InactiveCountsInactiveUsers` | server/controllers/userController.js:236-242 | with the database's two counts, `inactive` is the number of inactive users |
| `UserController.BuildUserQuery` | server/controllers/userController.js:6-20 | the role filter is set exactly for the four known role names and the search clause exactly for a non-empty search |
| `UserController.Editors` | server/controllers/userController.js:43 | exactly the active users whose role is editor (the query `{ role: 'editor', isActive: true }`); how this set relates to the editors `submitArticle` accepts is stated by `Workflow.SubmitAcceptsListedAndInactiveEditors` |
| `UserController.Writers` | server/controllers/userController.js:64 | exactly the users whose role is writer, active or not |
| `UserController.InactiveEditorNotListed` | server/controllers/userController.js:43 | an inactive editor is not offered to writers |
| `UserController.ChangeRoleToWriter` | server/controllers/userController.js:43-64 | a successful change to writer adds the user to the writers' list and removes them from the editors' list, and moves nobody else |
| `UserController.ChangeRoleToEditor` | server/controllers/userController.js:43-64 | a successful change to editor removes the user from the writers' list; they join the editors' list exactly when their account is active |
| `UserRoutes.RoleValidation` | server/routes/userRoutes.js:18-24 | no error exactly for `editor` or `writer`; the required error exactly for an empty role, and then the allowed-values error too |
| `UserRoutes.AllowedRoles` | server/routes/userRoutes.js:30-40 | every user route admits admins |
| `UserRoutes.Pipeline` | server/routes/userRoutes.js:27-40 | 401 without a user, then 403 when the caller's role is not in the route's list, and only then 400 for a role change with an invalid role; otherwise the handler runs with the caller |
| `UserRoutes.AdminOnlyRoutes` | server/routes/userRoutes.js:36-40 | stats, list, single user, role change and toggle reach their handler exactly for admins, a role change also needing a valid role |
| `UserRoutes.EditorsListAccess` | server/routes/userRoutes.js:30 | the editor list is for every signed-in role but reader |
| `UserRoutes.WritersListAccess` | server/routes/userRoutes.js:33 | the writer list is for admins and editors |
| `ArticleForm.SetField` | client/src/pages/articles/ArticleForm.jsx:135 | the named field takes the value and the others keep theirs |
| `ArticleForm.TitleError` | client/src/pages/articles/ArticleForm.jsx:114-120 | "required" exactly for a blank title; otherwise an error exactly when the untrimmed length is below 5 or above 200, the too-short message below 5 and the too-long message above 200 |
| `ArticleForm.ContentError` | client/src/pages/articles/ArticleForm.jsx:122-128 | "required" exactly when the stripped, trimmed text is empty; an error exactly when it is under 50 characters, the too-short message when it is non-empty and under 50 |
| `ArticleForm.VisibleText` | client/src/pages/articles/ArticleForm.jsx:123 | the content's text with its tags stripped and then trimmed |
| `ArticleForm.Validate` | client/src/pages/articles/ArticleForm.jsx:111-131 | at most one message per field, none for the editor, each present exactly when that field's rule fails |
| `ArticleForm.FormContentPassesServer` | client/src/pages/articles/ArticleForm.jsx:123-128 | content the form accepts also passes the server's content rule |
| `ArticleForm.PaddedShortTitlePassesFormOnly` | client/src/pages/articles/ArticleForm.jsx:116 | a four-letter title with a trailing space passes the form and fails the server's length rule |
| `ArticleForm.PaddedLongTitlePassesServerOnly` | client/src/pages/articles/ArticleForm.jsx:118 | a five-letter title padded to 201 characters fails the form and passes the server's length rule |
| `ArticleForm.TrimPadded` | client/src/pages/articles/ArticleForm.jsx:114 | a word padded with spaces trims back to the word |
| `ArticleForm.TrimTrailingSpaces` | client/src/pages/articles/ArticleForm.jsx:114 | trailing spaces after a word are all removed by the end trim |
| `ArticleForm.FormState.constructor` | client/src/pages/articles/ArticleForm.jsx:8-15 | the form starts empty with no errors |
| `ArticleForm.FormState.HandleInputChange` | client/src/pages/articles/ArticleForm.jsx:134-139 | the field takes the value; a shown error of that field becomes "" and the others stay |
| `ArticleForm.FormState.HandleSubmit` | client/src/pages/articles/ArticleForm.jsx:141-152 | the form is handed on exactly when `validate` finds nothing; otherwise its errors are shown |
| `Workflow.WorkflowInvariant` | server/controllers/articleController.js:237-413 | a draft is unassigned and unreviewed; a submitted, approved or rejected article has an editor and a submission time; a reviewed one has a review time; only an approved article has an approver, its assigned editor; only a rejected one has a comment, and it is not blank |
| `Workflow.Step` | server/controllers/articleController.js:26-473 | one request handled: the set of users never changes, an article request leaves the users as they were and a user request leaves the articles as they were |
| `Workflow.Run` | server/controllers/articleController.js:26-473 | requests handled in order: the set of users never changes, and a run of article requests only leaves the users as they were |
| `Workflow.StoredValid` | server/models/Article.js:5-19 | a stored article passes the schema, has a title the trim setter left unchanged, and keeps the workflow invariant |
| `Workflow.UpdatedStoreInvariant` | server/controllers/articleController.js:283-411 | changing one article into a valid one that keeps the workflow invariant keeps the store's invariant |
| `Workflow.CreateKeepsInvariant` | server/controllers/articleController.js:33-38 | creation keeps the invariant |
| `Workflow.UpdateKeepsInvariant` | server/controllers/articleController.js:213-216 | editing keeps the invariant |
| `Workflow.SubmitKeepsInvariant` | server/controllers/articleController.js:283-288 | submission keeps the invariant |
| `Workflow.ApproveKeepsInvariant` | server/controllers/articleController.js:337-342 | approval keeps the invariant |
| `Workflow.RejectKeepsInvariant` | server/controllers/articleController.js:409-413 | rejection keeps the invariant |
| `Workflow.DeleteKeepsInvariant` | server/controllers/articleController.js:473 | deletion keeps the invariant |
| `Workflow.StepPreservesInvariant` | server/controllers/articleController.js:26-473 | every handler keeps the invariant, whoever calls it |
| `Workflow.StepCreate` | server/controllers/articleController.js:26-38 | a create request keeps the invariant |
| `Workflow.StepUpdate` | server/controllers/articleController.js:183-216 | an update request keeps the invariant |
| `Workflow.StepSubmit` | server/controllers/articleController.js:237-288 | a submit request keeps the invariant |
| `Workflow.StepApprove` | server/controllers/articleController.js:309-342 | an approve request keeps the invariant |
| `Workflow.StepReject` | server/controllers/articleController.js:372-413 | a reject request keeps the invariant |
| `Workflow.StepDelete` | server/controllers/articleController.js:443-473 | a delete request keeps the invariant |
| `Workflow.RunPreservesInvariant` | server/controllers/articleController.js:283-411 | from any store that keeps it, the empty one among them, any request sequence keeps: approver iff approved and equal to the assigned editor, comment iff rejected, editor and time once submitted |
| `Workflow.StepKeepsAuthor` | server/controllers/articleController.js:213-214 | no handler changes an article's author |
| `Workflow.StepKeepsApproved` | server/controllers/articleController.js:205-473 | an approved article is left as it is, unless an admin deletes it |
| `Workflow.RunKeepsApproved` | server/controllers/articleController.js:205-473 | an approved article that no request deletes outlives any request sequence unchanged |
| `Workflow.StepKeepsAdmins` | server/controllers/userController.js:131-199 | no request adds or removes a user or an admin |
| `Workflow.RunKeepsAdmins` | server/controllers/userController.js:131-199 | no request sequence adds or removes a user or an admin |
| `Workflow.ApproveDraftForbidden` | server/controllers/articleController.js:321-334 | approving a draft is answered 403, not 400, since nobody is assigned to a draft |
| `Workflow.SubmitIgnoresEditorActivity` | server/controllers/articleController.js:249-250 | the answer to a submission does not depend on the editor's `isActive` |
| `Workflow.SubmitAcceptsListedAndInactiveEditors` | server/controllers/articleController.js:249-288 | on the caller's own draft or rejected article, submission accepts exactly the editors `getEditors` lists plus the inactive editors it hides, and a successful submission assigns the chosen one |
| `Workflow.EditorDefaultScopeIsAssigned` | server/controllers/articleController.js:78-82 | under the invariant, an editor's default list is exactly the articles assigned to them |
| `Workflow.ValidatedRoleChangeNotBadRequest` | server/routes/userRoutes.js:39 | a role change that passed the validator never hits the handler's own 400 |

## Left out

- The HTML sanitizer (server/controllers/articleController.js:6-15) is a parameter. Its output is taken as it comes.
- JWT verification is a parameter that yields a user id or nothing. Token signing (server/utils/generateToken.js) is not part of this model.
- A title search is an opaque test of a title against a pattern. Regular-expression matching is not modelled.
- Socket notifications (`emitToUser`) are left out. They are best-effort output with no effect on state.
- `find`, `populate`, `sort` and `limit` are left out, and so are the aggregation pipelines. The statistics handlers are modelled from the `$group` rows and counts onward. The top-authors list is left out.
- `getArticles` is modelled up to the query object and the `Matches` predicate. Sorting by creation time is left out.
- `searchArticles`: its limit of 20 results is not modelled.
- Ids are opaque strings. A malformed id that makes Mongoose's cast throw, answered 500, is not modelled.
- When an article's author user no longer exists, `populate` leaves `author` null and `getArticleById` throws. This case is not modelled, because no modelled handler removes users.
- `createdAt` and `updatedAt` (`timestamps: true`) are left out. Clock readings for `submittedAt` and `reviewedAt` are parameters.
- String lengths count characters, not UTF-16 code units.
- ArticleForm.FormContentPassesServer: holds only because both sides count characters. In the source the form counts UTF-16 code units (`.length`), while the route's `isLength` counts a surrogate pair as one and skips U+FE0E and U+FE0F. Content of 25 characters outside the Basic Multilingual Plane passes the form and fails the route.
- ArticleRoutes.ValidatedTitleFitsSchema: holds only because both sides count characters. In the source `isLength` counts code points, while the schema's `maxlength` counts UTF-16 code units. A title of 101 characters outside the Basic Multilingual Plane passes the route and fails the schema, and the handler answers 500.
- The user model file (server/models/User.js) is not part of this model. A user is just a role and an `isActive` flag.
- Saving a user after a role change or a toggle is taken to succeed.
- server/middleware/validate.js is not part of this model. It is taken to answer 400 whenever a validator chain reported an error.
- `getUserById` is only a lookup and is left out.
- The rich-text editor's change listener in the form is left out.
- Concurrent requests are left out: in the source, the last `save` wins.
