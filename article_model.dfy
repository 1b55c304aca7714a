/** The article document (server/models/Article.js): its fields, the defaults
    Mongoose fills in on creation, the `trim` setter on the title, and the
    validation a document must pass before it is written. */
module ArticleModel {
  import opened Common
  import Text

  /** The `status` enum; any other value is refused by the schema. */
  datatype Status = Draft | Submitted | Approved | Rejected

  function StatusName(s: Status): string {
    match s
    case Draft => "draft"
    case Submitted => "submitted"
    case Approved => "approved"
    case Rejected => "rejected"
  }

  lemma StatusNamesDistinct(s: Status, t: Status)
    ensures StatusName(s) == StatusName(t) <==> s == t
  {
  }

  /** An article as stored. The `timestamps` fields `createdAt`/`updatedAt`
      are not modelled; `submittedAt` and `reviewedAt` are. */
  datatype Article = Article(
    title: string,
    content: string,
    author: Id,
    status: Status,
    assignedEditor: Option<Id>,
    approvedBy: Option<Id>,
    rejectionComment: string,
    submittedAt: Option<Time>,
    reviewedAt: Option<Time>)

  const MaxTitleLength: nat := 200

  /** What `Article.create({title, content, author, status: 'draft'})` builds
      before validation: the title goes through the trim setter and every
      field not given takes its schema default. */
  function NewArticle(title: string, content: string, author: Id): (a: Article)
    ensures a.status == Draft
    ensures a.assignedEditor == None && a.approvedBy == None
    ensures a.rejectionComment == ""
    ensures a.submittedAt == None && a.reviewedAt == None
    ensures a.title == Text.Trim(title) && a.content == content && a.author == author
  {
    Article(Text.Trim(title), content, author, Draft, None, None, "", None, None)
  }

  /** `article.title = t`: the schema's `trim: true` setter stores `t.trim()`. */
  function SetTitle(a: Article, t: string): (b: Article)
    ensures b.title == Text.Trim(t) && b == a.(title := b.title)
  {
    a.(title := Text.Trim(t))
  }

  /** The schema validators run by `create` and `save`: `title` is required
      (non-empty) and at most 200 characters, `content` and `author` are
      required. `trim: true` is a setter applied on assignment, not a
      validator, so it is not checked here (see `SetTitle`). */
  predicate SchemaValid(a: Article) {
    && a.title != ""
    && |a.title| <= MaxTitleLength
    && a.content != ""
    && a.author != ""
  }

  /** A new document is valid exactly when its trimmed title is non-empty and
      within 200 characters and its content and author are non-empty. */
  lemma NewArticleValid(title: string, content: string, author: Id)
    ensures SchemaValid(NewArticle(title, content, author)) <==>
      && Text.Trim(title) != "" && |Text.Trim(title)| <= MaxTitleLength
      && content != "" && author != ""
  {
    Text.TrimIdempotent(title);
  }

  /** The articles collection, keyed by id. */
  class ArticleCollection {
    var docs: map<Id, Article>

    constructor (initial: map<Id, Article>)
      ensures docs == initial
    {
      docs := initial;
    }

    /** `doc.save()`: schema validation, then the write. A document that fails
        validation makes `save` throw and leaves the collection as it was. */
    method Save(id: Id, a: Article) returns (ok: bool)
      modifies this
      ensures ok <==> SchemaValid(a)
      ensures docs == if ok then old(docs)[id := a] else old(docs)
    {
      ok := SchemaValid(a);
      if ok {
        docs := docs[id := a];
      }
    }

    /** `doc.deleteOne()`. */
    method Remove(id: Id)
      modifies this
      ensures docs == old(docs) - {id}
    {
      docs := docs - {id};
    }
  }
}
