/** The client-side article form (client/src/pages/articles/ArticleForm.jsx):
    its `validate` function, and the component state that `handleInputChange`
    and `handleSubmit` update. The rich-text editor, the editor list fetch
    and the rendering are not part of this model. */
module ArticleForm {
  import opened Common
  import Text
  import ArticleRoutes

  datatype Field = Title | Content | EditorId

  /** The component's `formData`. `content` is the editor's HTML. */
  datatype FormData = FormData(title: string, content: string, editorId: string)

  /** `{...prev, [field]: value}`. */
  function SetField(f: FormData, field: Field, value: string): (g: FormData)
    ensures Get(g, field) == value
    ensures forall other :: other != field ==> Get(g, other) == Get(f, other)
  {
    match field
    case Title => f.(title := value)
    case Content => f.(content := value)
    case EditorId => f.(editorId := value)
  }

  function Get(f: FormData, field: Field): string {
    match field
    case Title => f.title
    case Content => f.content
    case EditorId => f.editorId
  }

  const TitleRequired := "Title is required"
  const TitleTooShort := "Title must be at least 5 characters"
  const TitleTooLong := "Title must not exceed 200 characters"
  const ContentRequired := "Content is required"
  const ContentTooShort := "Content must be at least 50 characters"

  /** The text the content rule measures: tags stripped, then trimmed. */
  function VisibleText(html: string): string {
    Text.Trim(Text.StripTags(html))
  }

  /** The title's message, if any: emptiness is judged after trimming but
      the length before. */
  function TitleError(title: string): (e: Option<string>)
    ensures e.Some? <==> Text.Trim(title) == "" || |title| < 5 || |title| > 200
    ensures e == Some(TitleRequired) <==> Text.Trim(title) == ""
    ensures Text.Trim(title) != "" && |title| < 5 ==> e == Some(TitleTooShort)
    ensures Text.Trim(title) != "" && |title| > 200 ==> e == Some(TitleTooLong)
  {
    assert |TitleRequired| != |TitleTooShort| && |TitleRequired| != |TitleTooLong|;
    if Text.Trim(title) == "" then Some(TitleRequired)
    else if |title| < 5 then Some(TitleTooShort)
    else if |title| > 200 then Some(TitleTooLong)
    else None
  }

  /** The content's message, if any: its length is that of its visible text. */
  function ContentError(html: string): (e: Option<string>)
    ensures e.Some? <==> |VisibleText(html)| < 50
    ensures e == Some(ContentRequired) <==> VisibleText(html) == ""
    ensures 0 < |VisibleText(html)| < 50 ==> e == Some(ContentTooShort)
  {
    assert |ContentRequired| != |ContentTooShort|;
    var visible := VisibleText(html);
    if visible == "" then Some(ContentRequired)
    else if |visible| < 50 then Some(ContentTooShort)
    else None
  }

  /** `validate()`: at most one message per field, none for the editor. */
  function Validate(f: FormData): (errors: map<Field, string>)
    ensures errors.Keys <= {Title, Content}
    ensures Title in errors <==> TitleError(f.title).Some?
    ensures Title in errors ==> Some(errors[Title]) == TitleError(f.title)
    ensures Content in errors <==> ContentError(f.content).Some?
    ensures Content in errors ==> Some(errors[Content]) == ContentError(f.content)
  {
    var titleError := TitleError(f.title);
    var contentError := ContentError(f.content);
    var errors := if titleError.Some? then map[Title := titleError.value] else map[];
    if contentError.Some? then errors[Content := contentError.value] else errors
  }

  /** Content the form accepts also passes the server's content rule, which
      counts the raw text, markup included. */
  lemma FormContentPassesServer(f: FormData)
    requires Content !in Validate(f)
    ensures |Text.Trim(f.content)| >= ArticleRoutes.MinContentLength
  {
    Text.StrippedTrimmedAtMostTrimmed(f.content);
  }

  /** The title rules of the form and of the server differ: the form counts
      the untrimmed title, the server the trimmed one. A 4-letter title with
      a trailing space passes the form and is refused by the server. */
  lemma PaddedShortTitlePassesFormOnly()
    ensures var t := "abcd" + " ";
      TitleError(t).None? && ArticleRoutes.TitleLength in ArticleRoutes.ArticleValidation(t, "")
  {
    var t := "abcd" + " ";
    assert Text.TrimStart(t) == t;
    TrimTrailingSpaces("abcd", 1);
    assert " " == seq(1, _ => ' ');
  }

  /** And the other way round: a 5-letter title padded to 201 characters is
      refused by the form and its title passes the server. */
  lemma PaddedLongTitlePassesServerOnly()
    ensures var t := "abcde" + seq(196, _ => ' ');
      TitleError(t).Some? && ArticleRoutes.TitleLength !in ArticleRoutes.ArticleValidation(t, "")
  {
    TrimPadded("abcde", 196);
  }

  /** A word that neither starts nor ends with white space, padded with
      spaces, trims back to the word. */
  lemma TrimPadded(w: string, n: nat)
    requires w != [] && !Text.IsSpace(w[0]) && !Text.IsSpace(w[|w| - 1])
    ensures Text.Trim(w + seq(n, _ => ' ')) == w
  {
    var t := w + seq(n, _ => ' ');
    assert t[0] == w[0];
    assert Text.TrimStart(t) == t;
    TrimTrailingSpaces(w, n);
  }

  lemma {:induction false} TrimTrailingSpaces(w: string, n: nat)
    requires w != [] && !Text.IsSpace(w[|w| - 1])
    ensures Text.TrimEnd(w + seq(n, _ => ' ')) == w
  {
    if n > 0 {
      var s := w + seq(n, _ => ' ');
      assert s[..|s| - 1] == w + seq(n - 1, _ => ' ');
      TrimTrailingSpaces(w, n - 1);
    } else {
      assert w + seq(0, _ => ' ') == w;
    }
  }

  /** The component state the two handlers update. */
  class FormState {
    var formData: FormData
    var errors: map<Field, string>

    /** The initial `useState` values. */
    constructor ()
      ensures formData == FormData("", "", "") && errors == map[]
    {
      formData := FormData("", "", "");
      errors := map[];
    }

    /** `handleInputChange(field, value)`: sets that field, and when the field
        shows an error, replaces the message by "" (the key stays). */
    method HandleInputChange(field: Field, value: string)
      modifies this
      ensures formData == SetField(old(formData), field, value)
      ensures errors == if field in old(errors) && old(errors)[field] != "" then old(errors)[field := ""]
                        else old(errors)
      ensures field in errors ==> errors[field] == ""
    {
      formData := SetField(formData, field, value);
      if field in errors && errors[field] != "" {
        errors := errors[field := ""];
      }
    }

    /** `handleSubmit`: `onSubmit(formData)` is called, with the form as it
        is, exactly when `validate` finds nothing; otherwise the new errors
        are shown. The result is what `onSubmit` received, if it was called. */
    method HandleSubmit() returns (submitted: Option<FormData>)
      modifies this
      ensures formData == old(formData)
      ensures submitted.Some? <==> Validate(old(formData)) == map[]
      ensures submitted.Some? ==> submitted.value == formData && errors == old(errors)
      ensures submitted.None? ==> errors == Validate(old(formData)) && |errors| > 0
    {
      var newErrors := Validate(formData);
      if |newErrors| > 0 {
        errors := newErrors;
        return None;
      }
      return Some(formData);
    }
  }
}
