/** client/src/pages/CreatePost.jsx: the tag editor, the image size check,
    the form rules, the submit payload and the categories fallback of the
    post form. Reading the file and the network calls are left to the
    caller. */
module CreatePost {
  import opened Common
  import Text

  const MaxTags := 10
  const MaxTagInput := 30
  const MaxTitle := 200
  const MinContent := 10
  const MaxImageBytes := 5 * 1024 * 1024

  /** The tag list and the text of the tag input. */
  datatype TagEditor = TagEditor(tags: seq<string>, input: string)

  /** `addTag`: the trimmed input is appended when it is not empty, not
      already a tag, and there are fewer than ten tags; only then is the
      input cleared. */
  function AddTag(e: TagEditor): (r: TagEditor)
    ensures var t := Text.Trim(e.input);
      if t != "" && t !in e.tags && |e.tags| < MaxTags
      then r.tags == e.tags + [t] && r.input == ""
      else r == e
  {
    var t := Text.Trim(e.input);
    if t != "" && t !in e.tags && |e.tags| < MaxTags then TagEditor(e.tags + [t], "") else e
  }

  /** The input is cleared exactly when a tag was added. */
  lemma ClearedIffAdded(e: TagEditor)
    requires e.input != ""
    ensures AddTag(e).input == "" <==> |AddTag(e).tags| == |e.tags| + 1
  {
  }

  /** `removeTag`: every entry equal to `t` goes; the rest keep their order. */
  function RemoveTag(tags: seq<string>, t: string): (r: seq<string>)
    ensures |r| <= |tags|
    ensures forall x :: x in r <==> x in tags && x != t
  {
    if tags == [] then []
    else (if tags[0] != t then [tags[0]] else []) + RemoveTag(tags[1..], t)
  }

  /** Removal works piecewise: it keeps the relative order of what remains. */
  lemma {:induction false} RemoveTagAppend(a: seq<string>, b: seq<string>, t: string)
    ensures RemoveTag(a + b, t) == RemoveTag(a, t) + RemoveTag(b, t)
  {
    if a == [] {
      assert a + b == b;
    } else {
      assert (a + b)[0] == a[0] && (a + b)[1..] == a[1..] + b;
      RemoveTagAppend(a[1..], b, t);
    }
  }

  /** Removing a tag that is not there changes nothing. */
  lemma {:induction false} RemoveAbsent(tags: seq<string>, t: string)
    requires t !in tags
    ensures RemoveTag(tags, t) == tags
  {
    if tags != [] {
      RemoveAbsent(tags[1..], t);
      assert tags == [tags[0]] + tags[1..];
    }
  }

  /** At most ten tags, none repeated, none empty, none longer than the input allows. */
  predicate TagsOk(tags: seq<string>) {
    && |tags| <= MaxTags && NoDup(tags)
    && forall i :: 0 <= i < |tags| ==> tags[i] != "" && |tags[i]| <= MaxTagInput
  }

  predicate EditorOk(e: TagEditor) {
    TagsOk(e.tags) && |e.input| <= MaxTagInput
  }

  lemma {:induction false} RemoveTagNoDup(tags: seq<string>, t: string)
    requires NoDup(tags)
    ensures NoDup(RemoveTag(tags, t))
  {
    if tags != [] {
      assert NoDup(tags[1..]) by {
        assert forall k :: 0 <= k < |tags| - 1 ==> tags[1..][k] == tags[k + 1];
      }
      RemoveTagNoDup(tags[1..], t);
      assert tags[0] !in tags[1..];
    }
  }

  /** The user's actions on the tag editor; the input box keeps at most 30
      characters of what is typed or pasted (`maxLength={30}`). */
  datatype Edit = Type(text: string) | Add | Remove(tag: string)

  function Step(e: TagEditor, x: Edit): TagEditor {
    match x
    case Type(text) => e.(input := if |text| > MaxTagInput then text[..MaxTagInput] else text)
    case Add => AddTag(e)
    case Remove(tag) => e.(tags := RemoveTag(e.tags, tag))
  }

  lemma StepOk(e: TagEditor, x: Edit)
    requires EditorOk(e)
    ensures EditorOk(Step(e, x))
  {
    match x
    case Type(_) =>
    case Add => AddOk(e);
    case Remove(tag) => RemoveOk(e, tag);
  }

  lemma AddOk(e: TagEditor)
    requires EditorOk(e)
    ensures EditorOk(AddTag(e))
  {
    var t := Text.Trim(e.input);
    if t != "" && t !in e.tags && |e.tags| < MaxTags {
      AppendOk(e.tags, t);
      assert AddTag(e) == TagEditor(e.tags + [t], "");
    }
  }

  /** Appending a new, non-empty tag of at most 30 characters to fewer than
      ten tags keeps the bounds. */
  lemma AppendOk(tags: seq<string>, t: string)
    requires TagsOk(tags) && |tags| < MaxTags
    requires t != "" && |t| <= MaxTagInput && t !in tags
    ensures TagsOk(tags + [t])
  {
    var ts := tags + [t];
    assert forall i :: 0 <= i < |tags| ==> ts[i] == tags[i];
  }

  lemma RemoveOk(e: TagEditor, tag: string)
    requires EditorOk(e)
    ensures EditorOk(e.(tags := RemoveTag(e.tags, tag)))
  {
    var r := RemoveTag(e.tags, tag);
    RemoveTagNoDup(e.tags, tag);
    forall i | 0 <= i < |r| ensures r[i] != "" && |r[i]| <= MaxTagInput {
      assert r[i] in e.tags;
      var j :| 0 <= j < |e.tags| && e.tags[j] == r[i];
    }
  }


  function Run(e: TagEditor, xs: seq<Edit>): TagEditor
    decreases |xs|
  {
    if xs == [] then e else Run(Step(e, xs[0]), xs[1..])
  }

  /** Starting from no tags, no sequence of edits gives more than ten tags,
      a repeated tag, an empty one or one over 30 characters. */
  lemma {:induction false} RunOk(e: TagEditor, xs: seq<Edit>)
    requires EditorOk(e)
    ensures EditorOk(Run(e, xs))
    decreases |xs|
  {
    if xs != [] {
      StepOk(e, xs[0]);
      RunOk(Step(e, xs[0]), xs[1..]);
    }
  }

  lemma FromEmpty(xs: seq<Edit>)
    ensures TagsOk(Run(TagEditor([], ""), xs).tags)
  {
    RunOk(TagEditor([], ""), xs);
  }

  /** `handleImageUpload`: what happens to the chosen file (its size in bytes). */
  datatype ImageOutcome = NoFile | TooLarge | StartUpload

  function CheckImage(fileSize: Option<nat>): (o: ImageOutcome)
    ensures o == StartUpload <==> fileSize.Some? && fileSize.value <= 5242880
    ensures o == TooLarge <==> fileSize.Some? && fileSize.value > 5242880
  {
    if fileSize.None? then NoFile
    else if fileSize.value > MaxImageBytes then TooLarge
    else StartUpload
  }

  /** The fields of the form. */
  datatype Form = Form(title: string, content: string, category: string, status: string, featuredImage: string)

  datatype FieldError = TitleRequired | TitleTooLong | CategoryRequired | ContentRequired | ContentTooShort

  /** The title's rules: required, at most 200 characters. */
  function TitleErrors(title: string): (es: seq<FieldError>)
    ensures es == [] <==> title != "" && |title| <= MaxTitle
    ensures es != [] ==> es == [if title == "" then TitleRequired else TitleTooLong]
  {
    if title == "" then [TitleRequired] else if |title| > MaxTitle then [TitleTooLong] else []
  }

  /** The category's rule: required. */
  function CategoryErrors(category: string): (es: seq<FieldError>)
    ensures es == [] <==> category != ""
    ensures es != [] ==> es == [CategoryRequired]
  {
    if category == "" then [CategoryRequired] else []
  }

  /** The content's rules: required, at least 10 characters. */
  function ContentErrors(content: string): (es: seq<FieldError>)
    ensures es == [] <==> |content| >= MinContent
    ensures es != [] ==> es == [if content == "" then ContentRequired else ContentTooShort]
  {
    if content == "" then [ContentRequired] else if |content| < MinContent then [ContentTooShort] else []
  }

  /** The rules of the mounted fields, in the order of the fields. The
      content rules are registered on the textarea, which is replaced by the
      preview while `preview` holds; the rules of an unmounted field do not
      run, so the content is then not checked. */
  function Errors(f: Form, preview: bool): (es: seq<FieldError>)
    ensures es == [] <==>
      f.title != "" && |f.title| <= MaxTitle && f.category != "" && (preview || |f.content| >= MinContent)
    ensures preview ==> ContentRequired !in es && ContentTooShort !in es
  {
    TitleErrors(f.title) + CategoryErrors(f.category) + (if preview then [] else ContentErrors(f.content))
  }

  /** The body sent to create the post. */
  datatype Payload = Payload(title: string, content: string, category: string, status: string,
                             featuredImage: string, tags: seq<string>)

  datatype SubmitOutcome = Invalid(errors: seq<FieldError>) | NotLoggedIn | Send(payload: Payload)

  /** `handleSubmit(onSubmit)`: the rules of the mounted fields first, then
      the user check, then the payload with the current tags and
      `status || 'draft'`; `preview` is whether the preview is shown. */
  function Submit(f: Form, preview: bool, tags: seq<string>, user: Option<Principal>): (o: SubmitOutcome)
    ensures o.Send? <==> Errors(f, preview) == [] && user.Some?
    ensures Errors(f, preview) == [] && user.None? ==> o == NotLoggedIn
    ensures o.Send? ==>
      && o.payload.tags == tags
      && o.payload.status == (if f.status == "" then "draft" else f.status)
      && o.payload.title == f.title && o.payload.content == f.content && o.payload.category == f.category
      && o.payload.featuredImage == f.featuredImage
  {
    var es := Errors(f, preview);
    if es != [] then Invalid(es)
    else if user.None? then NotLoggedIn
    else Send(Payload(f.title, f.content, f.category, if f.status == "" then "draft" else f.status,
                      f.featuredImage, tags))
  }

  /** With the status select's two options (or nothing chosen), the post
      is sent as a draft or as published. */
  lemma StatusFromSelect(f: Form, preview: bool, tags: seq<string>, user: Principal)
    requires Errors(f, preview) == []
    requires f.status == "" || f.status == "draft" || f.status == "published"
    ensures Submit(f, preview, tags, Some(user)).Send?
    ensures var o := Submit(f, preview, tags, Some(user));
      o.payload.status == "draft" || o.payload.status == "published"
  {
  }

  /** With the editor shown, nothing shorter than 10 characters is sent. */
  lemma EditorChecksContent(f: Form, tags: seq<string>, user: Option<Principal>)
    ensures Submit(f, false, tags, user).Send? ==> |Submit(f, false, tags, user).payload.content| >= MinContent
  {
  }

  /** With the preview shown, content of any length, even empty, is sent
      once the title and category pass and a user is logged in. */
  lemma PreviewSkipsContent(f: Form, tags: seq<string>, user: Principal)
    requires f.title != "" && |f.title| <= MaxTitle && f.category != ""
    ensures Submit(f, true, tags, Some(user)).Send?
    ensures Submit(f, true, tags, Some(user)).payload.content == f.content
  {
  }

  /** The first present list wins; an empty list is present (`[]` is truthy). */
  function CategoriesOf<T>(first: Option<seq<T>>, second: Option<seq<T>>): (r: seq<T>)
    ensures first.Some? ==> r == first.value
    ensures first.None? && second.Some? ==> r == second.value
    ensures first.None? && second.None? ==> r == []
  {
    if first.Some? then first.value else if second.Some? then second.value else []
  }

  /** The category select: whether it is disabled, the text of its empty
      first option, and the categories it offers after it. */
  datatype Select<T> = Select(disabled: bool, placeholder: string, options: seq<T>)

  const LoadingText := "Loading categories..."
  const NoneText := "No categories available"
  const ChooseText := "Select a category"

  /** The select is disabled while loading, on an error, or with no
      categories; an enabled select always offers a category to choose.
      While the categories load the page shows its loading skeleton
      instead of the form (CreatePost.jsx lines 140-153), so the loading
      text of the select is never on screen. */
  function CategorySelect<T>(loading: bool, failed: bool, categories: seq<T>): (s: Select<T>)
    ensures s.options == categories
    ensures s.disabled <==> loading || failed || |categories| == 0
    ensures !s.disabled ==> s.placeholder == ChooseText && |s.options| > 0
    ensures s.disabled && !loading && !failed ==> s.placeholder == NoneText && s.options == []
    ensures loading ==> s.disabled && s.placeholder == LoadingText
    ensures !loading ==> s.placeholder == (if categories == [] then NoneText else ChooseText)
  {
    Select(loading || failed || |categories| == 0,
           if loading then LoadingText else if |categories| == 0 then NoneText else ChooseText,
           categories)
  }
}
