/** The input validators of the notes service: each schema is a function from
    raw input to either the parsed value, with defaults applied, or the list
    of issues the validator reports (one per failed check, in field order). */
module Schemas {
  import opened Results
  import opened Text

  const MaxTitleLength := 255
  const DefaultPage := 1
  const DefaultLimit := 20
  const MaxLimit := 100

  /** One failed check, with the path of the offending field in its name. */
  datatype Issue =
    | TitleRequired
    | TitleTooLong
    | ContentRequired
    | TagEmpty(index: nat)
    | IdRequired
    | PageNotPositive
    | LimitNotPositive
    | LimitTooLarge

  /** The messages the schemas attach to their checks. The query checks use the
      validation library's own wording, which is not part of this model. */
  function Message(issue: Issue): Option<string>
  {
    match issue
    case TitleRequired => Some("Title is required")
    case TitleTooLong => Some("Title must be less than 255 characters")
    case ContentRequired => Some("Content is required")
    case TagEmpty(_) => Some("Tag cannot be empty")
    case IdRequired => Some("Note ID is required")
    case _ => None
  }

  /** A stored note: the base fields, its id and two timestamps (clock ticks). */
  datatype Note = Note(
    id: string,
    title: string,
    content: string,
    tags: seq<string>,
    createdAt: nat,
    updatedAt: nat)

  /** Create input as the caller sends it; `tags` may be omitted. */
  datatype NoteInput = NoteInput(title: string, content: string, tags: Option<seq<string>>)

  /** Validated create input: defaults applied, every field present. */
  datatype NoteFields = NoteFields(title: string, content: string, tags: seq<string>)

  /** Update input: every field optional; an omitted field is absent. */
  datatype NotePatch = NotePatch(title: Option<string>, content: Option<string>, tags: Option<seq<string>>)

  /** Query input as the caller sends it. */
  datatype QueryInput = QueryInput(search: Option<string>, tags: Option<seq<string>>, page: Option<int>, limit: Option<int>)

  /** Validated query: `page` and `limit` always present. */
  datatype Query = Query(search: Option<string>, tags: Option<seq<string>>, page: int, limit: int)

  // ---------------------------------------------------------------------------
  // The constraints, stated directly
  // ---------------------------------------------------------------------------

  /** String lengths are JavaScript's, counted in UTF-16 code units; for the
      lower bound of 1 that is the same as being non-empty. */
  predicate ValidTitle(title: string) { |title| >= 1 && Utf16Length(title) <= MaxTitleLength }

  predicate ValidContent(content: string) { |content| >= 1 }

  predicate ValidTags(tags: seq<string>) { forall i :: 0 <= i < |tags| ==> |tags[i]| >= 1 }

  /** The full-note schema: a valid base note plus an id and two timestamps,
      which carry no constraint of their own. */
  predicate ValidNote(n: Note)
  {
    ValidTitle(n.title) && ValidContent(n.content) && ValidTags(n.tags)
  }

  // ---------------------------------------------------------------------------
  // The validators: checks that collect issues
  // ---------------------------------------------------------------------------

  function TitleIssues(title: string): seq<Issue>
  {
    if |title| < 1 then [TitleRequired]
    else if Utf16Length(title) > MaxTitleLength then [TitleTooLong]
    else []
  }

  function ContentIssues(content: string): seq<Issue>
  {
    if |content| < 1 then [ContentRequired] else []
  }

  /** One `TagEmpty` issue per empty tag, numbered from `first`, in tag order. */
  function TagIssues(tags: seq<string>, first: nat): (issues: seq<Issue>)
    ensures |issues| <= |tags|
    ensures forall k :: 0 <= k < |issues| ==> issues[k].TagEmpty? && first <= issues[k].index < first + |tags|
    decreases |tags|
  {
    if tags == [] then []
    else (if |tags[0]| < 1 then [TagEmpty(first)] else []) + TagIssues(tags[1..], first + 1)
  }

  /** The issues come in tag order, so no tag is named twice. */
  lemma {:induction false} TagIssuesAscending(tags: seq<string>, first: nat)
    ensures forall k, l :: 0 <= k < l < |TagIssues(tags, first)| ==>
      TagIssues(tags, first)[k].index < TagIssues(tags, first)[l].index
    decreases |tags|
  {
    if tags != [] {
      var head: seq<Issue> := if |tags[0]| < 1 then [TagEmpty(first)] else [];
      var rest := TagIssues(tags[1..], first + 1);
      assert TagIssues(tags, first) == head + rest;
      TagIssuesAscending(tags[1..], first + 1);
      forall k, l | 0 <= k < l < |head + rest| ensures (head + rest)[k].index < (head + rest)[l].index {
        if k >= |head| {
          assert (head + rest)[k] == rest[k - |head|] && (head + rest)[l] == rest[l - |head|];
        }
      }
    }
  }

  /** An issue names the tag at its index, and that tag is empty. */
  lemma {:induction false} TagIssuesPointAtEmptyTags(tags: seq<string>, first: nat)
    ensures forall k :: 0 <= k < |TagIssues(tags, first)| ==>
      var i := TagIssues(tags, first)[k].index - first;
      i < |tags| && tags[i] == []
    ensures TagIssues(tags, first) == [] <==> ValidTags(tags)
    decreases |tags|
  {
    if tags != [] {
      TagIssuesPointAtEmptyTags(tags[1..], first + 1);
      if ValidTags(tags[1..]) && |tags[0]| >= 1 {
        forall i | 0 <= i < |tags| ensures |tags[i]| >= 1 {
          if i > 0 { assert tags[i] == tags[1..][i - 1]; }
        }
      }
    }
  }

  /** Every empty tag is named by an issue. */
  lemma {:induction false} TagIssuesNameEveryEmptyTag(tags: seq<string>, first: nat)
    ensures forall i :: 0 <= i < |tags| && tags[i] == [] ==> TagEmpty(first + i) in TagIssues(tags, first)
    decreases |tags|
  {
    if tags != [] {
      var head: seq<Issue> := if |tags[0]| < 1 then [TagEmpty(first)] else [];
      var rest := TagIssues(tags[1..], first + 1);
      assert TagIssues(tags, first) == head + rest;
      TagIssuesNameEveryEmptyTag(tags[1..], first + 1);
      forall i | 0 <= i < |tags| && tags[i] == [] ensures TagEmpty(first + i) in head + rest {
        if i > 0 {
          assert tags[1..][i - 1] == tags[i];
          assert TagEmpty(first + 1 + (i - 1)) in rest;
        }
      }
    }
  }

  /** The tag checks of a `tags` field that may be omitted. */
  function OptionalTagIssues(tags: Option<seq<string>>): (issues: seq<Issue>)
    ensures issues == [] <==> (tags.Some? ==> ValidTags(tags.value))
  {
    match tags
    case None => []
    case Some(ts) =>
      TagIssuesPointAtEmptyTags(ts, 0);
      TagIssues(ts, 0)
  }

  /** The create schema: reports every failed check, or yields the fields with
      omitted tags defaulted to the empty list. */
  function ParseCreate(input: NoteInput): (r: Result<NoteFields, seq<Issue>>)
    ensures r.Ok? <==> ValidTitle(input.title) && ValidContent(input.content)
                       && (input.tags.Some? ==> ValidTags(input.tags.value))
    ensures r.Ok? ==> r.value.title == input.title && r.value.content == input.content
                      && r.value.tags == (if input.tags.Some? then input.tags.value else [])
    ensures r.Err? ==> r.error != []
  {
    var issues := TitleIssues(input.title) + ContentIssues(input.content) + OptionalTagIssues(input.tags);
    if issues == [] then Ok(NoteFields(input.title, input.content, input.tags.GetOr([])))
    else Err(issues)
  }

  /** The update schema: the create checks on the fields that are present;
      an omitted field stays omitted (it is not defaulted). */
  function ParseUpdate(patch: NotePatch): (r: Result<NotePatch, seq<Issue>>)
    ensures r.Ok? <==> (patch.title.Some? ==> ValidTitle(patch.title.value))
                       && (patch.content.Some? ==> ValidContent(patch.content.value))
                       && (patch.tags.Some? ==> ValidTags(patch.tags.value))
    ensures r.Ok? ==> r.value == patch
    ensures r.Err? ==> r.error != []
  {
    var issues :=
      (if patch.title.Some? then TitleIssues(patch.title.value) else [])
      + (if patch.content.Some? then ContentIssues(patch.content.value) else [])
      + OptionalTagIssues(patch.tags);
    if issues == [] then Ok(patch) else Err(issues)
  }

  /** The id schema: a non-empty string. */
  function ParseId(id: string): (r: Result<string, seq<Issue>>)
    ensures r.Ok? <==> |id| >= 1
    ensures r.Ok? ==> r.value == id
    ensures r.Err? ==> r.error == [IdRequired]
  {
    if |id| < 1 then Err([IdRequired]) else Ok(id)
  }

  function PageIssues(page: Option<int>): seq<Issue>
  {
    match page
    case None => []
    case Some(p) => if p <= 0 then [PageNotPositive] else []
  }

  function LimitIssues(limit: Option<int>): seq<Issue>
  {
    match limit
    case None => []
    case Some(l) => if l <= 0 then [LimitNotPositive] else if l > MaxLimit then [LimitTooLarge] else []
  }

  /** A query's page and limit in range. */
  predicate ValidQuery(q: Query)
  {
    q.page >= 1 && 1 <= q.limit <= MaxLimit
  }

  /** The query schema: `page` a positive integer defaulting to 1, `limit` in
      1..100 defaulting to 20; `search` and `tags` pass through unchecked. */
  function ParseQuery(input: QueryInput): (r: Result<Query, seq<Issue>>)
    ensures r.Ok? <==> (input.page.Some? ==> input.page.value >= 1)
                       && (input.limit.Some? ==> 1 <= input.limit.value <= MaxLimit)
    ensures r.Ok? ==> ValidQuery(r.value)
    ensures r.Ok? ==> r.value.search == input.search && r.value.tags == input.tags
    ensures r.Ok? ==> r.value.page == (if input.page.Some? then input.page.value else 1)
                      && r.value.limit == (if input.limit.Some? then input.limit.value else 20)
    ensures r.Err? ==> r.error != []
  {
    var issues := PageIssues(input.page) + LimitIssues(input.limit);
    if issues == [] then
      Ok(Query(input.search, input.tags, input.page.GetOr(DefaultPage), input.limit.GetOr(DefaultLimit)))
    else Err(issues)
  }

  /** How many matching notes come before the requested page. */
  function Skip(q: Query): (skip: nat)
    requires ValidQuery(q)
  {
    (q.page - 1) * q.limit
  }

  // ---------------------------------------------------------------------------
  // How the schemas relate
  // ---------------------------------------------------------------------------

  /** The title bound is inclusive: 255 code units pass, although the message
      for the failed check reads "less than 255". */
  lemma TitleBoundInclusive(title: string)
    ensures Utf16Length(title) == 255 ==> ValidTitle(title) && TitleIssues(title) == []
    ensures Utf16Length(title) == 256 ==> TitleIssues(title) == [TitleTooLong]
    ensures Message(TitleTooLong) == Some("Title must be less than 255 characters")
  {
  }

  /** The bound counts code units, not characters: 200 emoji are 400 code
      units and too long, while 255 letters of the Basic Multilingual Plane fit. */
  lemma TitleBoundCountsCodeUnits()
    ensures TitleIssues(seq(200, _ => '\U{1F600}')) == [TitleTooLong]
    ensures TitleIssues(seq(255, _ => 'a')) == []
  {
    Utf16LengthAstral(seq(200, _ => '\U{1F600}'));
    Utf16LengthBmp(seq(255, _ => 'a'));
  }

  /** A full note is valid exactly when its base fields pass the create schema. */
  lemma NoteExtendsBase(n: Note)
    ensures ValidNote(n) <==> ParseCreate(NoteInput(n.title, n.content, Some(n.tags))).Ok?
  {
  }

  /** The update schema is the create schema made partial: with every field
      present they accept the same input. */
  lemma PartialAgreesWithCreate(title: string, content: string, tags: seq<string>)
    ensures ParseUpdate(NotePatch(Some(title), Some(content), Some(tags))).Ok?
        <==> ParseCreate(NoteInput(title, content, Some(tags))).Ok?
  {
  }

  /** An empty update is always accepted and stays empty. */
  lemma EmptyPatchAccepted()
    ensures ParseUpdate(NotePatch(None, None, None)) == Ok(NotePatch(None, None, None))
  {
  }

  /** Query tags carry no non-empty constraint, unlike note tags. */
  lemma QueryTagsUnchecked()
    ensures ParseQuery(QueryInput(None, Some([""]), None, None)).Ok?
    ensures ParseCreate(NoteInput("t", "c", Some([""]))).Err?
  {
  }
}
