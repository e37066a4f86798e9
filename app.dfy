/** The create form of the client: its three text fields, the tag-string
    parser, and the submit handler that guards, sends the create call and
    clears the form. */
module App {
  import opened Results
  import opened Seqs
  import opened Text
  import opened Schemas
  import opened NotesRouter

  // ---------------------------------------------------------------------------
  // The tag parser: split on commas, trim each piece, drop the empty ones
  // ---------------------------------------------------------------------------

  function TrimEach(pieces: seq<string>): seq<string>
  {
    Map(pieces, Trim)
  }

  function DropEmpty(pieces: seq<string>): seq<string>
  {
    Filter(pieces, (t: string) => t != [])
  }

  function ParseTags(s: string): seq<string>
  {
    DropEmpty(TrimEach(Split(s, ',')))
  }

  /** Every parsed tag is non-empty and has no whitespace at either end. */
  lemma ParsedTagsTrimmedNonEmpty(s: string)
    ensures forall i :: 0 <= i < |ParseTags(s)| ==> ParseTags(s)[i] != [] && Trimmed(ParseTags(s)[i])
  {
    var pieces := Split(s, ',');
    var trimmed := TrimEach(pieces);
    var tags := ParseTags(s);
    forall i | 0 <= i < |tags| ensures tags[i] != [] && Trimmed(tags[i]) {
      FilterMembership(trimmed, (t: string) => t != [], tags[i]);
      var k :| 0 <= k < |trimmed| && trimmed[k] == tags[i];
      MapAt(pieces, Trim, k);
      TrimSpec(pieces[k]);
    }
  }

  /** The parsed tags always pass the create schema's tag check. */
  lemma ParsedTagsPassSchema(s: string)
    ensures ValidTags(ParseTags(s))
    ensures ParseCreate(NoteInput("t", "c", Some(ParseTags(s)))).Ok?
  {
    ParsedTagsTrimmedNonEmpty(s);
  }

  /** A request that passed the form's guard can fail the create schema only
      on the title's length: the tag check always passes. */
  lemma GuardedRequestIssues(title: string, content: string, tagText: string)
    requires title != [] && content != []
    ensures var r := ParseCreate(NoteInput(title, content, Some(ParseTags(tagText))));
      && (r.Ok? <==> Utf16Length(title) <= MaxTitleLength)
      && (r.Err? ==> r.error == [TitleTooLong])
  {
    ParsedTagsTrimmedNonEmpty(tagText);
    TagIssuesPointAtEmptyTags(ParseTags(tagText), 0);
  }

  /** Parsing around a comma parses the two sides and concatenates them: the
      tags keep the left-to-right order of the segments, duplicates included. */
  lemma ParseTagsConcat(a: string, b: string)
    ensures ParseTags(a + "," + b) == ParseTags(a) + ParseTags(b)
  {
    SplitConcat(a, b, ',');
    MapConcat(Split(a, ','), Split(b, ','), Trim);
    FilterConcat(TrimEach(Split(a, ',')), TrimEach(Split(b, ',')), (t: string) => t != []);
  }

  /** A segment without commas gives its trimmed text, or nothing when blank. */
  lemma ParseTagsSegment(s: string)
    requires ',' !in s
    ensures ParseTags(s) == if Trim(s) == [] then [] else [Trim(s)]
  {
    SplitWhole(s, ',');
  }

  /** Duplicates are kept: "a,a" gives two tags. */
  lemma ParseTagsKeepsDuplicates()
    ensures ParseTags("a,a") == ["a", "a"]
  {
    ParseTagsConcat("a", "a");
    ParseTagsSegment("a");
  }

  /** There are at most one more tags than commas. */
  lemma ParseTagsCount(s: string)
    ensures |ParseTags(s)| <= Count(s, ',') + 1
  {
    SplitPieces(s, ',');
  }

  /** The parse is empty exactly when the text holds only commas and whitespace. */
  lemma {:induction false} ParseTagsBlank(s: string)
    ensures ParseTags(s) == [] <==> forall i :: 0 <= i < |s| ==> s[i] == ',' || IsSpace(s[i])
    decreases |s|
  {
    if ',' !in s {
      ParseTagsSegment(s);
      TrimSpec(s);
    } else {
      var k :| 0 <= k < |s| && s[k] == ',';
      var a, b := s[..k], s[k + 1..];
      assert s == a + "," + b;
      ParseTagsConcat(a, b);
      ParseTagsBlank(a);
      ParseTagsBlank(b);
      if forall i :: 0 <= i < |s| ==> s[i] == ',' || IsSpace(s[i]) {
        forall i | 0 <= i < |a| ensures a[i] == ',' || IsSpace(a[i]) { assert a[i] == s[i]; }
        forall i | 0 <= i < |b| ensures b[i] == ',' || IsSpace(b[i]) { assert b[i] == s[k + 1 + i]; }
      }
      if ParseTags(a) == [] && ParseTags(b) == [] {
        forall i | 0 <= i < |s| ensures s[i] == ',' || IsSpace(s[i]) {
          if i < k { assert s[i] == a[i]; } else if i > k { assert s[i] == b[i - k - 1]; }
        }
      }
    }
  }

  // ---------------------------------------------------------------------------
  // The create form
  // ---------------------------------------------------------------------------

  /** What a submit did: nothing, or one create call and its outcome. */
  datatype Submission = Skipped | Sent(request: NoteInput, response: Result<Note, Failure>)

  class NoteForm {
    var title: string
    var content: string
    /** The comma-separated tag text as typed. */
    var tags: string

    constructor ()
      ensures title == [] && content == [] && tags == []
    {
      title, content, tags := [], [], [];
    }

    /** `onCreate`: with an empty title or content do nothing; otherwise send
        the fields with the parsed tags, and clear the form once the note is
        created. A failed call leaves the form as it was. `id` is the
        identifier the server's storage generates for the new note. */
    method OnCreate(server: NoteStore, id: string) returns (s: Submission)
      requires server.Valid()
      modifies this, server
      ensures server.Valid()
      ensures old(title) == [] || old(content) == [] ==>
        s == Skipped && unchanged(this) && unchanged(server)
      ensures old(title) != [] && old(content) != [] ==>
        && s.Sent?
        && s.request == NoteInput(old(title), old(content), Some(ParseTags(old(tags))))
        && (s.response.Ok? <==> Utf16Length(old(title)) <= MaxTitleLength && !HasId(old(server.notes), id))
        && (s.response.Ok? ==>
              server.clock == old(server.clock) + 1
              && s.response.value == Note(id, old(title), old(content), ParseTags(old(tags)), server.clock, server.clock)
              && server.notes == old(server.notes) + [s.response.value]
              && title == [] && content == [] && tags == [])
        && (s.response.Err? ==>
              s.response.error == (if Utf16Length(old(title)) > MaxTitleLength then InvalidInput([TitleTooLong]) else UniqueViolation)
              && server.notes == old(server.notes) && server.clock == old(server.clock)
              && title == old(title) && content == old(content) && tags == old(tags))
    {
      if title == [] || content == [] {
        return Skipped;
      }
      var request := NoteInput(title, content, Some(ParseTags(tags)));
      GuardedRequestIssues(title, content, tags);
      ghost var accepted := ParseCreate(request);
      assert accepted.Ok? <==> Utf16Length(title) <= MaxTitleLength;
      assert accepted.Err? ==> accepted.error == [TitleTooLong];
      var response := server.Create(request, id);
      if response.Ok? {
        title := [];
        content := [];
        tags := [];
      } else {
        assert response.error == (if accepted.Err? then InvalidInput([TitleTooLong]) else UniqueViolation);
      }
      s := Sent(request, response);
    }
  }

  /** A caller's view of the form, from the contracts alone: a filled form
      stores a note with its own title, content and id and is then cleared. */
  method ScenarioSubmit() returns (server: NoteStore, form: NoteForm, note: Note)
    ensures fresh(server) && fresh(form) && server.Valid()
    ensures server.notes == [note] && server.clock == 1
    ensures note.title == "T" && note.content == "C" && note.id == "n1" && note.tags == []
    ensures form.title == [] && form.content == [] && form.tags == []
  {
    server := new NoteStore();
    form := new NoteForm();
    form.title, form.content := "T", "C";
    var sent := form.OnCreate(server, "n1");
    note := sent.response.value;
  }

  /** Submitting again with an id already taken fails, keeps the form's text
      and leaves the table and the clock alone. */
  method ScenarioSubmitTwice()
  {
    var server, form, note := ScenarioSubmit();
    form.title, form.content := "T", "C";
    assert server.notes[0].id == "n1";
    var second := form.OnCreate(server, "n1");
    assert second.Sent? && second.response == Err(UniqueViolation);
    assert server.notes == [note] && server.clock == 1 && form.title == "T";
  }
}
