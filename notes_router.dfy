/** The notes procedure set over one table. The table is a sequence of notes
    owned by `NoteStore`; each procedure validates its input with the schemas
    before it touches the table. */
module NotesRouter {
  import opened Results
  import opened Seqs
  import opened Schemas
  import opened NoteQueries

  /** What a procedure can fail with. */
  datatype Failure =
    | InvalidInput(issues: seq<Issue>)  // a schema rejected the input
    | NotFound(message: string)         // thrown by getById itself
    | RecordNotFound                    // the storage layer found no row to update or delete
    | UniqueViolation                   // the storage layer refused a duplicate id

  const NoteNotFoundMessage := "Note not found"
  const DeletedMessage := "Note deleted successfully"

  datatype Pagination = Pagination(page: int, limit: int, total: nat, pages: nat)

  datatype NotesPage = NotesPage(notes: seq<Note>, pagination: Pagination)

  datatype Deleted = Deleted(success: bool, message: string)

  predicate UniqueIds(notes: seq<Note>)
  {
    forall i, j :: 0 <= i < j < |notes| ==> notes[i].id != notes[j].id
  }

  /** Some note in the table has this id. */
  predicate HasId(notes: seq<Note>, id: string)
  {
    exists i :: 0 <= i < |notes| && notes[i].id == id
  }

  /** The position of the note with this id, or -1 when there is none. */
  function FindId(notes: seq<Note>, id: string): (k: int)
    ensures -1 <= k < |notes|
    ensures k >= 0 ==> notes[k].id == id
    ensures k < 0 <==> !HasId(notes, id)
  {
    if notes == [] then -1
    else if notes[0].id == id then 0
    else
      var k := FindId(notes[1..], id);
      if k < 0 then -1 else k + 1
  }

  /** A row with a new id keeps the ids unique. */
  lemma AppendFreshId(notes: seq<Note>, n: Note)
    requires UniqueIds(notes) && !HasId(notes, n.id)
    ensures UniqueIds(notes + [n])
  {
  }

  /** A note with the supplied fields overwritten and `updatedAt` refreshed. */
  function Apply(n: Note, patch: NotePatch, now: nat): Note
  {
    n.(title := patch.title.GetOr(n.title),
       content := patch.content.GetOr(n.content),
       tags := patch.tags.GetOr(n.tags),
       updatedAt := now)
  }

  /** An accepted patch keeps a valid note valid; the note keeps its id and
      creation time, takes each supplied field and keeps each omitted one. */
  lemma ApplyKeepsNoteValid(n: Note, patch: NotePatch, now: nat)
    requires ValidNote(n) && ParseUpdate(patch).Ok?
    ensures ValidNote(Apply(n, patch, now))
    ensures Apply(n, patch, now).id == n.id && Apply(n, patch, now).createdAt == n.createdAt
    ensures Apply(n, patch, now).title == (if patch.title.Some? then patch.title.value else n.title)
    ensures Apply(n, patch, now).content == (if patch.content.Some? then patch.content.value else n.content)
    ensures Apply(n, patch, now).tags == (if patch.tags.Some? then patch.tags.value else n.tags)
    ensures Apply(n, patch, now).updatedAt == now
  {
  }

  class NoteStore {
    /** The rows of the table, in storage order. */
    var notes: seq<Note>
    /** The last timestamp handed out; every create and update advances it. */
    var clock: nat

    /** Ids are unique, every row passes the full-note schema, and no row is
        stamped later than the clock. */
    predicate Valid()
      reads this
    {
      && UniqueIds(notes)
      && forall i :: 0 <= i < |notes| ==>
           ValidNote(notes[i]) && notes[i].createdAt <= notes[i].updatedAt <= clock
    }

    constructor ()
      ensures Valid() && notes == [] && clock == 0
    {
      notes := [];
      clock := 0;
    }

    /** `create`: validate, apply the default, insert one row with a fresh id
        and the current time as both timestamps. `id` is the identifier the
        storage layer generates for the row. */
    method Create(input: NoteInput, id: string) returns (r: Result<Note, Failure>)
      requires Valid()
      modifies this
      ensures Valid()
      ensures r.Ok? <==> ParseCreate(input).Ok? && !HasId(old(notes), id)
      ensures ParseCreate(input).Err? ==>
        r == Err(InvalidInput(ParseCreate(input).error)) && notes == old(notes) && clock == old(clock)
      ensures ParseCreate(input).Ok? && HasId(old(notes), id) ==>
        r == Err(UniqueViolation) && notes == old(notes) && clock == old(clock)
      ensures r.Ok? ==>
        && clock == old(clock) + 1
        && r.value.id == id
        && r.value.title == input.title
        && r.value.content == input.content
        && r.value.tags == input.tags.GetOr([])
        && r.value.createdAt == r.value.updatedAt == clock
        && notes == old(notes) + [r.value]
    {
      var parsed := ParseCreate(input);
      if parsed.Err? {
        return Err(InvalidInput(parsed.error));
      }
      if FindId(notes, id) >= 0 {
        return Err(UniqueViolation);
      }
      var data := parsed.value;
      clock := clock + 1;
      var note := Note(id, data.title, data.content, data.tags, clock, clock);
      assert ValidNote(note);
      AppendFreshId(notes, note);
      notes := notes + [note];
      r := Ok(note);
    }

    /** `getById`: the note with this id, or "Note not found". */
    method GetById(id: string) returns (r: Result<Note, Failure>)
      ensures r.Ok? <==> |id| >= 1 && HasId(notes, id)
      ensures r.Ok? ==> r.value in notes && r.value.id == id
      ensures r.Err? ==>
        r.error == (if |id| < 1 then InvalidInput([IdRequired]) else NotFound(NoteNotFoundMessage))
    {
      var parsed := ParseId(id);
      if parsed.Err? {
        return Err(InvalidInput(parsed.error));
      }
      var k := FindId(notes, id);
      if k < 0 {
        return Err(NotFound(NoteNotFoundMessage));
      }
      r := Ok(notes[k]);
    }

    /** `getAll`: filter, order newest first, skip `(page-1)*limit`, take
        `limit`; report the filtered count and the page count. */
    method GetAll(input: QueryInput) returns (r: Result<NotesPage, Failure>)
      ensures r.Err? <==> ParseQuery(input).Err?
      ensures r.Err? ==> r.error == InvalidInput(ParseQuery(input).error)
      ensures r.Ok? ==>
        var q := ParseQuery(input).value;
        var matched := Matching(notes, q);
        var page := r.value;
        && page.pagination == Pagination(q.page, q.limit, |matched|, CeilDiv(|matched|, q.limit))
        && page.notes == Listing(notes, q)
        && |page.notes| <= q.limit
        && (|page.notes| > 0 <==> q.page <= page.pagination.pages)
        && NewestFirst(page.notes)
        && forall n :: n in page.notes ==> n in notes && Selected(q, n)
    {
      var parsed := ParseQuery(input);
      if parsed.Err? {
        return Err(InvalidInput(parsed.error));
      }
      var q := parsed.value;
      var skip := Skip(q);

      // Build the filter condition by condition.
      var where := Where(None, None);
      if q.search.Some? && q.search.value != [] {
        where := where.(text := q.search);
      }
      if q.tags.Some? && |q.tags.value| > 0 {
        where := where.(anyTag := q.tags);
      }

      // Both reads see the same table.
      var found := Window(OrderByRecency(Select(notes, where)), skip, q.limit);
      var total := |Select(notes, where)|;

      FilterAgree(notes, (n: Note) => Matches(where, n), (n: Note) => Selected(q, n));
      ListingSpec(notes, q);
      r := Ok(NotesPage(found, Pagination(q.page, q.limit, total, CeilDiv(total, q.limit))));
    }

    /** `update`: overwrite exactly the supplied fields of the note with this
        id and refresh its `updatedAt`; the other notes are untouched. */
    method Update(id: string, patch: NotePatch) returns (r: Result<Note, Failure>)
      requires Valid()
      modifies this
      ensures Valid()
      ensures ParseUpdate(patch).Err? ==>
        r == Err(InvalidInput(ParseUpdate(patch).error)) && notes == old(notes) && clock == old(clock)
      ensures ParseUpdate(patch).Ok? && !HasId(old(notes), id) ==>
        r == Err(RecordNotFound) && notes == old(notes) && clock == old(clock)
      ensures r.Ok? <==> ParseUpdate(patch).Ok? && HasId(old(notes), id)
      ensures r.Ok? ==>
        var k := FindId(old(notes), id);
        var before := old(notes)[k];
        && clock == old(clock) + 1
        && |notes| == |old(notes)|
        && notes[k] == r.value
        && r.value.id == id
        && r.value.title == (if patch.title.Some? then patch.title.value else before.title)
        && r.value.content == (if patch.content.Some? then patch.content.value else before.content)
        && r.value.tags == (if patch.tags.Some? then patch.tags.value else before.tags)
        && r.value.createdAt == before.createdAt
        && r.value.updatedAt == clock > before.updatedAt
        && forall i :: 0 <= i < |notes| && i != k ==> notes[i] == old(notes)[i]
    {
      var parsed := ParseUpdate(patch);
      if parsed.Err? {
        return Err(InvalidInput(parsed.error));
      }
      var data := parsed.value;

      // Only the fields that were supplied go into the update.
      var updateData := NotePatch(None, None, None);
      if data.title.Some? { updateData := updateData.(title := data.title); }
      if data.content.Some? { updateData := updateData.(content := data.content); }
      if data.tags.Some? { updateData := updateData.(tags := data.tags); }
      assert updateData == patch;

      var k := FindId(notes, id);
      if k < 0 {
        return Err(RecordNotFound);
      }
      ApplyKeepsNoteValid(notes[k], updateData, clock + 1);
      clock := clock + 1;
      var note := Apply(notes[k], updateData, clock);
      notes := notes[k := note];
      r := Ok(note);
    }

    /** `delete`: remove the note with this id and acknowledge. */
    method Delete(id: string) returns (r: Result<Deleted, Failure>)
      requires Valid()
      modifies this
      ensures Valid()
      ensures clock == old(clock)
      ensures |id| < 1 ==> r == Err(InvalidInput([IdRequired])) && notes == old(notes)
      ensures |id| >= 1 && !HasId(old(notes), id) ==> r == Err(RecordNotFound) && notes == old(notes)
      ensures r.Ok? <==> |id| >= 1 && HasId(old(notes), id)
      ensures r.Ok? ==>
        var k := FindId(old(notes), id);
        && r.value == Deleted(true, DeletedMessage)
        && notes == old(notes)[..k] + old(notes)[k + 1..]
        && !HasId(notes, id)
    {
      var parsed := ParseId(id);
      if parsed.Err? {
        return Err(InvalidInput(parsed.error));
      }
      var k := FindId(notes, id);
      if k < 0 {
        return Err(RecordNotFound);
      }
      ghost var before := notes;
      notes := notes[..k] + notes[k + 1..];
      forall i | 0 <= i < |notes| ensures notes[i].id != id {
        if i < k { assert notes[i] == before[i]; } else { assert notes[i] == before[i + 1]; }
      }
      r := Ok(Deleted(true, DeletedMessage));
    }

    /** `getTags`: every tag in use, once each, in ascending order. */
    method GetTags() returns (tags: seq<string>)
      ensures StrictlyAscending(tags)
      ensures NoDuplicates(tags)
      ensures forall t :: t in tags <==> exists n :: n in notes && t in n.tags
    {
      tags := UniqueTags(notes);
      UniqueTagsSpec(notes);
    }
  }

  /** The note the scenarios below create passes the create schema. */
  lemma ShoppingListAccepted()
    ensures ParseCreate(NoteInput("Shopping List", "Milk, bread, eggs", Some(["shopping", "personal"]))).Ok?
  {
  }

  /** A caller's view, from the contracts alone: a fresh table after one
      successful `create`. */
  method ScenarioCreate() returns (store: NoteStore, note: Note)
    ensures fresh(store) && store.Valid()
    ensures store.notes == [note]
    ensures note.id == "n1" && note.title == "Shopping List" && note.tags == ["shopping", "personal"]
  {
    store := new NoteStore();
    ShoppingListAccepted();
    var created := store.Create(NoteInput("Shopping List", "Milk, bread, eggs", Some(["shopping", "personal"])), "n1");
    note := created.value;
  }

  /** A created note reads back by its id, with its tags. */
  method ScenarioReadBack()
  {
    var store, note := ScenarioCreate();
    assert store.notes[0].id == "n1";
    var read := store.GetById("n1");
    assert read == Ok(note) && read.value.tags == ["shopping", "personal"];
  }

  /** An update of the title alone keeps content and tags and moves
      `updatedAt` forward. */
  method ScenarioRename()
  {
    var store, note := ScenarioCreate();
    assert FindId(store.notes, "n1") == 0;
    var patch := NotePatch(Some("Groceries"), None, None);
    assert ValidTitle(patch.title.value);
    var updated := store.Update("n1", patch);
    assert updated.Ok?;
    assert updated.value.title == "Groceries" && updated.value.content == note.content;
    assert updated.value.tags == note.tags && updated.value.updatedAt > note.updatedAt;
  }

  /** A second delete of the same id fails, and the note is then not found. */
  method ScenarioDeleteTwice()
  {
    var store, note := ScenarioCreate();
    assert FindId(store.notes, "n1") == 0;
    var first := store.Delete("n1");
    assert first == Ok(Deleted(true, DeletedMessage));
    var second := store.Delete("n1");
    assert second == Err(RecordNotFound);
    var missing := store.GetById("n1");
    assert missing == Err(NotFound("Note not found"));
  }
}
