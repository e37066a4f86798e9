# Notes API — a verified model

This project models the core of a small notes service: a set of typed remote
procedures over one table of notes, the schemas that validate their input, and
the create form of the single-page client that calls them.

A note has an `id`, a `title`, a `content`, a list of `tags` and two
timestamps, `createdAt` and `updatedAt`. The service has six procedures:

- `create` validates its input, defaults omitted tags to `[]` and inserts a row.
- `getById` returns the note with an id, or throws "Note not found".
- `getAll` filters by a case-insensitive search term and by tag overlap, orders
  by `updatedAt` newest first, skips `(page-1)*limit` notes and takes `limit`.
  It also reports the filtered `total` and `pages = ceil(total/limit)`.
- `update` overwrites only the fields supplied.
- `delete` removes a row and acknowledges.
- `getTags` lists every tag in use, deduplicated and sorted.

The client's `onCreate` does nothing when the title or the content is empty.
Otherwise it sends the fields, with the tag text split on commas, trimmed and
stripped of empty pieces, and clears the form once the note is created.

Modules, one per concern:

- `Results` (`results.dfy`): `Option` for fields the caller may omit, and `Result` for a procedure's value or the error it throws.
- `Seqs` (`seqs.dfy`): `Filter` and `Map`, shared by the database filter and the client's `.filter`/`.map`.
- `Text` (`text.dfy`): the string primitives. These are the database's case-insensitive `contains`, and JavaScript's `trim`, `split` and default `sort` order.
- `Schemas` (`schemas.dfy`): `src/schemas/note.ts`. Each schema is a function from raw input to the parsed value (defaults applied) or the list of issues.
- `NoteQueries` (`note_queries.dfy`): the pure side of `src/routers/notes.ts`. It holds the `where` filter, the newest-first order, the skip/take window, the page count and the tag pipeline.
- `NotesRouter` (`notes_router.dfy`): the class `NoteStore`. It owns the table (`notes: seq<Note>`) and a monotone `clock`, and has one method per procedure.
- `App` (`app.dfy`): `frontend/src/App.tsx`. It holds the tag parser and the class `NoteForm`, whose three fields are the form state and whose `OnCreate` is the submit handler.

Facts about the source that shape the model:

- Tags are stored as an array and filtered with `hasSome` (src/routers/notes.ts:48). The model has no tag encoding.
- Filtering, ordering and pagination are part of the storage query (src/routers/notes.ts:54-60). The model's functions describe the result of that query.
- `update` and `delete` do not check for a missing id themselves (src/routers/notes.ts:89-92, 101-103). The storage layer throws, which the model records as `RecordNotFound`.
- The `id` of `update` is an unconstrained string (src/routers/notes.ts:77). An empty id is not an input error there; it is simply not found.
- String lengths in the schemas are JavaScript lengths, counted in UTF-16 code units (`Text.Utf16Length`). A character outside the Basic Multilingual Plane counts twice toward the 255 limit on titles.

## Model

| member | source | states |
|---|---|---|
| `Text.Utf16Length` | src/schemas/note.ts:5 | JavaScript's string length: between one and two code units per character |
| `Text.Utf16LengthBmp` | src/schemas/note.ts:5 | for text inside the Basic Multilingual Plane the code-unit length is the character count |
| `Text.Utf16LengthAstral` | src/schemas/note.ts:5 | text made only of characters outside the Basic Multilingual Plane is twice its character count |
| `Schemas.Message` | src/schemas/note.ts:5-18 | the message each schema check attaches, word for word; the query checks carry none of their own |
| `Schemas.TitleIssues` | src/schemas/note.ts:5 | the title check: `TitleRequired` when empty, else `TitleTooLong` above 255 UTF-16 code units, else nothing |
| `Schemas.ContentIssues` | src/schemas/note.ts:6 | the content check: `ContentRequired` when empty, else nothing |
| `Schemas.TagIssues` | src/schemas/note.ts:7 | at most one issue per tag, each a `TagEmpty` naming an index inside the list |
| `Schemas.TagIssuesAscending` | src/schemas/note.ts:7 | the issues come in tag order with strictly increasing indices, so no tag is named twice |
| `Schemas.TagIssuesPointAtEmptyTags` | src/schemas/note.ts:7 | every tag issue points at an empty tag; no issues iff every tag is non-empty |
| `Schemas.TagIssuesNameEveryEmptyTag` | src/schemas/note.ts:7 | every empty tag gets an issue naming its index; with the two rows above, exactly one issue per empty tag |
| `Schemas.OptionalTagIssues` | src/schemas/note.ts:7 | an omitted tag list raises no issue; a supplied one raises none iff all tags are non-empty |
| `Schemas.ParseCreate` | src/schemas/note.ts:4-11 | create input is accepted iff the title is non-empty with at most 255 UTF-16 code units, content non-empty and every supplied tag non-empty; fields kept; omitted tags become `[]`; a rejection lists at least one issue |
| `Schemas.TitleBoundInclusive` | src/schemas/note.ts:5 | a title of 255 code units passes and one of 256 fails, although the message says "less than 255" |
| `Schemas.TitleBoundCountsCodeUnits` | src/schemas/note.ts:5 | 200 emoji (400 code units) are too long for a title, while 255 letters `a` fit |
| `Schemas.ParseUpdate` | src/schemas/note.ts:14 | every field optional; accepted iff each supplied field meets the create constraint; omitted fields stay absent |
| `Schemas.PartialAgreesWithCreate` | src/schemas/note.ts:14 | with all fields present, the update schema and the create schema accept the same input |
| `Schemas.EmptyPatchAccepted` | src/schemas/note.ts:14 | an update with no fields is accepted and stays empty |
| `Schemas.ParseId` | src/schemas/note.ts:17-19 | an id is accepted iff it is non-empty, else the one issue "Note ID is required" |
| `Schemas.PageIssues` | src/schemas/note.ts:25 | an omitted page passes; a supplied one below 1 gives `PageNotPositive` |
| `Schemas.LimitIssues` | src/schemas/note.ts:26 | an omitted limit passes; a supplied one below 1 gives `LimitNotPositive`, above 100 `LimitTooLarge` |
| `Schemas.ParseQuery` | src/schemas/note.ts:22-27 | accepted iff a supplied page is >= 1 and a supplied limit is in 1..100; defaults 1 and 20; search and tags pass through; hence skip >= 0 |
| `Schemas.Skip` | src/routers/notes.ts:34 | the number of notes before the requested page, `(page - 1) * limit` |
| `Schemas.QueryTagsUnchecked` | src/schemas/note.ts:24 | query tags may be empty strings, which note tags may not |
| `Schemas.NoteExtendsBase` | src/schemas/note.ts:30-34 | a full note is valid iff its base fields pass the create schema; id and timestamps add no constraint |
| `Text.ContainsInsensitive` | src/routers/notes.ts:41-42 | the search term occurs in the text once both are case-folded (`contains` with `mode: 'insensitive'`) |
| `Text.ContainsGivesInfix` | src/routers/notes.ts:41-42 | a successful substring search has found a contiguous block of the text |
| `Text.InfixGivesContains` | src/routers/notes.ts:41-42 | every contiguous block of the text is found by the search |
| `Text.ContainsIsInfix` | src/routers/notes.ts:41-42 | the substring search succeeds iff the term is a contiguous block of the text |
| `Text.Less` | src/routers/notes.ts:116 | the default sort comparison: at the first difference the smaller character wins, and a proper prefix sorts first |
| `Text.LessIrreflexive` | src/routers/notes.ts:116 | no string sorts before itself |
| `Text.LessTransitive` | src/routers/notes.ts:116 | the sort order is transitive |
| `Text.LessTotal` | src/routers/notes.ts:116 | of two different strings one sorts before the other |
| `Text.Trim` | frontend/src/App.tsx:23 | `trim`: whitespace cut from both ends |
| `Text.TrimStartSpec` | frontend/src/App.tsx:23 | trimming the start drops a whitespace prefix only and leaves no leading whitespace |
| `Text.TrimEndSpec` | frontend/src/App.tsx:23 | trimming the end drops a whitespace suffix only and leaves no trailing whitespace |
| `Text.TrimSpec` | frontend/src/App.tsx:23 | `trim` yields an infix with only whitespace cut away, no whitespace at either end, and "" iff the input is all whitespace |
| `Text.Split` | frontend/src/App.tsx:23 | splitting always yields at least one piece |
| `Text.SplitPieces` | frontend/src/App.tsx:23 | one more piece than there are commas; no piece contains a comma |
| `Text.SplitConcat` | frontend/src/App.tsx:23 | splitting at a comma splits the two sides independently |
| `Text.SplitWhole` | frontend/src/App.tsx:23 | a string without commas is one piece |
| `Seqs.Filter` | src/routers/notes.ts:54-55 | the filter never grows the list and keeps only accepted elements |
| `Seqs.FilterMembership` | src/routers/notes.ts:54-55 | an element survives the filter iff it was present and accepted |
| `Seqs.FilterConcat` | frontend/src/App.tsx:23 | filtering keeps the left-to-right order (distributes over concatenation) |
| `NoteQueries.Select` | src/routers/notes.ts:36-50 | the rows the built `where` accepts, in table order: a text condition on title or content, and a tag-overlap condition, each only when present |
| `NoteQueries.Selected` | src/routers/notes.ts:39-50 | a note passes the query when a non-empty search term occurs in its title or content ignoring case, and when a non-empty tag list shares a tag with it; an absent or empty condition passes every note |
| `NoteQueries.Matching` | src/routers/notes.ts:39-50 | the table's notes that pass the query, in table order |
| `NoteQueries.MatchingMembers` | src/routers/notes.ts:39-50 | a note is matched iff it is in the table and passes the search filter and the tag filter |
| `NoteQueries.NoFilterMatchesAll` | src/routers/notes.ts:37-50 | an absent or empty search and an absent or empty tag list match the whole table |
| `NoteQueries.TagFilterIsOr` | src/routers/notes.ts:46-50 | the tag filter needs one shared tag: notes tagged x, y match the filter y, z |
| `NoteQueries.SearchIgnoresCase` | src/routers/notes.ts:39-44 | the search ignores case: "shop" finds the title "Shopping" |
| `NoteQueries.OrderByRecency` | src/routers/notes.ts:56 | the notes ordered by `updatedAt`, newest first (insertion sort) |
| `NoteQueries.InsertByRecencyBounded` | src/routers/notes.ts:56 | inserting a note no newer than a bound into a list no newer than it keeps the list under the bound |
| `NoteQueries.InsertByRecencyAdds` | src/routers/notes.ts:56 | inserting adds exactly that note (as a multiset) |
| `NoteQueries.InsertByRecencySorted` | src/routers/notes.ts:56 | inserting into a newest-first list keeps it newest first |
| `NoteQueries.OrderByRecencySpec` | src/routers/notes.ts:56 | the ordering is a permutation of its input with non-increasing `updatedAt` |
| `NoteQueries.Window` | src/routers/notes.ts:57-58 | the window skips `skip` rows and takes min(`take`, what remains) |
| `NoteQueries.CeilDiv` | src/routers/notes.ts:69 | pages is the least count with total <= pages*limit; pages = 0 iff total = 0 |
| `NoteQueries.PageInRange` | src/routers/notes.ts:34 | the skipped count is below the total iff the page number is at most the page count |
| `NoteQueries.Listing` | src/routers/notes.ts:53-59 | the page of notes `getAll` returns: the matching notes newest first, after skipping `Skip(q)`, at most `limit` of them |
| `NoteQueries.ListingSpec` | src/routers/notes.ts:53-59 | a page has at most `limit` notes, is non-empty iff page <= pages, is newest first, and holds only selected table notes |
| `NoteQueries.SecondPageOfTwentyFive` | src/routers/notes.ts:57-69 | 25 matching notes at page 2, limit 20: 5 notes and 2 pages |
| `NoteQueries.AllTags` | src/routers/notes.ts:115 | every note's tags, one note after another (`flatMap`) |
| `NoteQueries.AllTagsMembers` | src/routers/notes.ts:115 | the flattened tags hold exactly the tags of some note |
| `NoteQueries.Distinct` | src/routers/notes.ts:116 | deduplication leaves no duplicates and keeps exactly the same tags |
| `NoteQueries.InsertTagSpec` | src/routers/notes.ts:116 | inserting a new tag into a strictly ascending list keeps it strictly ascending |
| `NoteQueries.SortTags` | src/routers/notes.ts:116 | the tags sorted ascending by the default comparison |
| `NoteQueries.SortTagsSpec` | src/routers/notes.ts:116 | sorting distinct tags gives them strictly ascending, same elements |
| `NoteQueries.UniqueTags` | src/routers/notes.ts:115-116 | the tags of all notes, deduplicated and sorted |
| `NoteQueries.UniqueTagsSpec` | src/routers/notes.ts:115-118 | the tag list is strictly ascending, duplicate-free, and holds exactly the union of all notes' tags |
| `NotesRouter.FindId` | src/routers/notes.ts:20-22 | the lookup returns a position holding the id, or -1 iff no note has it |
| `NotesRouter.Apply` | src/routers/notes.ts:84-92 | the row after an update: each supplied field replaces the stored one, `updatedAt` becomes the new time |
| `NotesRouter.ApplyKeepsNoteValid` | src/routers/notes.ts:84-92 | an accepted patch keeps a valid note valid, keeps its id and `createdAt`, takes each supplied field, keeps each omitted one and stamps `updatedAt` |
| `NotesRouter.NoteStore.constructor` | src/routers/notes.ts:5 | the table starts empty and valid |
| `NotesRouter.NoteStore.Create` | src/routers/notes.ts:7-14 | rejected input or a duplicate id changes nothing; otherwise one note with the parsed fields and fresh equal timestamps is appended; ids stay unique and rows stay valid |
| `NotesRouter.NoteStore.GetById` | src/routers/notes.ts:17-27 | succeeds iff the id is non-empty and present, returning that note; otherwise an input error or "Note not found" |
| `NotesRouter.NoteStore.GetAll` | src/routers/notes.ts:30-72 | rejected query gives its issues; otherwise the page of newest-first selected notes, `total` = matched count, `pages` = ceil(total/limit), page non-empty iff page <= pages |
| `NotesRouter.NoteStore.Update` | src/routers/notes.ts:75-95 | overwrites exactly the supplied fields, refreshes `updatedAt` to a later time, keeps `id`/`createdAt` and every other note; rejected patch or missing id changes nothing |
| `NotesRouter.NoteStore.Delete` | src/routers/notes.ts:98-106 | removes exactly the note with the id and returns success with "Note deleted successfully"; the id is then absent; empty or missing id changes nothing |
| `NotesRouter.NoteStore.GetTags` | src/routers/notes.ts:109-119 | strictly ascending, duplicate-free, exactly the tags some note carries |
| `App.ParseTags` | frontend/src/App.tsx:23 | the tag text split on commas, each piece trimmed, empty pieces dropped |
| `App.ParsedTagsTrimmedNonEmpty` | frontend/src/App.tsx:23 | every parsed tag is non-empty with no whitespace at either end |
| `App.ParsedTagsPassSchema` | frontend/src/App.tsx:23 | parsed tags always pass the server's tag constraint |
| `App.GuardedRequestIssues` | frontend/src/App.tsx:19-24 | after the guard, the server's create schema can reject only a title over 255 UTF-16 code units |
| `App.ParseTagsConcat` | frontend/src/App.tsx:23 | parsing around a comma concatenates the two sides' tags: order and duplicates kept |
| `App.ParseTagsSegment` | frontend/src/App.tsx:23 | a comma-free segment gives its trimmed text, or nothing when blank |
| `App.ParseTagsKeepsDuplicates` | frontend/src/App.tsx:23 | "a,a" parses to two tags |
| `App.ParseTagsCount` | frontend/src/App.tsx:23 | at most one more tag than commas |
| `App.ParseTagsBlank` | frontend/src/App.tsx:23 | the parse is empty iff the text holds only commas and whitespace |
| `App.NoteForm.constructor` | frontend/src/App.tsx:5-7 | the three fields start empty |
| `App.NoteForm.OnCreate` | frontend/src/App.tsx:17-28 | empty title or content: no call, nothing changes; otherwise one create call with the parsed tags; on success the note is stored and the fields cleared; the stored note is exactly `id`, the form's title and content, the parsed tags and the new clock time as both timestamps; a failure is `TitleTooLong` when the title is over 255 code units and otherwise the duplicate id, and leaves form, table and clock as they were |

## Left out

- The database client and the database are not modelled. The table is a sequence of notes.
- The id the database generates is a parameter of `create` (and of `onCreate`). A collision is the `UniqueViolation` failure.
- Timestamps are ticks of a counter that every create and update advances. Wall-clock time is not modelled.
- Storage failures other than a duplicate id or a missing row (I/O, connection loss) are not modelled.
- `findMany` and `count` run concurrently in the source. The model evaluates both, one after the other, on the same table state.
- Case-insensitive matching uses ASCII case folding. The database collation's folding of other letters, and how the database treats pattern characters inside the term, are not modelled.
- `Math.ceil` on a floating-point quotient is modelled as integer ceiling division.
- NotesRouter.NoteStore.GetAll: the order among notes with equal `updatedAt` is the database's choice. The model fixes one such order; the property claimed for the source is only that pages are newest first.
- JavaScript's default sort compares UTF-16 code units. The model compares characters (Unicode scalar values). The two orders differ only for characters outside the Basic Multilingual Plane.
- Inputs of the wrong JavaScript type are excluded by the model's types. This covers missing required fields, non-strings, and non-integer or non-numeric `page`/`limit`.
- The wording of the validation library's default messages for the query checks is not modelled. Only the messages written in the schemas are.
- Schemas.ParseUpdate: an omitted field stays absent, also `tags`, as in zod 3's `.partial()`, whose optional wrapper skips the inner `.default([])` (src/schemas/note.ts:7, 14). The source does not pin the zod version. Under zod 4, defaults inside optional properties apply, an update without `tags` would parse to `tags: []`, and src/routers/notes.ts:87 would clear the note's tags. The model does not capture that.
- Schemas.Skip: `(page - 1) * limit` (src/routers/notes.ts:34) is computed exactly on unbounded integers. The source computes it in floating point, which is inexact above 2^53. Very large page numbers are not modelled.
- An update with no fields still refreshes `updatedAt`. The model assumes the storage layer's automatic timestamp applies on every successful update.
- Not modelled: the transport layer (`src/trpc.ts`, `src/routers/index.ts`, `frontend/src/trpc.ts`), React rendering, hooks, refetch after mutations, the pending-state button and `preventDefault`.
- The list's delete button (frontend/src/App.tsx:51) is UI wiring around `delete`.
- `src/seed.ts`, `src/test-client.ts` and `frontend/src/index.tsx` are scripts and bootstrap. They are not part of this model.
