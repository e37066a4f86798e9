/** The pure computations behind the notes listing and the tag listing:
    the `where` filter, the newest-first ordering, the skip/take window, the
    page count, and the flatten/deduplicate/sort pipeline of tags. */
module NoteQueries {
  import opened Results
  import opened Seqs
  import opened Text
  import opened Schemas

  // ---------------------------------------------------------------------------
  // Filtering
  // ---------------------------------------------------------------------------

  /** The note carries at least one of the wanted tags (`hasSome`). */
  predicate SharesTag(tags: seq<string>, wanted: seq<string>)
  {
    exists t :: t in wanted && t in tags
  }

  /** The filter the listing builds: an optional text condition (title OR
      content contains the term) and an optional tag-overlap condition. */
  datatype Where = Where(text: Option<string>, anyTag: Option<seq<string>>)

  predicate Matches(w: Where, n: Note)
  {
    && (w.text.None? || ContainsInsensitive(n.title, w.text.value) || ContainsInsensitive(n.content, w.text.value))
    && (w.anyTag.None? || SharesTag(n.tags, w.anyTag.value))
  }

  /** The rows the filter accepts, in table order. */
  function Select(notes: seq<Note>, w: Where): seq<Note>
  {
    Filter(notes, (n: Note) => Matches(w, n))
  }

  /** Which notes a validated query asks for, stated on the query itself: an
      absent or empty search term and an absent or empty tag list select all. */
  predicate Selected(q: Query, n: Note)
  {
    && (q.search.None? || q.search.value == []
        || ContainsInsensitive(n.title, q.search.value) || ContainsInsensitive(n.content, q.search.value))
    && (q.tags.None? || q.tags.value == [] || SharesTag(n.tags, q.tags.value))
  }

  /** The notes the query selects, in table order. */
  function Matching(notes: seq<Note>, q: Query): seq<Note>
  {
    Filter(notes, (n: Note) => Selected(q, n))
  }

  /** A note is matched exactly when it is in the table and selected. */
  lemma MatchingMembers(notes: seq<Note>, q: Query, n: Note)
    ensures n in Matching(notes, q) <==> n in notes && Selected(q, n)
  {
    FilterMembership(notes, (n: Note) => Selected(q, n), n);
  }

  /** A query without a search term or tags matches the whole table. */
  lemma NoFilterMatchesAll(notes: seq<Note>, q: Query)
    requires q.search.None? || q.search.value == []
    requires q.tags.None? || q.tags.value == []
    ensures Matching(notes, q) == notes
  {
    FilterAll(notes, (n: Note) => Selected(q, n));
  }

  /** OR semantics of the tag filter: a note tagged x, y matches a filter y, z. */
  lemma TagFilterIsOr(n: Note, q: Query)
    requires n.tags == ["x", "y"] && q.tags == Some(["y", "z"]) && q.search.None?
    ensures Selected(q, n)
  {
    assert "y" in q.tags.value && "y" in n.tags;
  }

  /** A search term matches regardless of case: "shop" finds "Shopping". */
  lemma SearchIgnoresCase(n: Note, q: Query)
    requires n.title == "Shopping" && q.search == Some("shop") && q.tags.None?
    ensures Selected(q, n)
  {
    assert Fold("Shopping")[..4] == Fold("shop");
  }

  // ---------------------------------------------------------------------------
  // Ordering by `updatedAt`, newest first
  // ---------------------------------------------------------------------------

  predicate NewestFirst(s: seq<Note>)
  {
    forall i, j :: 0 <= i < j < |s| ==> s[i].updatedAt >= s[j].updatedAt
  }

  function InsertByRecency(n: Note, s: seq<Note>): seq<Note>
  {
    if s == [] then [n]
    else if n.updatedAt >= s[0].updatedAt then [n] + s
    else [s[0]] + InsertByRecency(n, s[1..])
  }

  /** The table ordered by `updatedAt` descending (ties in any order). */
  function OrderByRecency(s: seq<Note>): seq<Note>
  {
    if s == [] then [] else InsertByRecency(s[0], OrderByRecency(s[1..]))
  }

  /** Inserting under a bound on `updatedAt` stays under it. */
  lemma {:induction false} InsertByRecencyBounded(n: Note, s: seq<Note>, bound: nat)
    requires n.updatedAt <= bound
    requires forall i :: 0 <= i < |s| ==> s[i].updatedAt <= bound
    ensures forall i :: 0 <= i < |InsertByRecency(n, s)| ==> InsertByRecency(n, s)[i].updatedAt <= bound
  {
    if s != [] && n.updatedAt < s[0].updatedAt {
      InsertByRecencyBounded(n, s[1..], bound);
    }
  }

  /** Inserting adds exactly the one note. */
  lemma {:induction false} InsertByRecencyAdds(n: Note, s: seq<Note>)
    ensures multiset(InsertByRecency(n, s)) == multiset(s) + multiset{n}
  {
    if s != [] && n.updatedAt < s[0].updatedAt {
      InsertByRecencyAdds(n, s[1..]);
      assert s == [s[0]] + s[1..];
    }
  }

  /** Inserting into a newest-first list keeps it newest first. */
  lemma {:induction false} InsertByRecencySorted(n: Note, s: seq<Note>)
    requires NewestFirst(s)
    ensures NewestFirst(InsertByRecency(n, s))
  {
    if s != [] && n.updatedAt < s[0].updatedAt {
      InsertByRecencySorted(n, s[1..]);
      InsertByRecencyBounded(n, s[1..], s[0].updatedAt);
    }
  }

  /** The ordering is a permutation of the table, newest first. */
  lemma {:induction false} OrderByRecencySpec(s: seq<Note>)
    ensures NewestFirst(OrderByRecency(s))
    ensures multiset(OrderByRecency(s)) == multiset(s)
  {
    if s != [] {
      OrderByRecencySpec(s[1..]);
      InsertByRecencySorted(s[0], OrderByRecency(s[1..]));
      InsertByRecencyAdds(s[0], OrderByRecency(s[1..]));
      assert s == [s[0]] + s[1..];
    }
  }

  // ---------------------------------------------------------------------------
  // Pagination
  // ---------------------------------------------------------------------------

  /** The rows after the first `skip`, at most `take` of them. */
  function Window(s: seq<Note>, skip: nat, take: nat): (w: seq<Note>)
    ensures |w| == if skip >= |s| then 0 else if |s| - skip < take then |s| - skip else take
    ensures forall i :: 0 <= i < |w| ==> w[i] == s[skip + i]
  {
    if skip >= |s| then []
    else if |s| - skip < take then s[skip..]
    else s[skip..skip + take]
  }

  /** Integer ceiling of total / limit. */
  function CeilDiv(total: nat, limit: nat): (pages: nat)
    requires limit >= 1
    ensures total <= pages * limit
    ensures pages >= 1 ==> (pages - 1) * limit < total
    ensures pages == 0 <==> total == 0
  {
    var q := (total + limit - 1) / limit;
    var r := (total + limit - 1) % limit;
    assert total + limit - 1 == q * limit + r;
    assert (q - 1) * limit == q * limit - limit;
    q
  }

  /** A page holds notes exactly when its number is at most the page count. */
  lemma PageInRange(total: nat, q: Query)
    requires ValidQuery(q)
    ensures Skip(q) < total <==> q.page <= CeilDiv(total, q.limit)
  {
    var pages := CeilDiv(total, q.limit);
    if q.page <= pages {
      assert (q.page - 1) * q.limit <= (pages - 1) * q.limit by {
        MultiplyMonotone(q.page - 1, pages - 1, q.limit);
      }
    } else {
      assert pages * q.limit <= (q.page - 1) * q.limit by {
        MultiplyMonotone(pages, q.page - 1, q.limit);
      }
    }
  }

  lemma MultiplyMonotone(a: int, b: int, c: nat)
    requires a <= b
    ensures a * c <= b * c
  {
  }

  /** The notes of the requested page: the matching notes, newest first,
      after skipping the earlier pages, at most `limit` of them. */
  function Listing(notes: seq<Note>, q: Query): seq<Note>
    requires ValidQuery(q)
  {
    Window(OrderByRecency(Matching(notes, q)), Skip(q), q.limit)
  }

  /** A page holds at most `limit` notes, is non-empty exactly up to the page
      count, is newest first, and holds only table notes the query selects. */
  lemma ListingSpec(notes: seq<Note>, q: Query)
    requires ValidQuery(q)
    ensures |Listing(notes, q)| <= q.limit
    ensures |Listing(notes, q)| > 0 <==> q.page <= CeilDiv(|Matching(notes, q)|, q.limit)
    ensures NewestFirst(Listing(notes, q))
    ensures forall n :: n in Listing(notes, q) ==> n in notes && Selected(q, n)
  {
    var matched := Matching(notes, q);
    var page := Listing(notes, q);
    OrderByRecencySpec(matched);
    PageInRange(|matched|, q);
    forall n | n in page ensures n in notes && Selected(q, n) {
      assert n in multiset(OrderByRecency(matched));
      MatchingMembers(notes, q, n);
    }
  }

  /** The listing's page 2 of 20 over 25 matching notes: 5 notes, 2 pages. */
  lemma SecondPageOfTwentyFive(s: seq<Note>)
    requires |s| == 25
    ensures |Window(s, Skip(Query(None, None, 2, 20)), 20)| == 5
    ensures CeilDiv(|s|, 20) == 2
  {
  }

  // ---------------------------------------------------------------------------
  // Tags: flatten, deduplicate, sort
  // ---------------------------------------------------------------------------

  /** Every note's tags, one note after another (`flatMap`). */
  function AllTags(notes: seq<Note>): seq<string>
  {
    if notes == [] then [] else notes[0].tags + AllTags(notes[1..])
  }

  lemma {:induction false} AllTagsMembers(notes: seq<Note>, t: string)
    ensures t in AllTags(notes) <==> exists n :: n in notes && t in n.tags
  {
    if notes != [] {
      AllTagsMembers(notes[1..], t);
      assert notes == [notes[0]] + notes[1..];
    }
  }

  predicate NoDuplicates(s: seq<string>)
  {
    forall i, j :: 0 <= i < j < |s| ==> s[i] != s[j]
  }

  /** The distinct tags in order of first occurrence, as a `Set` keeps them. */
  function Distinct(ts: seq<string>): (r: seq<string>)
    ensures NoDuplicates(r)
    ensures forall x :: x in r <==> x in ts
    decreases |ts|
  {
    if ts == [] then []
    else
      var d := Distinct(ts[..|ts| - 1]);
      var last := ts[|ts| - 1];
      assert ts == ts[..|ts| - 1] + [last];
      if last in d then d else d + [last]
  }

  predicate StrictlyAscending(s: seq<string>)
  {
    forall i, j :: 0 <= i < j < |s| ==> Less(s[i], s[j])
  }

  function InsertTag(t: string, s: seq<string>): seq<string>
  {
    if s == [] then [t]
    else if Less(s[0], t) then [s[0]] + InsertTag(t, s[1..])
    else [t] + s
  }

  /** Insertion sort in lexicographic order (`Array.prototype.sort`). */
  function SortTags(s: seq<string>): seq<string>
  {
    if s == [] then [] else InsertTag(s[0], SortTags(s[1..]))
  }

  lemma {:induction false} InsertTagSpec(t: string, s: seq<string>)
    requires StrictlyAscending(s) && t !in s
    ensures StrictlyAscending(InsertTag(t, s))
    ensures forall x :: x in InsertTag(t, s) <==> x == t || x in s
  {
    if s == [] {
    } else if Less(s[0], t) {
      var tail := InsertTag(t, s[1..]);
      InsertTagSpec(t, s[1..]);
      assert s == [s[0]] + s[1..];
      forall j | 0 <= j < |tail| ensures Less(s[0], tail[j]) {
        if tail[j] != t {
          assert tail[j] in s[1..];
          var k :| 0 <= k < |s[1..]| && s[1..][k] == tail[j];
          assert s[k + 1] == tail[j];
        }
      }
    } else {
      assert t != s[0];
      LessTotal(t, s[0]);
      forall j | 1 <= j < |s| ensures Less(t, s[j]) {
        LessTransitive(t, s[0], s[j]);
      }
    }
  }

  /** Sorting distinct tags gives them in strictly ascending order. */
  lemma {:induction false} SortTagsSpec(s: seq<string>)
    requires NoDuplicates(s)
    ensures StrictlyAscending(SortTags(s))
    ensures forall x :: x in SortTags(s) <==> x in s
  {
    if s != [] {
      SortTagsSpec(s[1..]);
      assert s == [s[0]] + s[1..];
      assert s[0] !in s[1..];
      InsertTagSpec(s[0], SortTags(s[1..]));
    }
  }

  /** The tag listing: flatten, deduplicate, sort. */
  function UniqueTags(notes: seq<Note>): seq<string>
  {
    SortTags(Distinct(AllTags(notes)))
  }

  /** The tag listing is strictly ascending, so free of duplicates, and holds
      exactly the tags that some note carries. */
  lemma UniqueTagsSpec(notes: seq<Note>)
    ensures StrictlyAscending(UniqueTags(notes))
    ensures NoDuplicates(UniqueTags(notes))
    ensures forall t :: t in UniqueTags(notes) <==> exists n :: n in notes && t in n.tags
  {
    SortTagsSpec(Distinct(AllTags(notes)));
    var r := UniqueTags(notes);
    forall i, j | 0 <= i < j < |r| ensures r[i] != r[j] {
      if r[i] == r[j] { LessIrreflexive(r[i]); }
    }
    forall t ensures t in r <==> exists n :: n in notes && t in n.tags {
      AllTagsMembers(notes, t);
    }
  }
}
