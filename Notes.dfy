/**
 * The notes page: the category list offered in the selector, the search and
 * category filter, the newest-first sort, and the card's content preview and
 * tag chips. Case folding (`toLowerCase`) is a parameter of the model.
 */
module Notes {
  import opened Wrappers
  import opened Types
  import Seqs
  import Sorting

  // -------------------------------------------------------------- categories

  /** `Array.from(new Set(notes.map(note => note.category))).filter(Boolean)`. */
  function Categories(ns: seq<Note>): seq<string> {
    Seqs.Filter(Seqs.Distinct(CategoryColumn(ns)), (c: string) => c != "")
  }

  /** The categories of the notes, one per note, in note order. */
  function CategoryColumn(ns: seq<Note>): seq<string> {
    Seqs.Map(ns, (n: Note) => n.category)
  }

  /** The selector offers exactly the non-empty categories that some note has. */
  lemma CategoriesAreTheUsedOnes(ns: seq<Note>)
    ensures forall c :: c in Categories(ns) <==> c != "" && exists i :: 0 <= i < |ns| && ns[i].category == c
  {
    var all := CategoryColumn(ns);
    forall c ensures c in Categories(ns) <==> c != "" && exists i :: 0 <= i < |ns| && ns[i].category == c {
      if c in all {
        var i :| 0 <= i < |all| && all[i] == c;
        assert ns[i].category == c;
      }
      if exists i :: 0 <= i < |ns| && ns[i].category == c {
        var i :| 0 <= i < |ns| && ns[i].category == c;
        assert all[i] == c;
      }
    }
  }

  /** Each category is offered once. */
  lemma CategoriesDistinct(ns: seq<Note>)
    ensures Seqs.Pairwise(Categories(ns), (x: string, y: string) => x != y)
  {
    var d := Seqs.Distinct(CategoryColumn(ns));
    Seqs.FilterIsSubsequence(d, (c: string) => c != "");
    Seqs.SubsequencePairwise(Categories(ns), d, (x: string, y: string) => x != y);
  }

  /** `x` occurs in `s` before any occurrence of `y`. */
  ghost predicate OccursFirst(s: seq<string>, x: string, y: string) {
    forall k :: 0 <= k < |s| && s[k] == y ==> x in s[..k]
  }

  /**
   * The categories come in the order of their first occurrence: wherever a
   * later-offered category occurs among the notes, an earlier-offered one has
   * already occurred.
   */
  lemma CategoriesInFirstAppearanceOrder(ns: seq<Note>)
    ensures Seqs.Pairwise(Categories(ns), (x: string, y: string) => OccursFirst(CategoryColumn(ns), x, y))
  {
    var all := CategoryColumn(ns);
    var d := Seqs.Distinct(all);
    var before := (x: string, y: string) => OccursFirst(all, x, y);
    Seqs.DistinctKeepsFirstAppearanceOrder(all);
    assert Seqs.Pairwise(d, before);
    Seqs.FilterIsSubsequence(d, (c: string) => c != "");
    Seqs.SubsequencePairwise(Categories(ns), d, before);
  }

  // ------------------------------------------------------------------ search

  /**
   * `matchesSearch`: the lower-cased term occurs in the lower-cased title, in
   * the lower-cased content, or in some lower-cased tag.
   */
  predicate MatchesSearch(n: Note, term: string, lower: string -> string) {
    || Seqs.Includes(lower(n.title), lower(term))
    || Seqs.Includes(lower(n.content), lower(term))
    || Seqs.AnyOf(n.tags, (tag: string) => Seqs.Includes(lower(tag), lower(term)))
  }

  /** `matchesCategory`: no selection (the empty string) accepts every note. */
  predicate MatchesCategory(n: Note, selected: string) {
    selected == "" || n.category == selected
  }

  /** `filteredNotes`. */
  function FilteredNotes(ns: seq<Note>, term: string, selected: string, lower: string -> string): seq<Note> {
    Seqs.Filter(ns, (n: Note) => MatchesSearch(n, term, lower) && MatchesCategory(n, selected))
  }

  /** A note matches the search exactly when the folded term occurs at some position of a folded field. */
  lemma SearchIffOccurs(n: Note, term: string, lower: string -> string)
    ensures MatchesSearch(n, term, lower) <==>
      || (exists i :: Seqs.OccursAt(lower(n.title), lower(term), i))
      || (exists i :: Seqs.OccursAt(lower(n.content), lower(term), i))
      || (exists t, i :: 0 <= t < |n.tags| && Seqs.OccursAt(lower(n.tags[t]), lower(term), i))
  {
    Seqs.IncludesIffOccurs(lower(n.title), lower(term));
    Seqs.IncludesIffOccurs(lower(n.content), lower(term));
    forall t | 0 <= t < |n.tags| {
      Seqs.IncludesIffOccurs(lower(n.tags[t]), lower(term));
    }
  }

  /** An empty search term matches every note, since folding leaves "" empty. */
  lemma EmptySearchMatchesAll(n: Note, lower: string -> string)
    requires lower("") == ""
    ensures MatchesSearch(n, "", lower)
  {
    Seqs.IncludesEmpty(lower(n.title));
  }

  /**
   * The filtered notes are the notes passing both tests, each as often as it
   * occurs, in their original order; with an empty term and no category, all notes.
   */
  lemma FilteredNotesSpec(ns: seq<Note>, term: string, selected: string, lower: string -> string)
    ensures forall n: Note :: multiset(FilteredNotes(ns, term, selected, lower))[n]
              == if MatchesSearch(n, term, lower) && MatchesCategory(n, selected) then multiset(ns)[n] else 0
    ensures Seqs.SubsequenceOf(FilteredNotes(ns, term, selected, lower), ns)
    ensures term == "" && selected == "" && lower("") == "" ==> FilteredNotes(ns, term, selected, lower) == ns
  {
    var p := (n: Note) => MatchesSearch(n, term, lower) && MatchesCategory(n, selected);
    Seqs.FilterIsSubsequence(ns, p);
    if term == "" && selected == "" && lower("") == "" {
      forall i | 0 <= i < |ns| ensures p(ns[i]) {
        EmptySearchMatchesAll(ns[i], lower);
      }
      Seqs.FilterKeepsAll(ns, p);
    }
  }

  /** With a category selected, exactly the notes of that category can appear. */
  lemma CategoryFilterExact(ns: seq<Note>, term: string, selected: string, lower: string -> string)
    requires selected != ""
    ensures forall n :: n in FilteredNotes(ns, term, selected, lower) ==> n.category == selected
  {
  }

  // -------------------------------------------------------------------- sort

  /** The `sort` callback: later `updatedAt` first. */
  function NewerFirst(a: Note, b: Note): bool {
    b.updatedAt - a.updatedAt <= 0
  }

  /** `sortedNotes`: a newest-first permutation of the filtered notes. */
  function SortedNotes(ns: seq<Note>): (r: seq<Note>)
    ensures |r| == |ns| && multiset(r) == multiset(ns)
    ensures forall i, j :: 0 <= i < j < |r| ==> r[i].updatedAt >= r[j].updatedAt
  {
    assert Sorting.TotalPreorder(NewerFirst);
    var r := Sorting.InsertionSort(ns, NewerFirst);
    assert |r| == |multiset(r)| == |multiset(ns)| == |ns|;
    assert forall i, j :: 0 <= i < j < |r| ==> NewerFirst(r[i], r[j]);
    r
  }

  function UpdatedAt(stamp: Millis): Note -> bool {
    (n: Note) => n.updatedAt == stamp
  }

  /** The sort is stable: notes updated at the same instant keep their order in the filtered list. */
  lemma SortedNotesIsStable(ns: seq<Note>, stamp: Millis)
    ensures Seqs.Filter(SortedNotes(ns), UpdatedAt(stamp)) == Seqs.Filter(ns, UpdatedAt(stamp))
  {
    var n := Note("", "", "", "", [], 0, stamp);
    var tied := Sorting.TiedWith(NewerFirst, n);
    assert Sorting.TotalPreorder(NewerFirst);
    assert forall m: Note :: tied(m) == UpdatedAt(stamp)(m);
    Sorting.InsertionSortIsStable(ns, NewerFirst, n);
    Seqs.FilterSamePredicate(SortedNotes(ns), tied, UpdatedAt(stamp));
    Seqs.FilterSamePredicate(ns, tied, UpdatedAt(stamp));
  }

  /** What the page lists: the filtered notes, newest first. */
  function VisibleNotes(ns: seq<Note>, term: string, selected: string, lower: string -> string): seq<Note> {
    SortedNotes(FilteredNotes(ns, term, selected, lower))
  }

  /**
   * Every listed note is in the collection and passes both tests, each note
   * passing them is listed once per occurrence, and the list runs newest first.
   */
  lemma VisibleNotesAreFiltered(ns: seq<Note>, term: string, selected: string, lower: string -> string)
    ensures forall n: Note :: multiset(VisibleNotes(ns, term, selected, lower))[n]
              == if MatchesSearch(n, term, lower) && MatchesCategory(n, selected) then multiset(ns)[n] else 0
    ensures |VisibleNotes(ns, term, selected, lower)| <= |ns|
    ensures forall i, j :: 0 <= i < j < |VisibleNotes(ns, term, selected, lower)| ==>
              VisibleNotes(ns, term, selected, lower)[i].updatedAt >= VisibleNotes(ns, term, selected, lower)[j].updatedAt
  {
    FilteredNotesSpec(ns, term, selected, lower);
  }

  // ------------------------------------------------------------ note card

  const DefaultMaxLength: nat := 150

  /** `truncateContent`: short content as it is, long content cut and marked with "...". */
  function TruncateContent(content: string, maxLength: nat): (r: string)
    ensures |content| <= maxLength ==> r == content
    ensures |content| > maxLength ==> |r| == maxLength + 3 && Seqs.IsPrefix(content[..maxLength], r)
                                      && r[maxLength..] == "..."
  {
    if |content| <= maxLength then content
    else content[..maxLength] + "..."
  }

  /** What the card shows: `truncateContent(note.content)` at the default length. */
  function Preview(content: string): (r: string)
    ensures |r| <= DefaultMaxLength + 3
    ensures |content| <= DefaultMaxLength ==> r == content
    ensures |content| > DefaultMaxLength ==> |r| == DefaultMaxLength + 3 && r[..DefaultMaxLength] == content[..DefaultMaxLength]
                                             && r[DefaultMaxLength..] == "..."
  {
    TruncateContent(content, DefaultMaxLength)
  }

  /** A preview of a preview is the same preview. */
  lemma TruncateIdempotent(content: string, maxLength: nat)
    ensures TruncateContent(TruncateContent(content, maxLength), maxLength) == TruncateContent(content, maxLength)
  {
    var r := TruncateContent(content, maxLength);
    if |content| > maxLength {
      assert r[..maxLength] == content[..maxLength];
    }
  }

  /** The card shows every tag when there are at most this many. */
  const MaxTagChips: nat := 3

  /** `note.tags.slice(0, 3)`. */
  function ShownTags(tags: seq<string>): seq<string> {
    if |tags| <= MaxTagChips then tags else tags[..MaxTagChips]
  }

  /** The "+n more" chip, present only when there are more than three tags. */
  function MoreTagsChip(tags: seq<string>): Option<nat> {
    if |tags| > MaxTagChips then Some(|tags| - MaxTagChips) else None
  }

  /**
   * The chips show at most three tags, the first ones in their order, and the
   * overflow count accounts for every tag left out.
   */
  lemma TagChipsAccountForAll(tags: seq<string>)
    ensures |ShownTags(tags)| == if |tags| <= MaxTagChips then |tags| else MaxTagChips
    ensures Seqs.IsPrefix(ShownTags(tags), tags)
    ensures |ShownTags(tags)| + (match MoreTagsChip(tags) case Some(k) => k case None => 0) == |tags|
    ensures MoreTagsChip(tags).Some? <==> |ShownTags(tags)| < |tags|
  {
  }
}
