/**
 * The Note store (the `NoteProvider`): the same shape as the Task store, over
 * notes, under the local-storage key "notes", and without a toggle.
 */
module NoteContext {
  import opened Wrappers
  import opened Types
  import Ids
  import Seqs
  import Persistence

  // ---------------------------------------------------------------- addNote

  /** The record `addNote` builds: the caller's fields, an id and two timestamps from the clock. */
  function NewNote(draft: NoteDraft, nowMs: nat, createdAt: Millis, updatedAt: Millis): Note {
    Note(Ids.Decimal(nowMs), draft.title, draft.content, draft.category, draft.tags, createdAt, updatedAt)
  }

  /** The caller-supplied part of a note, `Omit<Note, "id" | "createdAt" | "updatedAt">`. */
  function DraftOf(n: Note): NoteDraft {
    NoteDraft(n.title, n.content, n.category, n.tags)
  }

  lemma NewNoteStamps(draft: NoteDraft, nowMs: nat, createdAt: Millis, updatedAt: Millis)
    ensures DraftOf(NewNote(draft, nowMs, createdAt, updatedAt)) == draft
    ensures Ids.DecimalValue(NewNote(draft, nowMs, createdAt, updatedAt).id) == nowMs
    ensures NewNote(draft, nowMs, createdAt, updatedAt).createdAt == createdAt
    ensures NewNote(draft, nowMs, createdAt, updatedAt).updatedAt == updatedAt
  {
    Ids.DecimalRoundTrip(nowMs);
  }

  // ------------------------------------------------------------- updateNote

  /** `{ ...note, ...patch, updatedAt: now }`. */
  function MergeNote(n: Note, patch: NotePatch, now: Millis): Note {
    Note(
      Spread(patch.id, n.id),
      Spread(patch.title, n.title),
      Spread(patch.content, n.content),
      Spread(patch.category, n.category),
      Spread(patch.tags, n.tags),
      Spread(patch.createdAt, n.createdAt),
      now)
  }

  /**
   * A merge stamps `updatedAt` with the current time; a patch's tag list replaces
   * the note's tags outright (the spread is shallow), and tags the patch does not
   * carry are kept; an empty patch changes nothing but the stamp.
   */
  lemma MergeNoteStamps(n: Note, patch: NotePatch, now: Millis)
    ensures MergeNote(n, patch, now).updatedAt == now
    ensures MergeNote(n, patch, now).tags == if patch.tags.Some? then patch.tags.value else n.tags
    ensures MergeNote(n, EmptyNotePatch, now) == n.(updatedAt := now)
  {
  }

  /**
   * The spread: every key the patch carries replaces the note's field (`id`
   * included, which renames the note), and every key it leaves out keeps the
   * note's value; `updatedAt` is the current time either way.
   */
  lemma MergeNoteOverwrites(n: Note, patch: NotePatch, now: Millis)
    ensures MergeNote(n, patch, now).id == if patch.id.Some? then patch.id.value else n.id
    ensures MergeNote(n, patch, now).title == if patch.title.Some? then patch.title.value else n.title
    ensures MergeNote(n, patch, now).content == if patch.content.Some? then patch.content.value else n.content
    ensures MergeNote(n, patch, now).category == if patch.category.Some? then patch.category.value else n.category
    ensures MergeNote(n, patch, now).tags == if patch.tags.Some? then patch.tags.value else n.tags
    ensures MergeNote(n, patch, now).createdAt == if patch.createdAt.Some? then patch.createdAt.value else n.createdAt
    ensures MergeNote(n, patch, now).updatedAt == now
  {
  }

  /** `notes.map(note => note.id === id ? merged : note)`. */
  function UpdatedNotes(ns: seq<Note>, id: string, patch: NotePatch, now: Millis): seq<Note> {
    Seqs.Map(ns, (n: Note) => if n.id == id then MergeNote(n, patch, now) else n)
  }

  predicate HasNote(ns: seq<Note>, id: string) {
    exists i :: 0 <= i < |ns| && ns[i].id == id
  }

  /**
   * An update keeps the length and the order, leaves notes with another id
   * untouched, merges every note with the id, and is a no-op for a missing id.
   */
  lemma UpdateFrame(ns: seq<Note>, id: string, patch: NotePatch, now: Millis)
    ensures |UpdatedNotes(ns, id, patch, now)| == |ns|
    ensures forall i :: 0 <= i < |ns| && ns[i].id != id ==> UpdatedNotes(ns, id, patch, now)[i] == ns[i]
    ensures forall i :: 0 <= i < |ns| && ns[i].id == id ==>
              UpdatedNotes(ns, id, patch, now)[i] == MergeNote(ns[i], patch, now)
    ensures !HasNote(ns, id) ==> UpdatedNotes(ns, id, patch, now) == ns
  {
  }

  // ------------------------------------------------------------- deleteNote

  /** `notes.filter(note => note.id !== id)`. */
  function WithoutNote(ns: seq<Note>, id: string): seq<Note> {
    Seqs.Filter(ns, (n: Note) => n.id != id)
  }

  /**
   * A delete removes every note with the id, keeps the others (with their
   * multiplicity) in their original relative order, and is a no-op for a missing id.
   */
  lemma DeleteFrame(ns: seq<Note>, id: string)
    ensures !HasNote(WithoutNote(ns, id), id)
    ensures forall n: Note :: n.id != id ==> multiset(WithoutNote(ns, id))[n] == multiset(ns)[n]
    ensures Seqs.SubsequenceOf(WithoutNote(ns, id), ns)
    ensures !HasNote(ns, id) ==> WithoutNote(ns, id) == ns
  {
    var r := WithoutNote(ns, id);
    forall i | 0 <= i < |r| ensures r[i].id != id {
      assert r[i] in r;
    }
    Seqs.FilterIsSubsequence(ns, (n: Note) => n.id != id);
    if !HasNote(ns, id) {
      Seqs.FilterKeepsAll(ns, (n: Note) => n.id != id);
    }
  }

  lemma DeleteIdempotent(ns: seq<Note>, id: string)
    ensures WithoutNote(WithoutNote(ns, id), id) == WithoutNote(ns, id)
  {
    Seqs.FilterTwice(ns, (n: Note) => n.id != id);
  }

  // ---------------------------------------------------------------- getNote

  /** `notes.find(note => note.id === id)`. */
  function FindNote(ns: seq<Note>, id: string): Option<Note> {
    Seqs.Find(ns, (n: Note) => n.id == id)
  }

  /** The lookup gives the first note with the id, and nothing exactly when there is none. */
  lemma FirstMatch(ns: seq<Note>, id: string) returns (k: nat)
    requires HasNote(ns, id)
    ensures k < |ns| && ns[k].id == id
    ensures forall j :: 0 <= j < k ==> ns[j].id != id
    ensures FindNote(ns, id) == Some(ns[k])
  {
    var p := (n: Note) => n.id == id;
    var r := Seqs.Find(ns, p);
    var i :| Seqs.FirstSatisfying(ns, p, i) && ns[i] == r.value;
    k := i;
  }

  lemma FindNoteMissing(ns: seq<Note>, id: string)
    ensures FindNote(ns, id).None? <==> !HasNote(ns, id)
  {
  }

  // -------------------------------------------------------- id uniqueness

  function DifferentIds(a: Note, b: Note): bool {
    a.id != b.id
  }

  /** No two notes share an id: assumed by the source, not enforced. */
  predicate UniqueIds(ns: seq<Note>) {
    Seqs.Pairwise(ns, DifferentIds)
  }

  predicate IdsIssuedBefore(ns: seq<Note>, ms: nat) {
    forall i :: 0 <= i < |ns| ==> Ids.DecimalValue(ns[i].id) < ms
  }

  lemma AddKeepsIdsUnique(ns: seq<Note>, draft: NoteDraft, nowMs: nat, createdAt: Millis, updatedAt: Millis)
    requires UniqueIds(ns) && IdsIssuedBefore(ns, nowMs)
    ensures UniqueIds(ns + [NewNote(draft, nowMs, createdAt, updatedAt)])
    ensures IdsIssuedBefore(ns + [NewNote(draft, nowMs, createdAt, updatedAt)], nowMs + 1)
  {
    var n := NewNote(draft, nowMs, createdAt, updatedAt);
    var r := ns + [n];
    Ids.DecimalRoundTrip(nowMs);
    forall i, j | 0 <= i < j < |r| ensures DifferentIds(r[i], r[j]) {
      if j == |ns| {
        assert Ids.DecimalValue(r[i].id) < nowMs;
      } else {
        assert r[i] == ns[i] && r[j] == ns[j];
      }
    }
  }

  /**
   * A patch carrying `id` renames every note with the old id, and afterwards no
   * note has the old id unless the new one equals it.
   */
  lemma UpdateRenames(ns: seq<Note>, id: string, patch: NotePatch, now: Millis)
    requires patch.id.Some?
    ensures forall i :: 0 <= i < |ns| && ns[i].id == id ==> UpdatedNotes(ns, id, patch, now)[i].id == patch.id.value
    ensures patch.id.value != id ==> !HasNote(UpdatedNotes(ns, id, patch, now), id)
  {
    UpdateFrame(ns, id, patch, now);
  }

  /** An update whose patch has no `id` key, or carries the same id, renames nothing, so ids stay unique. */
  lemma UpdateKeepsIdsUnique(ns: seq<Note>, id: string, patch: NotePatch, now: Millis)
    requires UniqueIds(ns) && (patch.id.None? || patch.id == Some(id))
    ensures UniqueIds(UpdatedNotes(ns, id, patch, now))
  {
    var r := UpdatedNotes(ns, id, patch, now);
    UpdateFrame(ns, id, patch, now);
    forall i, j | 0 <= i < j < |r| ensures DifferentIds(r[i], r[j]) {
      assert r[i].id == ns[i].id && r[j].id == ns[j].id;
      assert DifferentIds(ns[i], ns[j]);
    }
  }

  lemma DeleteKeepsIdsUnique(ns: seq<Note>, id: string)
    requires UniqueIds(ns)
    ensures UniqueIds(WithoutNote(ns, id))
  {
    DeleteFrame(ns, id);
    Seqs.SubsequencePairwise(WithoutNote(ns, id), ns, DifferentIds);
  }

  /** With unique ids, deleting a present id removes exactly one note. */
  lemma {:induction false} DeleteExistingShrinksByOne(ns: seq<Note>, id: string)
    requires UniqueIds(ns) && HasNote(ns, id)
    ensures |WithoutNote(ns, id)| == |ns| - 1
  {
    var p := (n: Note) => n.id != id;
    assert ns == [ns[0]] + ns[1..];
    assert UniqueIds(ns[1..]) by {
      forall i, j | 0 <= i < j < |ns[1..]| ensures DifferentIds(ns[1..][i], ns[1..][j]) {
        assert DifferentIds(ns[i + 1], ns[j + 1]);
      }
    }
    if ns[0].id == id {
      forall i | 0 <= i < |ns[1..]| ensures p(ns[1..][i]) {
        assert DifferentIds(ns[0], ns[i + 1]);
      }
      Seqs.FilterKeepsAll(ns[1..], p);
    } else {
      var i :| 0 <= i < |ns| && ns[i].id == id;
      assert ns[1..][i - 1].id == id;
      DeleteExistingShrinksByOne(ns[1..], id);
    }
  }

  // ------------------------------------------------------------- timestamps

  predicate Chronological(ns: seq<Note>) {
    forall i :: 0 <= i < |ns| ==> ns[i].createdAt <= ns[i].updatedAt
  }

  /** Adding keeps `createdAt <= updatedAt` when the two clock readings come in order. */
  lemma AddKeepsChronology(ns: seq<Note>, draft: NoteDraft, nowMs: nat, createdAt: Millis, updatedAt: Millis)
    requires Chronological(ns) && createdAt <= updatedAt
    ensures Chronological(ns + [NewNote(draft, nowMs, createdAt, updatedAt)])
  {
  }

  /**
   * When the clock is not behind any stamp it updates, and the patch does not set
   * `createdAt` into the future, an update keeps `createdAt <= updatedAt` and
   * never moves a note's `updatedAt` backwards.
   */
  lemma UpdateKeepsChronology(ns: seq<Note>, id: string, patch: NotePatch, now: Millis)
    requires Chronological(ns)
    requires forall i :: 0 <= i < |ns| && ns[i].id == id ==> ns[i].updatedAt <= now
    requires patch.createdAt.Some? ==> patch.createdAt.value <= now
    ensures Chronological(UpdatedNotes(ns, id, patch, now))
    ensures forall i :: 0 <= i < |ns| ==> ns[i].updatedAt <= UpdatedNotes(ns, id, patch, now)[i].updatedAt
  {
    UpdateFrame(ns, id, patch, now);
  }

  /** Deleting keeps `createdAt <= updatedAt`: the notes left are notes that were there. */
  lemma DeleteKeepsChronology(ns: seq<Note>, id: string)
    requires Chronological(ns)
    ensures Chronological(WithoutNote(ns, id))
  {
    var r := WithoutNote(ns, id);
    forall i | 0 <= i < |r| ensures r[i].createdAt <= r[i].updatedAt {
      assert r[i] in r;
    }
  }

  // ------------------------------------------------------------------ store

  /**
   * The provider's state. `notes` is the `useState` value; `persisted` is what
   * the save effect last wrote under the local-storage key "notes".
   */
  class NoteStore {
    var notes: seq<Note>
    ghost var persisted: seq<Note>

    ghost predicate Valid()
      reads this
    {
      persisted == notes
    }

    constructor (loaded: seq<Note>)
      ensures Valid() && notes == loaded
    {
      notes := loaded;
      persisted := loaded;
    }

    /** Mounting: the stored collection when the stored text is non-empty; a corrupt blob aborts. */
    static method Mount(stored: Option<string>, parse: string -> Option<seq<Note>>)
      returns (r: Result<NoteStore, Persistence.LoadError>)
      ensures r.Ok? <==> Persistence.Hydrate(stored, parse).Ok?
      ensures r.Ok? ==> fresh(r.value) && r.value.Valid() && r.value.notes == Persistence.Hydrate(stored, parse).value
      ensures r.Err? ==> r.error == Persistence.Hydrate(stored, parse).error
    {
      match Persistence.Hydrate(stored, parse)
      case Ok(loaded) =>
        var store := new NoteStore(loaded);
        r := Ok(store);
      case Err(e) =>
        r := Err(e);
    }

    method AddNote(draft: NoteDraft, nowMs: nat, createdAt: Millis, updatedAt: Millis)
      requires Valid()
      modifies this
      ensures Valid()
      ensures notes == old(notes) + [NewNote(draft, nowMs, createdAt, updatedAt)]
    {
      notes := notes + [NewNote(draft, nowMs, createdAt, updatedAt)];
      persisted := notes;
    }

    method UpdateNote(id: string, patch: NotePatch, now: Millis)
      requires Valid()
      modifies this
      ensures Valid()
      ensures notes == UpdatedNotes(old(notes), id, patch, now)
    {
      notes := UpdatedNotes(notes, id, patch, now);
      persisted := notes;
    }

    method DeleteNote(id: string)
      requires Valid()
      modifies this
      ensures Valid()
      ensures notes == WithoutNote(old(notes), id)
    {
      notes := WithoutNote(notes, id);
      persisted := notes;
    }

    function GetNote(id: string): (r: Option<Note>)
      reads this
      ensures r.None? <==> !HasNote(notes, id)
      ensures r.Some? ==> exists k :: 0 <= k < |notes| && notes[k] == r.value && r.value.id == id
                            && forall j :: 0 <= j < k ==> notes[j].id != id
    {
      FindNote(notes, id)
    }
  }
}
