# TaskNote stores and list views, in Dafny

TaskNote is a single-page task and notes manager. Its logic is two record
stores and the list pages built on them:

- the **Task store** and the **Note store** (`TaskProvider`, `NoteProvider`):
  each holds an ordered sequence of records, appends on create (stamping an id
  and two timestamps from the clock), merges a partial patch into every record
  with a matching id on update, filters matching records out on delete, looks
  up the first match, and, for tasks, toggles `completed` through an update.
  Every change is mirrored to a persisted copy, and the stored copy is loaded
  once at start-up;
- the **task list** page: a status filter and a sort by priority, title or
  last update;
- the **notes** page: the category list, a case-insensitive search combined
  with a category filter, a newest-first sort, a 150-character content preview
  and the first three tag chips with a "+n more" count;
- the **navigation bar**'s `isActive` route test.

Modules: `Seqs` (the JavaScript array and string primitives the code uses:
`map`, `filter`, `find`, `some`, `Array.from(new Set(...))`, `startsWith`,
`includes`), `Sorting` (`Array.prototype.sort` with a consistent comparator,
which ECMAScript requires to be stable), `Types`, `Ids` (`Date.now().toString()`),
`Persistence` (the load effect), `TaskContext` and `NoteContext` (pure
transformations with their lemmas, and the classes `TaskStore` and `NoteStore`
whose methods replace the collection and keep the persisted copy equal to it),
`TodoList`, `Notes`, `Layout`.

The clock, `JSON.parse`, `toLowerCase` and `localeCompare` are parameters:
each clock reading is an argument of the operation that takes it (an update
takes one reading for all the records it stamps), `JSON.parse`
is a function to `Option` (`None` for the exception it throws), case folding is
a `string -> string` function, and collation a `(string, string) -> int`
comparator assumed consistent (swapping its arguments flips the sign, and "not
after" is transitive) only where the title sort
needs it. Timestamps are kept as milliseconds, the value the code reads back
with `new Date(s).getTime()`.

Where the evident intent and the code disagree, the model follows the code: ids come from the clock and are not guaranteed unique (uniqueness is
a hypothesis of the lemmas that need it, and `AddKeepsIdsUnique` gives a
sufficient condition); a patch may carry `id` and so rename a record; update
and delete act on every record with the id, not only the first; and a stored
blob that does not parse makes the load throw (`Err(ParseThrows)`) instead of
leaving the collection empty.

## Model

| member | source | states |
|---|---|---|
| Seqs.Map | src/contexts/TaskContext.tsx:46 | `map` keeps the length and applies the callback at every position |
| Seqs.Filter | src/contexts/TaskContext.tsx:51 | `filter` keeps exactly the elements passing the test, each with its multiplicity, and is no longer than its input |
| Seqs.AnyOf | src/pages/Notes.tsx:18 | definition; its properties are in `Notes.SearchIffOccurs` |
| Seqs.FilterIsSubsequence | src/pages/TodoList.tsx:12-16 | the result of `filter` is an order-preserving subsequence of its input |
| Seqs.SubsequencePairwise | src/pages/Notes.tsx:12 | any pairwise ordering or distinctness of a sequence holds of its subsequences |
| Seqs.FilterKeepsAll | src/pages/TodoList.tsx:15 | filtering with a test every element passes returns the input unchanged |
| Seqs.FilterTwice | src/contexts/TaskContext.tsx:51 | filtering twice with one test equals filtering once |
| Seqs.Find | src/contexts/TaskContext.tsx:55 | `find` returns nothing exactly when no element passes, otherwise the element at the first passing index |
| Seqs.FindIsHeadOfFilter | src/contexts/TaskContext.tsx:55 | `find` is the head of `filter` with the same test, or nothing when that is empty |
| Seqs.Distinct | src/pages/Notes.tsx:12 | `Array.from(new Set(s))` has the same elements as `s`, each once |
| Seqs.DistinctKeepsFirstAppearanceOrder | src/pages/Notes.tsx:12 | the de-duplicated values come in the order of their first occurrence |
| Seqs.IsPrefix | src/components/Layout.tsx:12 | definition; its properties are in `Layout.ActiveIffPrefix` |
| Seqs.Includes | src/pages/Notes.tsx:16-18 | definition; its properties are in `Seqs.IncludesIffOccurs` and `Seqs.IncludesEmpty` |
| Seqs.IncludesIffOccurs | src/pages/Notes.tsx:16-18 | `includes` holds exactly when the term occurs at some position |
| Seqs.IncludesEmpty | src/pages/Notes.tsx:16 | every string includes the empty string |
| Sorting.InsertionSort | src/pages/TodoList.tsx:18-27 | the sorted copy is a permutation of its input, ordered by the comparator |
| Sorting.Insert | src/pages/TodoList.tsx:18 | inserting into a sorted sequence adds exactly one element and keeps it sorted |
| Sorting.InsertIsStable | src/pages/TodoList.tsx:18 | inserting an element puts it ahead of every element it ties with, and the others that tie keep their order |
| Sorting.InsertionSortIsStable | src/pages/TodoList.tsx:18-27 | the sort is stable: for every element, the elements that tie with it come out in their input order |
| Ids.Decimal | src/contexts/TaskContext.tsx:37 | an id is a non-empty string of decimal digits, with no leading zero unless it is "0" |
| Ids.DecimalRoundTrip | src/contexts/TaskContext.tsx:37 | reading an id back as a number gives the clock reading it was made from |
| Ids.DecimalInjective | src/contexts/TaskContext.tsx:37 | two clock readings give the same id exactly when they are equal |
| Types.Spread | src/contexts/TaskContext.tsx:46 | definition; its properties are in `TaskContext.MergeTaskOverwrites` and `NoteContext.MergeNoteOverwrites` (a key the patch carries wins, an absent key keeps the record's value) |
| Persistence.Hydrate | src/contexts/TaskContext.tsx:23-28 | a missing or empty stored value leaves the collection empty; the load fails exactly when the stored text is non-empty and `JSON.parse` rejects it, and otherwise loads what it parsed |
| Persistence.SaveThenHydrate | src/contexts/NoteContext.tsx:23-32 | what the save effect wrote is loaded back unchanged, given that parsing inverts serialising |
| TaskContext.NewTask | src/contexts/TaskContext.tsx:34-40 | definition; its properties are in `TaskContext.NewTaskStamps` and `TaskContext.AddKeepsIdsUnique` |
| TaskContext.NewTaskStamps | src/contexts/TaskContext.tsx:34-42 | a new task carries every caller field unchanged, the clock reading as its id, and the two clock timestamps |
| TaskContext.MergeTask | src/contexts/TaskContext.tsx:46 | definition; its properties are in `TaskContext.MergeTaskOverwrites` and `TaskContext.MergeTaskStamps` |
| TaskContext.MergeTaskOverwrites | src/contexts/TaskContext.tsx:46 | for every key of the patch, a carried value replaces the task's field (`id` included) and an absent key keeps it; `updatedAt` is now |
| TaskContext.MergeTaskStamps | src/contexts/TaskContext.tsx:46 | a merge always sets `updatedAt` to now, an empty patch changes nothing else, re-applying a patch only moves the stamp |
| TaskContext.UpdatedTasks | src/contexts/TaskContext.tsx:44-48 | definition; its properties are in `TaskContext.UpdateFrame`, `TaskContext.UpdateRenames`, `TaskContext.UpdateKeepsIdsUnique` and `TaskContext.UpdateKeepsChronology` |
| TaskContext.UpdateFrame | src/contexts/TaskContext.tsx:44-48 | update keeps length and order, leaves other ids untouched, merges every task with the id, and is a no-op for a missing id |
| TaskContext.WithoutTask | src/contexts/TaskContext.tsx:50-52 | definition; its properties are in `TaskContext.DeleteFrame`, `TaskContext.DeleteIdempotent`, `TaskContext.DeleteExistingShrinksByOne` and `TaskContext.DeleteKeepsChronology` |
| TaskContext.DeleteFrame | src/contexts/TaskContext.tsx:50-52 | after delete no task has the id, every other task keeps its multiplicity and relative order, and a missing id changes nothing |
| TaskContext.DeleteIdempotent | src/contexts/TaskContext.tsx:50-52 | deleting twice equals deleting once |
| TaskContext.FindTask | src/contexts/TaskContext.tsx:54-56 | definition; its properties are in `TaskContext.FirstMatch` and `TaskContext.FindTaskMissing` |
| TaskContext.FirstMatch | src/contexts/TaskContext.tsx:54-56 | the lookup returns the task at the first index holding the id |
| TaskContext.FindTaskMissing | src/contexts/TaskContext.tsx:54-56 | the lookup returns nothing exactly when no task has the id |
| TaskContext.TogglePatch | src/contexts/TaskContext.tsx:59 | definition; its properties are in `TaskContext.ToggleFlipsFirstMatch` (the negated flag of the first match, `true` when there is none) |
| TaskContext.Toggled | src/contexts/TaskContext.tsx:58-60 | definition; its properties are in `TaskContext.ToggleFlipsFirstMatch`, `TaskContext.ToggleTwice` and `TaskContext.ToggleTwiceRestores` |
| TaskContext.ToggleFlipsFirstMatch | src/contexts/TaskContext.tsx:58-60 | toggle sets `completed` of every task with the id to the negation of the first match's flag, stamps it, and leaves the rest |
| TaskContext.ToggleTwice | src/contexts/TaskContext.tsx:58-60 | two toggles give every task with the id the first match's original flag, changing only `updatedAt` |
| TaskContext.ToggleTwiceRestores | src/contexts/TaskContext.tsx:58-60 | with unique ids, two toggles restore every task's `completed` flag |
| TaskContext.AddKeepsIdsUnique | src/contexts/TaskContext.tsx:37 | a task added at a clock reading later than every existing id keeps the ids unique |
| TaskContext.UpdateRenames | src/contexts/TaskContext.tsx:44-48 | a patch carrying `id` renames every task with the old id, after which no task has the old id unless the two are equal |
| TaskContext.UpdateKeepsIdsUnique | src/contexts/TaskContext.tsx:44-48 | an update whose patch has no `id` key, or carries the same id, keeps the ids unique |
| TaskContext.DeleteKeepsIdsUnique | src/contexts/TaskContext.tsx:50-52 | delete keeps the ids unique |
| TaskContext.DeleteExistingShrinksByOne | src/contexts/TaskContext.tsx:50-52 | with unique ids, deleting a present id removes exactly one task |
| TaskContext.AddKeepsChronology | src/contexts/TaskContext.tsx:34-42 | when the two clock readings come in order, every task keeps `createdAt <= updatedAt` |
| TaskContext.UpdateKeepsChronology | src/contexts/TaskContext.tsx:44-48 | with a clock not behind the stamps, update keeps `createdAt <= updatedAt` and never moves `updatedAt` back |
| TaskContext.DeleteKeepsChronology | src/contexts/TaskContext.tsx:50-52 | delete keeps `createdAt <= updatedAt` for every task |
| TaskContext.CreateToggleDelete | src/contexts/TaskContext.tsx:34-60 | create gives one pending task, toggle completes and restamps it, delete leaves none |
| TaskContext.TaskStore.constructor | src/contexts/TaskContext.tsx:21-32 | the provider starts with the loaded tasks and a persisted copy equal to them |
| TaskContext.TaskStore.Mount | src/contexts/TaskContext.tsx:23-28 | mounting yields a store holding the hydrated tasks, or the load's error |
| TaskContext.TaskStore.AddTask | src/contexts/TaskContext.tsx:34-42 | the tasks become the old tasks with exactly the new task appended, and are persisted |
| TaskContext.TaskStore.UpdateTask | src/contexts/TaskContext.tsx:44-48 | the tasks become the mapped-and-merged tasks, and are persisted |
| TaskContext.TaskStore.DeleteTask | src/contexts/TaskContext.tsx:50-52 | the tasks become the tasks without the id, and are persisted |
| TaskContext.TaskStore.GetTask | src/contexts/TaskContext.tsx:54-56 | returns the first task in the collection with the id, and nothing exactly when none has it |
| TaskContext.TaskStore.ToggleTask | src/contexts/TaskContext.tsx:58-60 | the tasks become the update with the negated first-match flag, and are persisted |
| NoteContext.NewNote | src/contexts/NoteContext.tsx:34-40 | definition; its properties are in `NoteContext.NewNoteStamps` and `NoteContext.AddKeepsIdsUnique` |
| NoteContext.NewNoteStamps | src/contexts/NoteContext.tsx:34-42 | a new note carries every caller field unchanged, the clock reading as its id, and the two clock timestamps |
| NoteContext.MergeNote | src/contexts/NoteContext.tsx:46 | definition; its properties are in `NoteContext.MergeNoteOverwrites` and `NoteContext.MergeNoteStamps` |
| NoteContext.MergeNoteOverwrites | src/contexts/NoteContext.tsx:46 | for every key of the patch, a carried value replaces the note's field (`id` included) and an absent key keeps it; `updatedAt` is now |
| NoteContext.MergeNoteStamps | src/contexts/NoteContext.tsx:46 | a merge sets `updatedAt` to now and replaces `tags` wholesale when the patch has them |
| NoteContext.UpdatedNotes | src/contexts/NoteContext.tsx:44-48 | definition; its properties are in `NoteContext.UpdateFrame`, `NoteContext.UpdateRenames`, `NoteContext.UpdateKeepsIdsUnique` and `NoteContext.UpdateKeepsChronology` |
| NoteContext.UpdateFrame | src/contexts/NoteContext.tsx:44-48 | update keeps length and order, leaves other ids untouched, merges every note with the id, and is a no-op for a missing id |
| NoteContext.WithoutNote | src/contexts/NoteContext.tsx:50-52 | definition; its properties are in `NoteContext.DeleteFrame`, `NoteContext.DeleteIdempotent`, `NoteContext.DeleteExistingShrinksByOne` and `NoteContext.DeleteKeepsChronology` |
| NoteContext.DeleteFrame | src/contexts/NoteContext.tsx:50-52 | after delete no note has the id, every other note keeps its multiplicity and relative order, and a missing id changes nothing |
| NoteContext.DeleteIdempotent | src/contexts/NoteContext.tsx:50-52 | deleting twice equals deleting once |
| NoteContext.FindNote | src/contexts/NoteContext.tsx:54-56 | definition; its properties are in `NoteContext.FirstMatch` and `NoteContext.FindNoteMissing` |
| NoteContext.FirstMatch | src/contexts/NoteContext.tsx:54-56 | the lookup returns the note at the first index holding the id |
| NoteContext.FindNoteMissing | src/contexts/NoteContext.tsx:54-56 | the lookup returns nothing exactly when no note has the id |
| NoteContext.AddKeepsIdsUnique | src/contexts/NoteContext.tsx:37 | a note added at a clock reading later than every existing id keeps the ids unique |
| NoteContext.UpdateRenames | src/contexts/NoteContext.tsx:44-48 | a patch carrying `id` renames every note with the old id, after which no note has the old id unless the two are equal |
| NoteContext.UpdateKeepsIdsUnique | src/contexts/NoteContext.tsx:44-48 | an update whose patch has no `id` key, or carries the same id, keeps the ids unique |
| NoteContext.DeleteKeepsIdsUnique | src/contexts/NoteContext.tsx:50-52 | delete keeps the ids unique |
| NoteContext.DeleteExistingShrinksByOne | src/contexts/NoteContext.tsx:50-52 | with unique ids, deleting a present id removes exactly one note |
| NoteContext.AddKeepsChronology | src/contexts/NoteContext.tsx:34-42 | when the two clock readings come in order, every note keeps `createdAt <= updatedAt` |
| NoteContext.UpdateKeepsChronology | src/contexts/NoteContext.tsx:44-48 | with a clock not behind the stamps, update keeps `createdAt <= updatedAt` and never moves `updatedAt` back |
| NoteContext.DeleteKeepsChronology | src/contexts/NoteContext.tsx:50-52 | delete keeps `createdAt <= updatedAt` for every note |
| NoteContext.NoteStore.constructor | src/contexts/NoteContext.tsx:21-32 | the provider starts with the loaded notes and a persisted copy equal to them |
| NoteContext.NoteStore.Mount | src/contexts/NoteContext.tsx:23-28 | mounting yields a store holding the hydrated notes, or the load's error |
| NoteContext.NoteStore.AddNote | src/contexts/NoteContext.tsx:34-42 | the notes become the old notes with exactly the new note appended, and are persisted |
| NoteContext.NoteStore.UpdateNote | src/contexts/NoteContext.tsx:44-48 | the notes become the mapped-and-merged notes, and are persisted |
| NoteContext.NoteStore.DeleteNote | src/contexts/NoteContext.tsx:50-52 | the notes become the notes without the id, and are persisted |
| NoteContext.NoteStore.GetNote | src/contexts/NoteContext.tsx:54-56 | returns the first note in the collection with the id, and nothing exactly when none has it |
| TodoList.Shows | src/pages/TodoList.tsx:13-15 | definition; its properties are in `TodoList.FilterSelectsByStatus` |
| TodoList.FilteredTasks | src/pages/TodoList.tsx:12-16 | definition; its properties are in `TodoList.FilterSelectsByStatus` and `TodoList.FilteredIsSubsequence` |
| TodoList.FilterSelectsByStatus | src/pages/TodoList.tsx:12-16 | "pending" keeps exactly the open tasks, "completed" exactly the done ones, "all" every task |
| TodoList.FilteredIsSubsequence | src/pages/TodoList.tsx:12-16 | the filtered list is an order-preserving subsequence, so the shown count is at most the total |
| TodoList.Rank | src/pages/TodoList.tsx:20 | definition; its properties are in `TodoList.SortedTasksOrder` (high 3, medium 2, low 1) |
| TodoList.Compare | src/pages/TodoList.tsx:18-27 | definition; its properties are in `TodoList.PrecedesIsPreorder`, `TodoList.SortedTasksOrder` and `TodoList.SortedTasksIsStable` |
| TodoList.PrecedesIsPreorder | src/pages/TodoList.tsx:18-27 | each of the three comparators is a total preorder (the title one given a consistent collation) |
| TodoList.SortedTasks | src/pages/TodoList.tsx:18 | the sorted list is a permutation of its input |
| TodoList.SortedTasksOrder | src/pages/TodoList.tsx:18-27 | priority sort gives non-increasing rank (high 3, medium 2, low 1), title sort ascending titles, date sort newest update first |
| TodoList.SortedTasksIsStable | src/pages/TodoList.tsx:18-27 | tasks the callback finds equal keep the order they had in the filtered list |
| TodoList.PriorityTiesKeepOrder | src/pages/TodoList.tsx:19-22 | sorted by priority, the tasks of each priority stay in collection order |
| TodoList.VisibleTasks | src/pages/TodoList.tsx:12-27 | definition; its properties are in `TodoList.VisibleTasksAreFiltered` |
| TodoList.VisibleTasksAreFiltered | src/pages/TodoList.tsx:12-27 | the listed tasks are exactly the filtered ones, each with its multiplicity |
| Notes.Categories | src/pages/Notes.tsx:12 | definition; its properties are in `Notes.CategoriesAreTheUsedOnes`, `Notes.CategoriesDistinct` and `Notes.CategoriesInFirstAppearanceOrder` |
| Notes.CategoriesAreTheUsedOnes | src/pages/Notes.tsx:12 | the category list holds exactly the non-empty categories some note has |
| Notes.CategoriesDistinct | src/pages/Notes.tsx:12 | each category is listed once |
| Notes.CategoriesInFirstAppearanceOrder | src/pages/Notes.tsx:12 | categories are listed in the order of their first occurrence among the notes |
| Notes.MatchesSearch | src/pages/Notes.tsx:15-18 | definition; its properties are in `Notes.SearchIffOccurs` and `Notes.EmptySearchMatchesAll` |
| Notes.MatchesCategory | src/pages/Notes.tsx:20 | definition; its properties are in `Notes.CategoryFilterExact` and `Notes.FilteredNotesSpec` |
| Notes.SearchIffOccurs | src/pages/Notes.tsx:15-18 | a note matches exactly when the folded term occurs in the folded title, content or some tag |
| Notes.EmptySearchMatchesAll | src/pages/Notes.tsx:15-18 | an empty term matches every note |
| Notes.FilteredNotes | src/pages/Notes.tsx:14-23 | definition; its properties are in `Notes.FilteredNotesSpec` and `Notes.CategoryFilterExact` |
| Notes.FilteredNotesSpec | src/pages/Notes.tsx:14-23 | the filtered notes are the order-preserving subsequence passing both tests; an empty term with no category keeps all notes |
| Notes.CategoryFilterExact | src/pages/Notes.tsx:20 | with a category selected, every shown note has that category |
| Notes.NewerFirst | src/pages/Notes.tsx:26 | definition; its properties are in `Notes.SortedNotes` and `Notes.SortedNotesIsStable` |
| Notes.SortedNotes | src/pages/Notes.tsx:25-27 | the sorted notes are a permutation of their input, newest `updatedAt` first |
| Notes.SortedNotesIsStable | src/pages/Notes.tsx:25-27 | notes with the same `updatedAt` keep the order they had in the filtered list |
| Notes.VisibleNotes | src/pages/Notes.tsx:14-27 | definition; its properties are in `Notes.VisibleNotesAreFiltered` |
| Notes.VisibleNotesAreFiltered | src/pages/Notes.tsx:14-27 | the listed notes are exactly those passing the search and the category test, each with its multiplicity, newest `updatedAt` first |
| Notes.TruncateContent | src/pages/Notes.tsx:35-38 | content within the limit is unchanged; longer content becomes its first `maxLength` characters and "...", `maxLength + 3` long |
| Notes.Preview | src/pages/Notes.tsx:35-38 | the card's preview at the default length 150: content of at most 150 characters is shown whole, longer content as its first 150 characters and "..." |
| Notes.TruncateIdempotent | src/pages/Notes.tsx:35-38 | truncating a truncated preview changes nothing |
| Notes.ShownTags | src/pages/Notes.tsx:133 | definition; its properties are in `Notes.TagChipsAccountForAll` |
| Notes.MoreTagsChip | src/pages/Notes.tsx:138-141 | definition; its properties are in `Notes.TagChipsAccountForAll` |
| Notes.TagChipsAccountForAll | src/pages/Notes.tsx:133-141 | all tags are shown when there are at most three, otherwise exactly the first three; the "+n more" chip appears exactly when tags are left out and counts them |
| Layout.IsActive | src/components/Layout.tsx:11-13 | definition; its properties are in `Layout.ActiveIffPrefix`, `Layout.NotSegmentAware` and `Layout.RootAlwaysActive` |
| Layout.ActiveIffPrefix | src/components/Layout.tsx:11-13 | a route is active exactly when the pathname starts with it; the equality test is subsumed |
| Layout.NotSegmentAware | src/components/Layout.tsx:12 | "/todosX" activates "/todos": matching is by characters, not path segments |
| Layout.RootAlwaysActive | src/components/Layout.tsx:11-13 | "/" is active on every absolute path, hence the Dashboard link's extra equality test |
| Layout.DashboardHighlighted | src/components/Layout.tsx:29 | definition; its properties are in `Layout.AtMostOneLinkHighlighted` |
| Layout.TasksHighlighted | src/components/Layout.tsx:39 | definition; its properties are in `Layout.AtMostOneLinkHighlighted` |
| Layout.NotesHighlighted | src/components/Layout.tsx:47 | definition; its properties are in `Layout.AtMostOneLinkHighlighted` |
| Layout.AtMostOneLinkHighlighted | src/components/Layout.tsx:26-50 | Dashboard is highlighted only on "/", Tasks exactly under "/todos", Notes exactly under "/notes", and no path highlights two links |

## Left out

- Local storage and JSON: the stored text is an argument, `JSON.parse` an abstract function, and the persisted copy a ghost field that every mutating method sets equal to the collection (the save effect). Storage write failures are not modelled.
- React mechanics: `useState`/`useEffect` scheduling, the order of the load and save effects on mount, context providers, and the "used outside its provider" errors of `useTask`/`useNote`.
- `toggleTask` reads the render-time `tasks` while `updateTask` maps the latest state; the model reads and updates one state, as it is with one synchronous mutator.
- UpdatedTasks, UpdatedNotes: the code evaluates `new Date().toISOString()` inside the `map` callback, once per matching record, so records that share an id may get stamps a millisecond or more apart; the model stamps every match with one reading, and the "every match gets `updatedAt == now`" clauses of `UpdateFrame`, `ToggleFlipsFirstMatch` and `ToggleTwice` rest on that. With unique ids there is one match and the two agree.
- Clock and dates: `Date.now()` and `new Date()` are parameters; ISO-8601 formatting and parsing, `toLocaleDateString` and the overdue highlight are not modelled; timestamps are integer milliseconds.
- Ids.Decimal: for readings of 10^21 ms and more JavaScript prints exponent notation; the model always prints plain digits.
- `toLowerCase` and `localeCompare` are abstract; string lengths count Dafny characters (Unicode scalar values) where JavaScript counts UTF-16 code units, so a preview may cut a surrogate pair differently.
- A patch key present with the value `undefined` (possible for any key of `Partial<Task>`) is not modelled: a patch either lacks a key or carries a value of the field's type; only `dueDate` can be set to absent.
- JSX rendering, CSS classes, icons, the `window.confirm` dialogs before deleting, and the router table in `App.tsx`.
