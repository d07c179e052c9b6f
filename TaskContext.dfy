/**
 * The Task store (the `TaskProvider`): an ordered collection of tasks held in
 * memory and mirrored to local storage after every change. Each operation
 * computes the next collection with a pure array expression; those expressions
 * are the functions below, and the class `TaskStore` holds the state they
 * replace.
 */
module TaskContext {
  import opened Wrappers
  import opened Types
  import Ids
  import Seqs
  import Persistence

  // ---------------------------------------------------------------- addTask

  /**
   * The record `addTask` builds: the caller's fields, an id from one clock
   * reading (`Date.now()`) and two timestamps from two further readings.
   */
  function NewTask(draft: TaskDraft, nowMs: nat, createdAt: Millis, updatedAt: Millis): Task {
    Task(Ids.Decimal(nowMs), draft.title, draft.description, draft.completed, draft.priority,
         draft.dueDate, createdAt, updatedAt)
  }

  /** The caller-supplied part of a task, `Omit<Task, "id" | "createdAt" | "updatedAt">`. */
  function DraftOf(t: Task): TaskDraft {
    TaskDraft(t.title, t.description, t.completed, t.priority, t.dueDate)
  }

  /** A new task keeps every field the caller gave and carries the clock reading as its id. */
  lemma NewTaskStamps(draft: TaskDraft, nowMs: nat, createdAt: Millis, updatedAt: Millis)
    ensures DraftOf(NewTask(draft, nowMs, createdAt, updatedAt)) == draft
    ensures Ids.DecimalValue(NewTask(draft, nowMs, createdAt, updatedAt).id) == nowMs
    ensures NewTask(draft, nowMs, createdAt, updatedAt).createdAt == createdAt
    ensures NewTask(draft, nowMs, createdAt, updatedAt).updatedAt == updatedAt
  {
    Ids.DecimalRoundTrip(nowMs);
  }

  // ------------------------------------------------------------- updateTask

  /** `{ ...task, ...patch, updatedAt: now }`. */
  function MergeTask(t: Task, patch: TaskPatch, now: Millis): Task {
    Task(
      Spread(patch.id, t.id),
      Spread(patch.title, t.title),
      Spread(patch.description, t.description),
      Spread(patch.completed, t.completed),
      Spread(patch.priority, t.priority),
      Spread(patch.dueDate, t.dueDate),
      Spread(patch.createdAt, t.createdAt),
      now)
  }

  /**
   * A merge always stamps `updatedAt` with the current time, whatever the patch
   * says; an empty patch changes nothing else; merging the same patch again only
   * moves the stamp.
   */
  lemma MergeTaskStamps(t: Task, patch: TaskPatch, now: Millis, later: Millis)
    ensures MergeTask(t, patch, now).updatedAt == now
    ensures MergeTask(t, EmptyTaskPatch, now) == t.(updatedAt := now)
    ensures MergeTask(MergeTask(t, patch, now), patch, later) == MergeTask(t, patch, later)
  {
  }

  /**
   * The spread: every key the patch carries replaces the task's field (`id`
   * included, which renames the task), and every key it leaves out keeps the
   * task's value; `updatedAt` is the current time either way.
   */
  lemma MergeTaskOverwrites(t: Task, patch: TaskPatch, now: Millis)
    ensures MergeTask(t, patch, now).id == if patch.id.Some? then patch.id.value else t.id
    ensures MergeTask(t, patch, now).title == if patch.title.Some? then patch.title.value else t.title
    ensures MergeTask(t, patch, now).description
            == if patch.description.Some? then patch.description.value else t.description
    ensures MergeTask(t, patch, now).completed == if patch.completed.Some? then patch.completed.value else t.completed
    ensures MergeTask(t, patch, now).priority == if patch.priority.Some? then patch.priority.value else t.priority
    ensures MergeTask(t, patch, now).dueDate == if patch.dueDate.Some? then patch.dueDate.value else t.dueDate
    ensures MergeTask(t, patch, now).createdAt == if patch.createdAt.Some? then patch.createdAt.value else t.createdAt
    ensures MergeTask(t, patch, now).updatedAt == now
  {
  }

  /** `tasks.map(task => task.id === id ? merged : task)`. */
  function UpdatedTasks(ts: seq<Task>, id: string, patch: TaskPatch, now: Millis): seq<Task> {
    Seqs.Map(ts, (t: Task) => if t.id == id then MergeTask(t, patch, now) else t)
  }

  predicate HasTask(ts: seq<Task>, id: string) {
    exists i :: 0 <= i < |ts| && ts[i].id == id
  }

  /**
   * An update keeps the length and the order, leaves every task with another id
   * as it was, merges the patch into every task with the id (not only the first),
   * and is a silent no-op when no task has the id.
   */
  lemma UpdateFrame(ts: seq<Task>, id: string, patch: TaskPatch, now: Millis)
    ensures |UpdatedTasks(ts, id, patch, now)| == |ts|
    ensures forall i :: 0 <= i < |ts| && ts[i].id != id ==> UpdatedTasks(ts, id, patch, now)[i] == ts[i]
    ensures forall i :: 0 <= i < |ts| && ts[i].id == id ==>
              UpdatedTasks(ts, id, patch, now)[i] == MergeTask(ts[i], patch, now)
    ensures !HasTask(ts, id) ==> UpdatedTasks(ts, id, patch, now) == ts
  {
  }

  // ------------------------------------------------------------- deleteTask

  /** `tasks.filter(task => task.id !== id)`. */
  function WithoutTask(ts: seq<Task>, id: string): seq<Task> {
    Seqs.Filter(ts, (t: Task) => t.id != id)
  }

  /**
   * A delete leaves no task with the id, keeps every other task (as often as it
   * occurred) in its original relative order, and is a no-op for a missing id.
   */
  lemma DeleteFrame(ts: seq<Task>, id: string)
    ensures !HasTask(WithoutTask(ts, id), id)
    ensures forall t: Task :: t.id != id ==> multiset(WithoutTask(ts, id))[t] == multiset(ts)[t]
    ensures Seqs.SubsequenceOf(WithoutTask(ts, id), ts)
    ensures !HasTask(ts, id) ==> WithoutTask(ts, id) == ts
  {
    var r := WithoutTask(ts, id);
    forall i | 0 <= i < |r| ensures r[i].id != id {
      assert r[i] in r;
    }
    Seqs.FilterIsSubsequence(ts, (t: Task) => t.id != id);
    if !HasTask(ts, id) {
      Seqs.FilterKeepsAll(ts, (t: Task) => t.id != id);
    }
  }

  lemma DeleteIdempotent(ts: seq<Task>, id: string)
    ensures WithoutTask(WithoutTask(ts, id), id) == WithoutTask(ts, id)
  {
    Seqs.FilterTwice(ts, (t: Task) => t.id != id);
  }

  // ---------------------------------------------------------------- getTask

  /** `tasks.find(task => task.id === id)`. */
  function FindTask(ts: seq<Task>, id: string): Option<Task> {
    Seqs.Find(ts, (t: Task) => t.id == id)
  }

  /** The lookup gives the first task with the id, and nothing exactly when there is none. */
  lemma FirstMatch(ts: seq<Task>, id: string) returns (k: nat)
    requires HasTask(ts, id)
    ensures k < |ts| && ts[k].id == id
    ensures forall j :: 0 <= j < k ==> ts[j].id != id
    ensures FindTask(ts, id) == Some(ts[k])
  {
    var p := (t: Task) => t.id == id;
    var r := Seqs.Find(ts, p);
    var i :| Seqs.FirstSatisfying(ts, p, i) && ts[i] == r.value;
    k := i;
  }

  lemma FindTaskMissing(ts: seq<Task>, id: string)
    ensures FindTask(ts, id).None? <==> !HasTask(ts, id)
  {
  }

  // ------------------------------------------------------------- toggleTask

  /**
   * `{ completed: !tasks.find(task => task.id === id)?.completed }`: the negated
   * flag of the first match, and `true` (`!undefined`) when nothing matches.
   */
  function TogglePatch(ts: seq<Task>, id: string): TaskPatch {
    var flag := match FindTask(ts, id)
      case Some(t) => !t.completed
      case None => true;
    EmptyTaskPatch.(completed := Some(flag))
  }

  /** `updateTask(id, TogglePatch(tasks, id))`. */
  function Toggled(ts: seq<Task>, id: string, now: Millis): seq<Task> {
    UpdatedTasks(ts, id, TogglePatch(ts, id), now)
  }

  /**
   * A toggle sets `completed` on every task with the id to the negation of the
   * first such task's flag and stamps it; every other task is left as it was.
   */
  lemma ToggleFlipsFirstMatch(ts: seq<Task>, id: string, now: Millis)
    requires HasTask(ts, id)
    ensures |Toggled(ts, id, now)| == |ts|
    ensures forall i :: 0 <= i < |ts| && ts[i].id != id ==> Toggled(ts, id, now)[i] == ts[i]
    ensures forall i :: 0 <= i < |ts| && ts[i].id == id ==>
              Toggled(ts, id, now)[i] == ts[i].(completed := !FindTask(ts, id).value.completed, updatedAt := now)
  {
    var k := FirstMatch(ts, id);
    UpdateFrame(ts, id, TogglePatch(ts, id), now);
  }

  /**
   * Toggling twice gives every task with the id the first match's original flag;
   * only `updatedAt` moves.
   */
  lemma {:induction false} ToggleTwice(ts: seq<Task>, id: string, now1: Millis, now2: Millis)
    requires HasTask(ts, id)
    ensures |Toggled(Toggled(ts, id, now1), id, now2)| == |ts|
    ensures forall i :: 0 <= i < |ts| && ts[i].id != id ==> Toggled(Toggled(ts, id, now1), id, now2)[i] == ts[i]
    ensures forall i :: 0 <= i < |ts| && ts[i].id == id ==>
              Toggled(Toggled(ts, id, now1), id, now2)[i]
                == ts[i].(completed := FindTask(ts, id).value.completed, updatedAt := now2)
  {
    var k := FirstMatch(ts, id);
    var once := Toggled(ts, id, now1);
    ToggleFlipsFirstMatch(ts, id, now1);
    assert once[k].id == id;
    var k' := FirstMatch(once, id);
    assert forall j :: 0 <= j < |ts| ==> once[j].id == ts[j].id;
    assert k' == k;
    ToggleFlipsFirstMatch(once, id, now2);
  }

  // -------------------------------------------------------- id uniqueness

  function DifferentIds(a: Task, b: Task): bool {
    a.id != b.id
  }

  /** No two tasks share an id. The source assumes this but does not enforce it. */
  predicate UniqueIds(ts: seq<Task>) {
    Seqs.Pairwise(ts, DifferentIds)
  }

  /** Every id is the decimal form of a clock reading earlier than `ms`. */
  predicate IdsIssuedBefore(ts: seq<Task>, ms: nat) {
    forall i :: 0 <= i < |ts| ==> Ids.DecimalValue(ts[i].id) < ms
  }

  /** With unique ids, toggling twice restores every task's `completed` flag. */
  lemma ToggleTwiceRestores(ts: seq<Task>, id: string, now1: Millis, now2: Millis)
    requires UniqueIds(ts)
    ensures |Toggled(Toggled(ts, id, now1), id, now2)| == |ts|
    ensures forall i :: 0 <= i < |ts| ==> Toggled(Toggled(ts, id, now1), id, now2)[i].completed == ts[i].completed
  {
    if HasTask(ts, id) {
      var k := FirstMatch(ts, id);
      ToggleTwice(ts, id, now1, now2);
      assert forall j :: 0 <= j < |ts| && ts[j].id == id ==> j == k;
    } else {
      UpdateFrame(ts, id, TogglePatch(ts, id), now1);
      UpdateFrame(ts, id, TogglePatch(ts, id), now2);
    }
  }

  /** A task added at a later clock reading than every existing id does not collide with any. */
  lemma AddKeepsIdsUnique(ts: seq<Task>, draft: TaskDraft, nowMs: nat, createdAt: Millis, updatedAt: Millis)
    requires UniqueIds(ts) && IdsIssuedBefore(ts, nowMs)
    ensures UniqueIds(ts + [NewTask(draft, nowMs, createdAt, updatedAt)])
    ensures IdsIssuedBefore(ts + [NewTask(draft, nowMs, createdAt, updatedAt)], nowMs + 1)
  {
    var t := NewTask(draft, nowMs, createdAt, updatedAt);
    var r := ts + [t];
    Ids.DecimalRoundTrip(nowMs);
    forall i, j | 0 <= i < j < |r| ensures DifferentIds(r[i], r[j]) {
      if j == |ts| {
        assert Ids.DecimalValue(r[i].id) < nowMs;
      } else {
        assert r[i] == ts[i] && r[j] == ts[j];
      }
    }
  }

  /**
   * A patch carrying `id` renames every task with the old id, and afterwards no
   * task has the old id unless the new one equals it.
   */
  lemma UpdateRenames(ts: seq<Task>, id: string, patch: TaskPatch, now: Millis)
    requires patch.id.Some?
    ensures forall i :: 0 <= i < |ts| && ts[i].id == id ==> UpdatedTasks(ts, id, patch, now)[i].id == patch.id.value
    ensures patch.id.value != id ==> !HasTask(UpdatedTasks(ts, id, patch, now), id)
  {
    UpdateFrame(ts, id, patch, now);
  }

  /** An update whose patch has no `id` key, or carries the same id, renames nothing, so ids stay unique. */
  lemma UpdateKeepsIdsUnique(ts: seq<Task>, id: string, patch: TaskPatch, now: Millis)
    requires UniqueIds(ts) && (patch.id.None? || patch.id == Some(id))
    ensures UniqueIds(UpdatedTasks(ts, id, patch, now))
  {
    var r := UpdatedTasks(ts, id, patch, now);
    UpdateFrame(ts, id, patch, now);
    forall i, j | 0 <= i < j < |r| ensures DifferentIds(r[i], r[j]) {
      assert r[i].id == ts[i].id && r[j].id == ts[j].id;
      assert DifferentIds(ts[i], ts[j]);
    }
  }

  lemma DeleteKeepsIdsUnique(ts: seq<Task>, id: string)
    requires UniqueIds(ts)
    ensures UniqueIds(WithoutTask(ts, id))
  {
    DeleteFrame(ts, id);
    Seqs.SubsequencePairwise(WithoutTask(ts, id), ts, DifferentIds);
  }

  /** With unique ids, deleting a present id removes exactly one task. */
  lemma {:induction false} DeleteExistingShrinksByOne(ts: seq<Task>, id: string)
    requires UniqueIds(ts) && HasTask(ts, id)
    ensures |WithoutTask(ts, id)| == |ts| - 1
  {
    var p := (t: Task) => t.id != id;
    assert ts == [ts[0]] + ts[1..];
    assert UniqueIds(ts[1..]) by {
      forall i, j | 0 <= i < j < |ts[1..]| ensures DifferentIds(ts[1..][i], ts[1..][j]) {
        assert DifferentIds(ts[i + 1], ts[j + 1]);
      }
    }
    if ts[0].id == id {
      forall i | 0 <= i < |ts[1..]| ensures p(ts[1..][i]) {
        assert DifferentIds(ts[0], ts[i + 1]);
      }
      Seqs.FilterKeepsAll(ts[1..], p);
    } else {
      var i :| 0 <= i < |ts| && ts[i].id == id;
      assert ts[1..][i - 1].id == id;
      DeleteExistingShrinksByOne(ts[1..], id);
    }
  }

  // ------------------------------------------------------------- timestamps

  predicate Chronological(ts: seq<Task>) {
    forall i :: 0 <= i < |ts| ==> ts[i].createdAt <= ts[i].updatedAt
  }

  /** Adding keeps `createdAt <= updatedAt` when the two clock readings come in order. */
  lemma AddKeepsChronology(ts: seq<Task>, draft: TaskDraft, nowMs: nat, createdAt: Millis, updatedAt: Millis)
    requires Chronological(ts) && createdAt <= updatedAt
    ensures Chronological(ts + [NewTask(draft, nowMs, createdAt, updatedAt)])
  {
  }

  /**
   * When the clock is not behind any stamp it updates, and the patch does not set
   * `createdAt` into the future, an update keeps `createdAt <= updatedAt` and
   * never moves a task's `updatedAt` backwards.
   */
  lemma UpdateKeepsChronology(ts: seq<Task>, id: string, patch: TaskPatch, now: Millis)
    requires Chronological(ts)
    requires forall i :: 0 <= i < |ts| && ts[i].id == id ==> ts[i].updatedAt <= now
    requires patch.createdAt.Some? ==> patch.createdAt.value <= now
    ensures Chronological(UpdatedTasks(ts, id, patch, now))
    ensures forall i :: 0 <= i < |ts| ==> ts[i].updatedAt <= UpdatedTasks(ts, id, patch, now)[i].updatedAt
  {
    UpdateFrame(ts, id, patch, now);
  }

  /** Deleting keeps `createdAt <= updatedAt`: the tasks left are tasks that were there. */
  lemma DeleteKeepsChronology(ts: seq<Task>, id: string)
    requires Chronological(ts)
    ensures Chronological(WithoutTask(ts, id))
  {
    var r := WithoutTask(ts, id);
    forall i | 0 <= i < |r| ensures r[i].createdAt <= r[i].updatedAt {
      assert r[i] in r;
    }
  }

  // --------------------------------------------------------------- scenario

  /** Create, toggle, delete: one pending task, then completed and restamped, then none. */
  lemma CreateToggleDelete(draft: TaskDraft, nowMs: nat, createdAt: Millis, updatedAt: Millis, now: Millis)
    requires !draft.completed
    ensures var added := [] + [NewTask(draft, nowMs, createdAt, updatedAt)];
            var toggled := Toggled(added, added[0].id, now);
            && |added| == 1 && !added[0].completed
            && |toggled| == 1 && toggled[0].completed && toggled[0].updatedAt == now
            && WithoutTask(toggled, added[0].id) == []
  {
    var added := [] + [NewTask(draft, nowMs, createdAt, updatedAt)];
    var id := added[0].id;
    assert HasTask(added, id);
    ToggleFlipsFirstMatch(added, id, now);
    var k := FirstMatch(added, id);
    var toggled := Toggled(added, id, now);
    assert toggled[0].id == id;
    assert toggled[1..] == [];
  }

  // ------------------------------------------------------------------ store

  /**
   * The provider's state. `tasks` is the `useState` value; `persisted` is what
   * the save effect last wrote under the local-storage key "tasks".
   */
  class TaskStore {
    var tasks: seq<Task>
    ghost var persisted: seq<Task>

    /** The save effect has run since the last change. */
    ghost predicate Valid()
      reads this
    {
      persisted == tasks
    }

    /** The provider after its load effect, holding `loaded`. */
    constructor (loaded: seq<Task>)
      ensures Valid() && tasks == loaded
    {
      tasks := loaded;
      persisted := loaded;
    }

    /** Mounting: the stored collection, or an empty one; a corrupt blob aborts. */
    static method Mount(stored: Option<string>, parse: string -> Option<seq<Task>>)
      returns (r: Result<TaskStore, Persistence.LoadError>)
      ensures r.Ok? <==> Persistence.Hydrate(stored, parse).Ok?
      ensures r.Ok? ==> fresh(r.value) && r.value.Valid() && r.value.tasks == Persistence.Hydrate(stored, parse).value
      ensures r.Err? ==> r.error == Persistence.Hydrate(stored, parse).error
    {
      match Persistence.Hydrate(stored, parse)
      case Ok(loaded) =>
        var store := new TaskStore(loaded);
        r := Ok(store);
      case Err(e) =>
        r := Err(e);
    }

    method AddTask(draft: TaskDraft, nowMs: nat, createdAt: Millis, updatedAt: Millis)
      requires Valid()
      modifies this
      ensures Valid()
      ensures tasks == old(tasks) + [NewTask(draft, nowMs, createdAt, updatedAt)]
    {
      tasks := tasks + [NewTask(draft, nowMs, createdAt, updatedAt)];
      persisted := tasks;
    }

    method UpdateTask(id: string, patch: TaskPatch, now: Millis)
      requires Valid()
      modifies this
      ensures Valid()
      ensures tasks == UpdatedTasks(old(tasks), id, patch, now)
    {
      tasks := UpdatedTasks(tasks, id, patch, now);
      persisted := tasks;
    }

    method DeleteTask(id: string)
      requires Valid()
      modifies this
      ensures Valid()
      ensures tasks == WithoutTask(old(tasks), id)
    {
      tasks := WithoutTask(tasks, id);
      persisted := tasks;
    }

    function GetTask(id: string): (r: Option<Task>)
      reads this
      ensures r.None? <==> !HasTask(tasks, id)
      ensures r.Some? ==> exists k :: 0 <= k < |tasks| && tasks[k] == r.value && r.value.id == id
                            && forall j :: 0 <= j < k ==> tasks[j].id != id
    {
      FindTask(tasks, id)
    }

    /** Reads the first match's flag, then updates through `UpdateTask`. */
    method ToggleTask(id: string, now: Millis)
      requires Valid()
      modifies this
      ensures Valid()
      ensures tasks == Toggled(old(tasks), id, now)
    {
      UpdateTask(id, TogglePatch(tasks, id), now);
    }
  }
}
