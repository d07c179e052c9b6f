/** The records the two stores hold, and the argument shapes of their operations. */
module Types {
  import opened Wrappers

  /**
   * An instant in milliseconds since the epoch. The source stores timestamps as
   * ISO-8601 text and reads them back with `new Date(s).getTime()`; the model
   * keeps the instant itself.
   */
  type Millis = int

  datatype Priority = Low | Medium | High

  datatype Task = Task(
    id: string,
    title: string,
    description: string,
    completed: bool,
    priority: Priority,
    dueDate: Option<string>,
    createdAt: Millis,
    updatedAt: Millis)

  datatype Note = Note(
    id: string,
    title: string,
    content: string,
    category: string,
    tags: seq<string>,
    createdAt: Millis,
    updatedAt: Millis)

  /** What `addTask` is given: a Task without `id`, `createdAt` and `updatedAt`. */
  datatype TaskDraft = TaskDraft(
    title: string,
    description: string,
    completed: bool,
    priority: Priority,
    dueDate: Option<string>)

  /** What `addNote` is given: a Note without `id`, `createdAt` and `updatedAt`. */
  datatype NoteDraft = NoteDraft(
    title: string,
    content: string,
    category: string,
    tags: seq<string>)

  /**
   * `Partial<Task>`: `None` is a key the patch does not carry. `id`, `createdAt`
   * and `updatedAt` are keys of the type like any other.
   */
  datatype TaskPatch = TaskPatch(
    id: Option<string>,
    title: Option<string>,
    description: Option<string>,
    completed: Option<bool>,
    priority: Option<Priority>,
    dueDate: Option<Option<string>>,
    createdAt: Option<Millis>,
    updatedAt: Option<Millis>)

  /** `Partial<Note>`. */
  datatype NotePatch = NotePatch(
    id: Option<string>,
    title: Option<string>,
    content: Option<string>,
    category: Option<string>,
    tags: Option<seq<string>>,
    createdAt: Option<Millis>,
    updatedAt: Option<Millis>)

  const EmptyTaskPatch := TaskPatch(None, None, None, None, None, None, None, None)

  const EmptyNotePatch := NotePatch(None, None, None, None, None, None, None)

  /** One key of an object spread `{ ...current, ...patch }`: the patch's value wins when it has the key. */
  function Spread<T>(patched: Option<T>, current: T): T {
    match patched
    case Some(v) => v
    case None => current
  }
}
