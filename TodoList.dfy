/**
 * The task list page: a status filter over the collection and a sort of a copy
 * of the filtered list by date, priority or title. Both are recomputed on every
 * render and change nothing.
 */
module TodoList {
  import Wrappers
  import opened Types
  import Seqs
  import Sorting

  datatype StatusFilter = All | Pending | Completed

  datatype SortKey = ByDate | ByPriority | ByTitle

  /** The filter callback: pending shows open tasks, completed shows done ones, all shows every task. */
  predicate Shows(filter: StatusFilter, t: Task) {
    match filter
    case Pending => !t.completed
    case Completed => t.completed
    case All => true
  }

  /** `filteredTasks`. */
  function FilteredTasks(ts: seq<Task>, filter: StatusFilter): seq<Task> {
    Seqs.Filter(ts, (t: Task) => Shows(filter, t))
  }

  /**
   * "pending" keeps exactly the open tasks and "completed" exactly the done ones,
   * each as often as it occurs; "all" keeps the collection as it is.
   */
  lemma FilterSelectsByStatus(ts: seq<Task>, filter: StatusFilter)
    ensures filter == Pending ==> forall t: Task :: multiset(FilteredTasks(ts, filter))[t] == if !t.completed then multiset(ts)[t] else 0
    ensures filter == Completed ==> forall t: Task :: multiset(FilteredTasks(ts, filter))[t] == if t.completed then multiset(ts)[t] else 0
    ensures filter == All ==> FilteredTasks(ts, filter) == ts
  {
    if filter == All {
      Seqs.FilterKeepsAll(ts, (t: Task) => Shows(filter, t));
    }
  }

  /** The filtered list is an order-preserving subsequence, so "N of M tasks" has N <= M. */
  lemma FilteredIsSubsequence(ts: seq<Task>, filter: StatusFilter)
    ensures Seqs.SubsequenceOf(FilteredTasks(ts, filter), ts)
    ensures |FilteredTasks(ts, filter)| <= |ts|
  {
    Seqs.FilterIsSubsequence(ts, (t: Task) => Shows(filter, t));
  }

  /** `priorityOrder`. */
  function Rank(p: Priority): int {
    match p
    case High => 3
    case Medium => 2
    case Low => 1
  }

  /**
   * `String.prototype.localeCompare` is a consistent comparator in the sense of
   * ECMAScript's `Array.prototype.sort`: swapping the arguments flips the sign,
   * and "not after" is transitive, so it is a total preorder on strings.
   */
  ghost predicate ConsistentCollation(collate: (string, string) -> int) {
    && (forall x, y :: collate(x, y) < 0 <==> collate(y, x) > 0)
    && (forall x, y :: collate(x, y) <= 0 || collate(y, x) <= 0)
    && (forall x, y, z :: collate(x, y) <= 0 && collate(y, z) <= 0 ==> collate(x, z) <= 0)
  }

  /** The `sort` callback: negative puts `a` first, positive puts `b` first. */
  function Compare(key: SortKey, collate: (string, string) -> int, a: Task, b: Task): int {
    match key
    case ByPriority => Rank(b.priority) - Rank(a.priority)
    case ByTitle => collate(a.title, b.title)
    case ByDate => b.updatedAt - a.updatedAt
  }

  /** `a` may stay before `b`. */
  function Precedes(key: SortKey, collate: (string, string) -> int): (Task, Task) -> bool {
    (a: Task, b: Task) => Compare(key, collate, a, b) <= 0
  }

  lemma PrecedesIsPreorder(key: SortKey, collate: (string, string) -> int)
    requires key == ByTitle ==> ConsistentCollation(collate)
    ensures Sorting.TotalPreorder(Precedes(key, collate))
  {
  }

  /** `sortedTasks`: a sorted copy; `filteredTasks` itself is a value and is not reordered. */
  function SortedTasks(ts: seq<Task>, key: SortKey, collate: (string, string) -> int): (r: seq<Task>)
    requires key == ByTitle ==> ConsistentCollation(collate)
    ensures |r| == |ts| && multiset(r) == multiset(ts)
  {
    PrecedesIsPreorder(key, collate);
    var r := Sorting.InsertionSort(ts, Precedes(key, collate));
    assert |r| == |multiset(r)| == |multiset(ts)| == |ts|;
    r
  }

  /**
   * The sorted list is a permutation of its input; by priority the rank never
   * rises (high 3, medium 2, low 1); by title the titles ascend under the
   * collation; by date the most recently updated task comes first.
   */
  lemma SortedTasksOrder(ts: seq<Task>, key: SortKey, collate: (string, string) -> int)
    requires key == ByTitle ==> ConsistentCollation(collate)
    ensures multiset(SortedTasks(ts, key, collate)) == multiset(ts)
    ensures key == ByPriority ==> forall i, j :: 0 <= i < j < |ts| ==>
              Rank(SortedTasks(ts, key, collate)[i].priority) >= Rank(SortedTasks(ts, key, collate)[j].priority)
    ensures key == ByTitle ==> forall i, j :: 0 <= i < j < |ts| ==>
              collate(SortedTasks(ts, key, collate)[i].title, SortedTasks(ts, key, collate)[j].title) <= 0
    ensures key == ByDate ==> forall i, j :: 0 <= i < j < |ts| ==>
              SortedTasks(ts, key, collate)[i].updatedAt >= SortedTasks(ts, key, collate)[j].updatedAt
  {
    var r := SortedTasks(ts, key, collate);
    forall i, j | 0 <= i < j < |ts| ensures Precedes(key, collate)(r[i], r[j]) {
    }
  }

  /**
   * `Array.prototype.sort` is stable: tasks the callback finds equal to `t`
   * (it returns 0 both ways) keep the order they had in the filtered list.
   */
  lemma SortedTasksIsStable(ts: seq<Task>, key: SortKey, collate: (string, string) -> int, t: Task)
    requires key == ByTitle ==> ConsistentCollation(collate)
    ensures Seqs.Filter(SortedTasks(ts, key, collate), Sorting.TiedWith(Precedes(key, collate), t))
            == Seqs.Filter(ts, Sorting.TiedWith(Precedes(key, collate), t))
  {
    PrecedesIsPreorder(key, collate);
    Sorting.InsertionSortIsStable(ts, Precedes(key, collate), t);
  }

  function HasPriority(p: Priority): Task -> bool {
    (t: Task) => t.priority == p
  }

  /** Sorted by priority, the tasks of one priority stay in the order they were added. */
  lemma PriorityTiesKeepOrder(ts: seq<Task>, collate: (string, string) -> int, p: Priority)
    ensures Seqs.Filter(SortedTasks(ts, ByPriority, collate), HasPriority(p)) == Seqs.Filter(ts, HasPriority(p))
  {
    var t := Task("", "", "", false, p, Wrappers.None, 0, 0);
    var tied := Sorting.TiedWith(Precedes(ByPriority, collate), t);
    assert forall u: Task :: tied(u) == HasPriority(p)(u);
    SortedTasksIsStable(ts, ByPriority, collate, t);
    Seqs.FilterSamePredicate(SortedTasks(ts, ByPriority, collate), tied, HasPriority(p));
    Seqs.FilterSamePredicate(ts, tied, HasPriority(p));
  }

  /** What the page lists: the filtered tasks, sorted. */
  function VisibleTasks(ts: seq<Task>, filter: StatusFilter, key: SortKey, collate: (string, string) -> int): seq<Task>
    requires key == ByTitle ==> ConsistentCollation(collate)
  {
    SortedTasks(FilteredTasks(ts, filter), key, collate)
  }

  /** Every listed task is in the collection and passes the filter, and each shown task is listed once per occurrence. */
  lemma VisibleTasksAreFiltered(ts: seq<Task>, filter: StatusFilter, key: SortKey, collate: (string, string) -> int)
    requires key == ByTitle ==> ConsistentCollation(collate)
    ensures forall t: Task :: multiset(VisibleTasks(ts, filter, key, collate))[t] == if Shows(filter, t) then multiset(ts)[t] else 0
    ensures |VisibleTasks(ts, filter, key, collate)| <= |ts|
  {
  }
}
