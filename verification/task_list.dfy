/** Task list: the conjunctive filter (project, priority, completion status)
    and its priority colour switch. */
module TaskList {
  import opened Common
  import opened TaskForm

  /** `selectedStatus`: "all" | "completed" | "active". */
  datatype StatusFilter = AllStatuses | CompletedOnly | ActiveOnly

  /** The sentinel that switches the project or priority test off. */
  const All: string := "all"

  /** The three tests of the list's filter callback. */
  predicate Keep(t: Task, project: string, priority: string, status: StatusFilter) {
    && (project == All || t.project == project)
    && (priority == All || PriorityName(t.priority) == priority)
    && (status.AllStatuses? || (status.CompletedOnly? && t.completed) || (status.ActiveOnly? && !t.completed))
  }

  /** `filteredTasks`. */
  function FilterTasks(tasks: seq<Task>, project: string, priority: string, status: StatusFilter): (r: seq<Task>)
    ensures |r| <= |tasks|
    ensures forall i :: 0 <= i < |r| ==> r[i] in tasks && Keep(r[i], project, priority, status)
  {
    Filter(tasks, t => Keep(t, project, priority, status))
  }

  /** A task is shown iff it passes all three tests, and the shown tasks keep
      their relative order. */
  lemma FilterTasksSpec(tasks: seq<Task>, project: string, priority: string, status: StatusFilter)
    ensures forall t :: t in FilterTasks(tasks, project, priority, status) <==>
      t in tasks &&
      (project == All || t.project == project) &&
      (priority == All || PriorityName(t.priority) == priority) &&
      (status.AllStatuses? || (status.CompletedOnly? && t.completed) || (status.ActiveOnly? && !t.completed))
    ensures Subsequence(FilterTasks(tasks, project, priority, status), tasks)
  {
    FilterIsSubsequence(tasks, t => Keep(t, project, priority, status));
  }

  /** With every selection at "all" the list is shown unchanged. */
  lemma FilterAllKeepsEverything(tasks: seq<Task>)
    ensures FilterTasks(tasks, All, All, AllStatuses) == tasks
  {
    FilterKeepsAll(tasks, t => Keep(t, All, All, AllStatuses));
  }

  /** "completed" and "active" split the (project- and priority-filtered) list. */
  lemma StatusFiltersPartition(tasks: seq<Task>, project: string, priority: string)
    ensures multiset(FilterTasks(tasks, project, priority, CompletedOnly)) +
            multiset(FilterTasks(tasks, project, priority, ActiveOnly)) ==
            multiset(FilterTasks(tasks, project, priority, AllStatuses))
  {
    var all := FilterTasks(tasks, project, priority, AllStatuses);
    var p := (t: Task) => Keep(t, project, priority, CompletedOnly);
    var q := (t: Task) => Keep(t, project, priority, ActiveOnly);
    var keepAll := (t: Task) => Keep(t, project, priority, AllStatuses);
    FilterPartition(all, (t: Task) => t.completed, (t: Task) => !t.completed);
    FilterOfFilter(tasks, keepAll, (t: Task) => t.completed, p);
    FilterOfFilter(tasks, keepAll, (t: Task) => !t.completed, q);
  }

  /** Filtering by `a` and then by `b` is filtering by their conjunction. */
  lemma {:induction false} FilterOfFilter<T>(s: seq<T>, a: T -> bool, b: T -> bool, c: T -> bool)
    requires forall x :: c(x) == (a(x) && b(x))
    ensures Filter(Filter(s, a), b) == Filter(s, c)
    decreases |s|
  {
    if s != [] {
      FilterOfFilter(s[1..], a, b, c);
    }
  }

  /** Applying the filter to its own output changes nothing. */
  lemma FilterTasksIdempotent(tasks: seq<Task>, project: string, priority: string, status: StatusFilter)
    ensures FilterTasks(FilterTasks(tasks, project, priority, status), project, priority, status) ==
            FilterTasks(tasks, project, priority, status)
  {
    FilterIdempotent(tasks, t => Keep(t, project, priority, status));
  }

  /** `getPriorityColor`: a class for each of the three priorities, "" otherwise. */
  function PriorityColor(priority: string): (r: string)
    ensures r != "" <==> priority == "high" || priority == "medium" || priority == "low"
  {
    match priority
    case "high" => "text-red-500 border-red-500"
    case "medium" => "text-amber-500 border-amber-500"
    case "low" => "text-green-500 border-green-500"
    case _ => ""
  }

  /** Every stored task gets a colour, and the three priorities get three
      different colours. */
  lemma PriorityColorsDistinct(p: Priority, q: Priority)
    ensures PriorityColor(PriorityName(p)) != ""
    ensures p != q ==> PriorityColor(PriorityName(p)) != PriorityColor(PriorityName(q))
  {
  }
}
