/** Tasks page: the list of tasks and the project list it keeps, the
    reducers its handlers apply, and the search it runs before the list's
    own filter. */
module TasksPage {
  import opened Common
  import opened TaskForm
  import TaskList

  /** The projects offered when nothing is stored. */
  const DefaultProjects: seq<string> := ["Health", "Career", "Finance", "Relationships", "Personal Growth"]

  function Ids(tasks: seq<Task>): (r: seq<string>)
    ensures |r| == |tasks| && forall i :: 0 <= i < |tasks| ==> r[i] == tasks[i].id
  {
    seq(|tasks|, i requires 0 <= i < |tasks| => tasks[i].id)
  }

  predicate UniqueIds(tasks: seq<Task>) {
    UniqueKeys(tasks, (t: Task) => t.id)
  }

  /** `{ ...task, ...taskData }`: the form's fields overwrite those of a task. */
  function Merge(t: Task, d: TaskData): (r: Task)
    ensures r.id == t.id && r.completed == t.completed
    ensures r.title == d.title && r.description == d.description && r.project == d.project
    ensures r.priority == d.priority && r.dueDate == d.dueDate
    ensures r.recurring == d.recurring && r.recurringPattern == d.recurringPattern
  {
    t.(title := d.title, description := d.description, project := d.project, priority := d.priority,
       dueDate := d.dueDate, recurring := d.recurring, recurringPattern := d.recurringPattern)
  }

  /** Opening a task in the form and saving it untouched gives that task
      back, provided it has a project and its pattern is present exactly
      when it recurs (as the form always submits it). */
  lemma EditUnchangedKeepsTask(t: Task, projects: seq<string>)
    requires t.project != ""
    requires t.recurring <==> t.recurringPattern.Some?
    requires t.recurringPattern.Some? ==> t.recurringPattern.value != ""
    ensures Merge(t, Submitted(InitialFields(FromTask(t), projects))) == t
  {
  }

  /** Creating: a fresh, uncompleted task in front of the old list. */
  function AddTask(tasks: seq<Task>, id: string, d: TaskData): (r: seq<Task>)
    ensures |r| == |tasks| + 1 && r[1..] == tasks
    ensures r[0].id == id && !r[0].completed && Merge(r[0], d) == r[0]
  {
    [Task(id, d.title, d.description, d.project, d.priority, d.dueDate, false, d.recurring, d.recurringPattern)] + tasks
  }

  /** Editing: each task with the editing id takes the form's fields. */
  function UpdateTask(tasks: seq<Task>, id: string, d: TaskData): (r: seq<Task>)
    ensures |r| == |tasks| && Ids(r) == Ids(tasks)
    ensures forall i :: 0 <= i < |tasks| && tasks[i].id != id ==> r[i] == tasks[i]
    ensures forall i :: 0 <= i < |tasks| && tasks[i].id == id ==> r[i] == Merge(tasks[i], d)
  {
    seq(|tasks|, i requires 0 <= i < |tasks| => if tasks[i].id == id then Merge(tasks[i], d) else tasks[i])
  }

  /** `handleToggleComplete`. */
  function ToggleComplete(tasks: seq<Task>, id: string): (r: seq<Task>)
    ensures |r| == |tasks| && Ids(r) == Ids(tasks)
    ensures forall i :: 0 <= i < |tasks| ==>
      r[i] == if tasks[i].id == id then tasks[i].(completed := !tasks[i].completed) else tasks[i]
  {
    seq(|tasks|, i requires 0 <= i < |tasks| =>
      if tasks[i].id == id then tasks[i].(completed := !tasks[i].completed) else tasks[i])
  }

  /** `handleDeleteTask`. */
  function DeleteTask(tasks: seq<Task>, id: string): (r: seq<Task>)
    ensures |r| <= |tasks| && forall i :: 0 <= i < |r| ==> r[i] in tasks && r[i].id != id
    ensures forall i :: 0 <= i < |tasks| && tasks[i].id != id ==> tasks[i] in r
  {
    Filter(tasks, (t: Task) => t.id != id)
  }

  /** Registering the project of a saved task. */
  function RegisterProject(projects: seq<string>, p: string): (r: seq<string>)
    ensures p != "" && p !in projects ==> r == projects + [p]
    ensures p == "" || p in projects ==> r == projects
  {
    if p != "" && p !in projects then projects + [p] else projects
  }

  /** The search box's test: the lower-cased query inside the lower-cased
      title or description. */
  predicate MatchesSearch(t: Task, query: string) {
    Contains(Lower(t.title), Lower(query)) || Contains(Lower(t.description), Lower(query))
  }

  /** `filteredBySearchTasks`. */
  function SearchTasks(tasks: seq<Task>, query: string): (r: seq<Task>)
    ensures |r| <= |tasks| && forall i :: 0 <= i < |r| ==> r[i] in tasks
    ensures query != "" ==> forall i :: 0 <= i < |r| ==> MatchesSearch(r[i], query)
  {
    if query == "" then tasks else Filter(tasks, (t: Task) => MatchesSearch(t, query))
  }

  // ---------------------------------------------------------------------
  // Properties of the reducers
  // ---------------------------------------------------------------------

  lemma {:induction false} ToggleTwiceRestores(tasks: seq<Task>, id: string)
    ensures ToggleComplete(ToggleComplete(tasks, id), id) == tasks
  {
    var r := ToggleComplete(ToggleComplete(tasks, id), id);
    assert forall i :: 0 <= i < |tasks| ==> r[i] == tasks[i];
  }

  /** An id that no task has changes nothing: neither a toggle nor an edit
      with any form data. */
  lemma ToggleUnknownIdChangesNothing(tasks: seq<Task>, id: string, d: TaskData)
    requires forall i :: 0 <= i < |tasks| ==> tasks[i].id != id
    ensures ToggleComplete(tasks, id) == tasks
    ensures UpdateTask(tasks, id, d) == tasks
  {
  }

  /** Toggling changes the completion flag of tasks with that id and
      nothing else. */
  lemma ToggleOnlyFlipsCompletion(tasks: seq<Task>, id: string)
    ensures forall i :: 0 <= i < |tasks| ==>
      ToggleComplete(tasks, id)[i].(completed := tasks[i].completed) == tasks[i] &&
      (ToggleComplete(tasks, id)[i].completed != tasks[i].completed <==> tasks[i].id == id)
  {
  }

  /** Delete keeps exactly tasks with a different id, in order, and a
      second delete of the same id changes nothing. */
  lemma DeleteSpec(tasks: seq<Task>, id: string)
    ensures forall t :: t in DeleteTask(tasks, id) <==> t in tasks && t.id != id
    ensures Subsequence(DeleteTask(tasks, id), tasks)
    ensures DeleteTask(DeleteTask(tasks, id), id) == DeleteTask(tasks, id)
  {
    FilterIsSubsequence(tasks, (t: Task) => t.id != id);
    FilterIdempotent(tasks, (t: Task) => t.id != id);
  }

  /** Deleting a task just created with a fresh id gives the old list back. */
  lemma AddThenDeleteRestores(tasks: seq<Task>, id: string, d: TaskData)
    requires forall i :: 0 <= i < |tasks| ==> tasks[i].id != id
    ensures DeleteTask(AddTask(tasks, id, d), id) == tasks
  {
    var r := AddTask(tasks, id, d);
    assert r == [r[0]] + tasks;
    FilterKeepsAll(tasks, (t: Task) => t.id != id);
  }

  /** Ids stay unique: a fresh id keeps them so on creation, and the other
      reducers never introduce a repeated id. */
  lemma AddKeepsUniqueIds(tasks: seq<Task>, id: string, d: TaskData)
    requires UniqueIds(tasks)
    requires forall i :: 0 <= i < |tasks| ==> tasks[i].id != id
    ensures UniqueIds(AddTask(tasks, id, d))
  {
    var r := AddTask(tasks, id, d);
    forall i, j | 0 <= i < j < |r| ensures r[i].id != r[j].id {
      if i > 0 {
        assert r[i] == tasks[i - 1] && r[j] == tasks[j - 1];
      }
    }
  }

  lemma EditsKeepUniqueIds(tasks: seq<Task>, id: string, d: TaskData)
    requires UniqueIds(tasks)
    ensures UniqueIds(UpdateTask(tasks, id, d))
    ensures UniqueIds(ToggleComplete(tasks, id))
  {
    var u := UpdateTask(tasks, id, d);
    assert forall i :: 0 <= i < |u| ==> u[i].id == tasks[i].id;
    var g := ToggleComplete(tasks, id);
    assert forall i :: 0 <= i < |g| ==> g[i].id == tasks[i].id;
  }

  lemma DeleteKeepsUniqueIds(tasks: seq<Task>, id: string)
    requires UniqueIds(tasks)
    ensures UniqueIds(DeleteTask(tasks, id))
  {
    FilterKeepsUniqueKeys(tasks, (t: Task) => t.id != id, (t: Task) => t.id);
  }

  /** The project list never gains a duplicate or an empty name. */
  lemma RegisterProjectKeepsDistinct(projects: seq<string>, p: string)
    requires forall i, j :: 0 <= i < j < |projects| ==> projects[i] != projects[j]
    ensures var r := RegisterProject(projects, p);
      (forall i, j :: 0 <= i < j < |r| ==> r[i] != r[j]) && (p != "" ==> p in r) && |r| <= |projects| + 1
  {
  }

  /** An empty query shows every task; otherwise exactly the matching tasks,
      in order. */
  lemma SearchSpec(tasks: seq<Task>, query: string)
    ensures query == "" ==> SearchTasks(tasks, query) == tasks
    ensures query != "" ==> forall t :: t in SearchTasks(tasks, query) <==> t in tasks && MatchesSearch(t, query)
    ensures Subsequence(SearchTasks(tasks, query), tasks)
  {
    if query == "" {
      SubsequenceRefl(tasks);
    } else {
      FilterIsSubsequence(tasks, (t: Task) => MatchesSearch(t, query));
    }
  }

  /** The search ignores ASCII case on both sides. */
  lemma SearchIgnoresCase(t: Task, query: string)
    ensures MatchesSearch(t, query) <==> MatchesSearch(t, Lower(query))
  {
    LowerIdempotent(query);
  }

  /** Scenario: create "Draft report" (high, project "Career", no due date) on
      an empty list, then toggle it: exactly one task, completed and high. */
  lemma DraftReportScenario(id: string)
    ensures var d := TaskData("Draft report", "", "Career", High, None, false, None);
      var after := ToggleComplete(AddTask([], id, d), id);
      |after| == 1 && after[0].completed && after[0].priority == High && after[0].title == "Draft report"
  {
  }

  /** Component: the tasks page. */
  class Page {
    var tasks: seq<Task>
    var projects: seq<string>
    var editingTask: Option<Task>
    var selectedProject: string
    var selectedPriority: string
    var selectedStatus: TaskList.StatusFilter
    var searchQuery: string

    /** Mount: stored values if present, else an empty list and the default
        projects; no task being edited; every filter at "all". */
    constructor (savedTasks: Option<seq<Task>>, savedProjects: Option<seq<string>>)
      ensures tasks == (if savedTasks.Some? then savedTasks.value else [])
      ensures projects == (if savedProjects.Some? then savedProjects.value else DefaultProjects)
      ensures editingTask.None? && searchQuery == ""
      ensures selectedProject == TaskList.All && selectedPriority == TaskList.All
      ensures selectedStatus == TaskList.AllStatuses
    {
      tasks := if savedTasks.Some? then savedTasks.value else [];
      projects := if savedProjects.Some? then savedProjects.value else DefaultProjects;
      editingTask := None;
      selectedProject, selectedPriority := TaskList.All, TaskList.All;
      selectedStatus := TaskList.AllStatuses;
      searchQuery := "";
    }

    /** `handleSaveTask`: update the edited task or create one with `newId`,
        then register the project and leave edit mode. */
    method HandleSaveTask(data: TaskData, newId: string)
      modifies this
      ensures tasks == if old(editingTask).Some? then UpdateTask(old(tasks), old(editingTask).value.id, data)
                       else AddTask(old(tasks), newId, data)
      ensures projects == RegisterProject(old(projects), data.project)
      ensures editingTask.None?
      ensures selectedProject == old(selectedProject) && selectedPriority == old(selectedPriority)
      ensures selectedStatus == old(selectedStatus) && searchQuery == old(searchQuery)
    {
      if editingTask.Some? {
        tasks := UpdateTask(tasks, editingTask.value.id, data);
      } else {
        tasks := AddTask(tasks, newId, data);
      }
      if data.project != "" && data.project !in projects {
        projects := projects + [data.project];
      }
      editingTask := None;
    }

    method HandleToggleComplete(id: string)
      modifies this
      ensures tasks == ToggleComplete(old(tasks), id)
      ensures projects == old(projects) && editingTask == old(editingTask)
    {
      tasks := ToggleComplete(tasks, id);
    }

    /** `handleEditTask`: the first task with that id becomes the edited one;
        an unknown id changes nothing. */
    method HandleEditTask(id: string)
      modifies this
      ensures editingTask == (var f := Find(old(tasks), (t: Task) => t.id == id);
                              if f.Some? then f else old(editingTask))
      ensures editingTask.Some? && editingTask != old(editingTask) ==> editingTask.value in tasks && editingTask.value.id == id
      ensures tasks == old(tasks) && projects == old(projects)
    {
      var found := Find(tasks, (t: Task) => t.id == id);
      if found.Some? {
        editingTask := found;
      }
    }

    method HandleDeleteTask(id: string)
      modifies this
      ensures tasks == DeleteTask(old(tasks), id)
      ensures projects == old(projects) && editingTask == old(editingTask)
    {
      tasks := DeleteTask(tasks, id);
    }

    /** The filter bar's setters. */
    method SetFilters(project: string, priority: string, status: TaskList.StatusFilter, query: string)
      modifies this
      ensures selectedProject == project && selectedPriority == priority
      ensures selectedStatus == status && searchQuery == query
      ensures tasks == old(tasks) && projects == old(projects) && editingTask == old(editingTask)
    {
      selectedProject, selectedPriority, selectedStatus, searchQuery := project, priority, status, query;
    }

    /** What the list shows: the search result, then the list's filter. */
    function Visible(): seq<Task>
      reads this
    {
      TaskList.FilterTasks(SearchTasks(tasks, searchQuery), selectedProject, selectedPriority, selectedStatus)
    }
  }

  /** What the page shows is always an ordered selection of its tasks, and
      right after mount it is all of them. */
  lemma VisibleIsSubsequence(tasks: seq<Task>, query: string, project: string, priority: string,
                             status: TaskList.StatusFilter)
    ensures Subsequence(TaskList.FilterTasks(SearchTasks(tasks, query), project, priority, status), tasks)
    ensures TaskList.FilterTasks(SearchTasks(tasks, ""), TaskList.All, TaskList.All, TaskList.AllStatuses) == tasks
  {
    var s := SearchTasks(tasks, query);
    SearchSpec(tasks, query);
    TaskList.FilterTasksSpec(s, project, priority, status);
    SubsequenceTrans(TaskList.FilterTasks(s, project, priority, status), s, tasks);
    TaskList.FilterAllKeepsEverything(tasks);
  }
}
