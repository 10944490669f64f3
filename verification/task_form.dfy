/** Task records and the form that edits them: its seven fields, their defaults when
    the form opens empty or on an existing task, and what a submit hands to
    the page before resetting the form. */
module TaskForm {
  import opened Common

  datatype Priority = Low | Medium | High

  /** The string stored for a priority ("low" | "medium" | "high"). */
  function PriorityName(p: Priority): (r: string)
    ensures r == "low" || r == "medium" || r == "high"
  {
    match p
    case Low => "low"
    case Medium => "medium"
    case High => "high"
  }

  /** Distinct priorities are stored as distinct strings. */
  lemma PriorityNameInjective(p: Priority, q: Priority)
    ensures PriorityName(p) == PriorityName(q) ==> p == q
  {
  }

  /** A task. `recurringPattern` is absent (undefined) unless it recurs. */
  datatype Task = Task(
    id: string,
    title: string,
    description: string,
    project: string,
    priority: Priority,
    dueDate: Option<Date>,
    completed: bool,
    recurring: bool,
    recurringPattern: Option<string>)

  /** `Omit<Task, "id" | "completed">`: what the form submits. The page
      assigns the id and the completion flag. */
  datatype TaskData = TaskData(
    title: string,
    description: string,
    project: string,
    priority: Priority,
    dueDate: Option<Date>,
    recurring: bool,
    recurringPattern: Option<string>)

  /** `Partial<Task>`, the form's `initialValues`. A null due date and a
      missing one are both `None`. */
  datatype PartialTask = PartialTask(
    id: Option<string>,
    title: Option<string>,
    description: Option<string>,
    project: Option<string>,
    priority: Option<Priority>,
    dueDate: Option<Date>,
    completed: Option<bool>,
    recurring: Option<bool>,
    recurringPattern: Option<string>)

  /** `{}`: the form opened for a new task. */
  const NoInitialValues: PartialTask :=
    PartialTask(None, None, None, None, None, None, None, None, None)

  /** A task being edited, passed whole as `initialValues`. */
  function FromTask(t: Task): PartialTask {
    PartialTask(Some(t.id), Some(t.title), Some(t.description), Some(t.project),
                Some(t.priority), t.dueDate, Some(t.completed), Some(t.recurring),
                t.recurringPattern)
  }

  /** JavaScript `o || d` on an optional string: "" is falsy too. */
  function OrElse(o: Option<string>, d: string): string {
    if o.Some? && o.value != "" then o.value else d
  }

  /** `projects[0] || ""`. */
  function FirstProject(projects: seq<string>): (r: string)
    ensures |projects| > 0 ==> r == projects[0]
    ensures |projects| == 0 ==> r == ""
  {
    if |projects| > 0 then projects[0] else ""
  }

  /** The seven state fields of the form. */
  datatype FormFields = FormFields(
    title: string,
    description: string,
    project: string,
    priority: Priority,
    dueDate: Option<Date>,
    recurring: bool,
    recurringPattern: string)

  /** The fields after `useState`/the effect read `initialValues`. */
  function InitialFields(init: PartialTask, projects: seq<string>): (f: FormFields)
    ensures f.project == (if init.project.Some? && init.project.value != "" then init.project.value
                          else if |projects| > 0 then projects[0] else "")
    ensures init.priority.None? ==> f.priority == Medium
    ensures init.dueDate.None? ==> f.dueDate.None?
    ensures f.recurring <==> init.recurring == Some(true)
    ensures f.recurringPattern != ""
  {
    FormFields(
      OrElse(init.title, ""),
      OrElse(init.description, ""),
      OrElse(init.project, FirstProject(projects)),
      if init.priority.Some? then init.priority.value else Medium,
      init.dueDate,
      init.recurring == Some(true),
      OrElse(init.recurringPattern, "daily"))
  }

  /** The fields right after a submit. */
  function ResetFields(projects: seq<string>): FormFields {
    FormFields("", "", FirstProject(projects), Medium, None, false, "daily")
  }

  /** The record a submit passes to `onSave`. */
  function Submitted(f: FormFields): (d: TaskData)
    ensures d.recurringPattern.Some? <==> f.recurring
    ensures d.recurringPattern.Some? ==> d.recurringPattern.value == f.recurringPattern
    ensures d.title == f.title && d.description == f.description && d.project == f.project
    ensures d.priority == f.priority && d.dueDate == f.dueDate && d.recurring == f.recurring
  {
    TaskData(f.title, f.description, f.project, f.priority, f.dueDate, f.recurring,
             if f.recurring then Some(f.recurringPattern) else None)
  }

  /** An empty form and a form just reset by a submit look the same: title and
      description empty, the first project, medium priority, no due date, not
      recurring, pattern "daily". */
  lemma EmptyFormIsResetForm(projects: seq<string>)
    ensures InitialFields(NoInitialValues, projects) == ResetFields(projects)
    ensures ResetFields(projects).priority == Medium && ResetFields(projects).dueDate.None?
    ensures !ResetFields(projects).recurring && ResetFields(projects).recurringPattern == "daily"
  {
  }

  /** Opening a task in the form shows its own values back, except where the
      source's `||` replaces a falsy value by a default. */
  lemma {:induction false} EditFormShowsTask(t: Task, projects: seq<string>)
    requires t.project != ""
    ensures InitialFields(FromTask(t), projects).title == t.title
    ensures InitialFields(FromTask(t), projects).description == t.description
    ensures InitialFields(FromTask(t), projects).project == t.project
    ensures InitialFields(FromTask(t), projects).priority == t.priority
    ensures InitialFields(FromTask(t), projects).dueDate == t.dueDate
    ensures InitialFields(FromTask(t), projects).recurring == t.recurring
  {
  }

  /** Component: the form for a task. */
  class Form {
    var title: string
    var description: string
    var project: string
    var priority: Priority
    var dueDate: Option<Date>
    var recurring: bool
    var recurringPattern: string
    var projects: seq<string>

    function Current(): FormFields
      reads this
    {
      FormFields(title, description, project, priority, dueDate, recurring, recurringPattern)
    }

    constructor (init: PartialTask, projects: seq<string>)
      ensures Current() == InitialFields(init, projects)
      ensures this.projects == projects
    {
      var f := InitialFields(init, projects);
      title, description, project := f.title, f.description, f.project;
      priority, dueDate := f.priority, f.dueDate;
      recurring, recurringPattern := f.recurring, f.recurringPattern;
      this.projects := projects;
    }

    /** The effect on `initialValues` and `projects`: it runs whenever either
        is a new object. The tasks page passes a fresh `{}` on each of its
        renders in create mode, so there it runs on every render and
        `EmptyFormIsResetForm` says what it leaves: the empty form. */
    method ApplyInitialValues(init: PartialTask, projects: seq<string>)
      modifies this
      ensures Current() == InitialFields(init, projects)
      ensures this.projects == projects
    {
      this.projects := projects;
      title := OrElse(init.title, "");
      description := OrElse(init.description, "");
      project := OrElse(init.project, FirstProject(projects));
      priority := if init.priority.Some? then init.priority.value else Medium;
      dueDate := init.dueDate;
      recurring := init.recurring == Some(true);
      recurringPattern := OrElse(init.recurringPattern, "daily");
    }

    /** `handleSubmit`: hand the record to `onSave`, then reset every field.
        The title input is `required`, so the browser submits only a
        non-empty title. */
    method Submit() returns (data: TaskData)
      requires title != ""
      modifies this
      ensures data.title != ""
      ensures data == Submitted(old(Current()))
      ensures Current() == ResetFields(projects) && projects == old(projects)
    {
      data := TaskData(title, description, project, priority, dueDate, recurring,
                       if recurring then Some(recurringPattern) else None);
      title := "";
      description := "";
      project := FirstProject(projects);
      priority := Medium;
      dueDate := None;
      recurring := false;
      recurringPattern := "daily";
    }
  }
}
