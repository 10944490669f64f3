/** The dashboard's list of today's tasks: four fixed tasks that can be
    ticked off, a colour per priority, and a banner once all are done. */
module TodayTasks {
  import opened Common

  /** A dashboard task; the priority is free text here. */
  datatype DashboardTask = DashboardTask(id: int, title: string, completed: bool, priority: string, time: string)

  /** `initialTasks`. */
  function InitialTasks(): (r: seq<DashboardTask>)
    ensures |r| == 4
    ensures forall i :: 0 <= i < 4 ==> r[i].id == i + 1 && !r[i].completed
  {
    [DashboardTask(1, "Morning meditation", false, "medium", "7:00 AM"),
     DashboardTask(2, "Team meeting", false, "high", "10:00 AM"),
     DashboardTask(3, "Draft proposal", false, "high", "1:00 PM"),
     DashboardTask(4, "Evening exercise", false, "medium", "6:00 PM")]
  }

  /** `toggleComplete`: flips `completed` on tasks with that id. */
  function ToggleComplete(tasks: seq<DashboardTask>, id: int): (r: seq<DashboardTask>)
    ensures |r| == |tasks|
    ensures forall i :: 0 <= i < |tasks| ==>
      r[i] == if tasks[i].id == id then tasks[i].(completed := !tasks[i].completed) else tasks[i]
  {
    seq(|tasks|, i requires 0 <= i < |tasks| =>
      if tasks[i].id == id then tasks[i].(completed := !tasks[i].completed) else tasks[i])
  }

  /** `tasks.every(task => task.completed)`, front to back, stopping at
      the first open task: the condition for the banner. */
  function AllCompleted(tasks: seq<DashboardTask>): (r: bool)
    ensures r <==> forall i :: 0 <= i < |tasks| ==> tasks[i].completed
  {
    tasks == [] || (tasks[0].completed && AllCompleted(tasks[1..]))
  }

  /** `getPriorityColor`. */
  function PriorityColor(priority: string): (r: string)
    ensures r != "" <==> priority == "high" || priority == "medium" || priority == "low"
  {
    match priority
    case "high" => "text-red-500"
    case "medium" => "text-amber-500"
    case "low" => "text-green-500"
    case _ => ""
  }

  /** Every task is open at first, so the banner is hidden, and every
      initial priority has a colour. */
  lemma InitialSpec()
    ensures !AllCompleted(InitialTasks())
    ensures forall t :: t in InitialTasks() ==> PriorityColor(t.priority) != ""
  {
    assert !InitialTasks()[0].completed;
  }

  /** Toggling twice restores the list; a toggle changes only the tasks
      with that id, and only their flag. */
  lemma ToggleSpec(tasks: seq<DashboardTask>, id: int)
    ensures ToggleComplete(ToggleComplete(tasks, id), id) == tasks
    ensures forall i :: 0 <= i < |tasks| ==>
      var t := ToggleComplete(tasks, id)[i];
      t.id == tasks[i].id && t.title == tasks[i].title && t.priority == tasks[i].priority && t.time == tasks[i].time
  {
  }

  /** With distinct ids, ticking off the only open task shows the banner. */
  lemma CompletingLastOpenTask(tasks: seq<DashboardTask>, k: nat)
    requires k < |tasks| && !tasks[k].completed
    requires UniqueKeys(tasks, (t: DashboardTask) => t.id)
    requires forall i :: 0 <= i < |tasks| && i != k ==> tasks[i].completed
    ensures AllCompleted(ToggleComplete(tasks, tasks[k].id))
  {
    var r := ToggleComplete(tasks, tasks[k].id);
    forall i | 0 <= i < |tasks| ensures r[i].completed {
      if i != k {
        assert tasks[i].id != tasks[k].id;
      }
    }
  }

  /** The dashboard card component. */
  class Card {
    var tasks: seq<DashboardTask>

    constructor ()
      ensures tasks == InitialTasks()
    {
      tasks := InitialTasks();
    }

    method HandleToggleComplete(id: int)
      modifies this
      ensures tasks == ToggleComplete(old(tasks), id)
    {
      tasks := ToggleComplete(tasks, id);
    }

    function ShowsBanner(): bool
      reads this
    {
      AllCompleted(tasks)
    }
  }
}
