/** The side list of unscheduled tasks: the tasks without a start time,
    in creation order, each under a header in the policy's colour, or a
    placeholder when there are none; a click opens the editor on a task,
    the add button opens it blank. */
module Sidebar {
  import opened Js
  import DateUtils
  import UseTasks
  import TaskModal

  /** `unscheduledTasks`: the tasks with no start time, in store order. */
  function Unscheduled(tasks: seq<UseTasks.Task>): (r: seq<UseTasks.Task>)
    ensures |r| <= |tasks|
    ensures forall t :: t in r <==> t in tasks && t.startTime.None?
  {
    Filter(tasks, (t: UseTasks.Task) => t.startTime.None?)
  }

  /** The list keeps creation order: it distributes over the store. */
  lemma UnscheduledOrder(a: seq<UseTasks.Task>, b: seq<UseTasks.Task>)
    ensures Unscheduled(a + b) == Unscheduled(a) + Unscheduled(b)
  {
    FilterConcat(a, b, (t: UseTasks.Task) => t.startTime.None?);
  }

  /** A task added without a start time goes to the end of the list; one
      added with a start time leaves the list as it was. */
  lemma AddedUnscheduled(tasks: seq<UseTasks.Task>, data: UseTasks.TaskInput, id: string)
    ensures var t := UseTasks.Created(data, id);
            Unscheduled(tasks + [t]) == if data.startTime.None? then Unscheduled(tasks) + [t] else Unscheduled(tasks)
  {
    var t := UseTasks.Created(data, id);
    UnscheduledOrder(tasks, [t]);
    assert [t][1..] == [];
  }

  /** One entry of the list: its id, title, header colour and the notes
      line, shown only when the notes are not empty. */
  datatype Entry = Entry(id: string, title: string, color: string, notes: Option<string>)

  /** What the list shows. */
  datatype View = Placeholder | Entries(entries: seq<Entry>)

  function EntryOf(t: UseTasks.Task): Entry {
    Entry(t.id, t.title, UseTasks.AutoColorOf(t), if t.notes != "" then Some(t.notes) else None)
  }

  /** The rendered list: the placeholder exactly when no task lacks a start
      time, else one entry per unscheduled task, in order, coloured by the
      policy. */
  function SidebarView(tasks: seq<UseTasks.Task>): (v: View)
    ensures v.Placeholder? <==> forall t :: t in tasks ==> t.startTime.Some?
    ensures v.Entries? ==> |v.entries| == |Unscheduled(tasks)| > 0
    ensures v.Entries? ==> forall i :: 0 <= i < |v.entries| ==>
              v.entries[i].id == Unscheduled(tasks)[i].id && v.entries[i].title == Unscheduled(tasks)[i].title
              && v.entries[i].color == UseTasks.AutoColorOf(Unscheduled(tasks)[i])
  {
    var u := Unscheduled(tasks);
    if |u| == 0 then
      Placeholder
    else
      assert u[0] in u;
      Entries(seq(|u|, i requires 0 <= i < |u| => EntryOf(u[i])))
  }

  /** A header shows the colour the task is stored with whenever that
      colour is settled. */
  lemma EntryColorSettled(t: UseTasks.Task)
    requires UseTasks.ColorSettled(t)
    ensures Some(EntryOf(t).color) == t.titleColor
  {
  }

  /** What a click asks the editor to open: a task id and a start time. */
  datatype OpenRequest = OpenRequest(taskId: Option<string>, startTime: Option<DateUtils.Timestamp>)

  /** A click on an entry: `onTaskClick(task.id, null)`. */
  function EntryClick(e: Entry): OpenRequest {
    OpenRequest(Some(e.id), None)
  }

  /** The add button: `onNewTask(null, null)`. */
  function AddClick(): OpenRequest {
    OpenRequest(None, None)
  }

  /** The form the editor opens with for a request: `taskId ? getTask(taskId)
      : null`, then the form defaults. */
  function OpenedForm(tasks: seq<UseTasks.Task>, r: OpenRequest): TaskModal.FormData {
    var task := if TruthyString(r.taskId) then UseTasks.Lookup(tasks, r.taskId.value) else None;
    TaskModal.InitialForm(task, r.startTime)
  }

  /** Clicking an entry opens the editor on that very task, still without a
      start time; the add button opens a blank, unscheduled form. */
  lemma ClickOpensTask(tasks: seq<UseTasks.Task>, i: int)
    requires UseTasks.UniqueIds(tasks) && SidebarView(tasks).Entries?
    requires 0 <= i < |SidebarView(tasks).entries| && SidebarView(tasks).entries[i].id != ""
    ensures var t := Unscheduled(tasks)[i];
            OpenedForm(tasks, EntryClick(SidebarView(tasks).entries[i]))
            == TaskModal.InitialForm(Some(t), None)
            && OpenedForm(tasks, EntryClick(SidebarView(tasks).entries[i])).startTime.None?
    ensures OpenedForm(tasks, AddClick()) == TaskModal.FormData("", "", "", None, 30, "", "", false)
  {
    var u := Unscheduled(tasks);
    var t := u[i];
    assert t in u;
    var k :| 0 <= k < |tasks| && tasks[k] == t;
    UseTasks.LookupMeaning(tasks, t.id);
  }
}
