/** The task store of the planner: an insertion-ordered list of tasks with
    `addTask`, `updateTask`, `deleteTask` and `getTask`, each keeping the two
    derived fields of a task, its `titleColor` and its `weekDate` (the ISO
    date of the Monday of the week its start time falls in). */
module UseTasks {
  import opened Js
  import Colors
  import DateUtils

  /** A stored task. A start time is kept as the local timestamp it denotes;
      `None` stands for both `null` and the empty string. */
  datatype Task = Task(
    id: string,
    title: string,
    notes: string,
    details: string,
    startTime: Option<DateUtils.Timestamp>,
    duration: int,
    category: Option<string>,
    titleColor: Option<string>,
    isDone: bool,
    weekDate: Option<string>)

  /** The argument of `addTask`: every property may be missing (`None`). */
  datatype TaskInput = TaskInput(
    title: Option<string>,
    notes: Option<string>,
    details: Option<string>,
    startTime: Option<DateUtils.Timestamp>,
    duration: Option<int>,
    category: Option<string>,
    titleColor: Option<string>,
    isDone: Option<bool>,
    weekDate: Option<string>)

  /** The argument of `updateTask`: the properties the update object has. */
  datatype TaskPatch = TaskPatch(
    title: Field<string>,
    notes: Field<string>,
    details: Field<string>,
    startTime: Field<Option<DateUtils.Timestamp>>,
    duration: Field<int>,
    category: Field<Option<string>>,
    titleColor: Field<Option<string>>,
    isDone: Field<bool>,
    weekDate: Field<Option<string>>)

  /** The colour the policy gives a task. */
  function AutoColorOf(t: Task): Colors.Color {
    Colors.AutoColor(t.isDone, t.category, t.titleColor)
  }

  /** The week key a start time calls for: the Monday's ISO date, or `null`
      when there is no start time. */
  function WeekKeyOf(startTime: Option<DateUtils.Timestamp>): Option<string> {
    match startTime
    case Some(t) => Some(DateUtils.WeekStartISO(t))
    case None => None
  }

  /** A task's `weekDate` agrees with its `startTime`. */
  predicate Consistent(t: Task) {
    t.weekDate == WeekKeyOf(t.startTime)
  }

  /** A task's `titleColor` is the colour the policy gives it. */
  predicate ColorSettled(t: Task) {
    t.titleColor == Some(AutoColorOf(t))
  }

  predicate UniqueIds(tasks: seq<Task>) {
    forall i, j :: 0 <= i < j < |tasks| ==> tasks[i].id != tasks[j].id
  }

  function Ids(tasks: seq<Task>): set<string> {
    set t | t in tasks :: t.id
  }

  // ---------------------------------------------------------------------
  // addTask

  /** The record `addTask` builds from its argument before the two
      adjustments: each missing or falsy property takes its default. */
  function Defaults(data: TaskInput, id: string): Task {
    Task(id, OrString(data.title, ""), OrString(data.notes, ""), OrString(data.details, ""),
         data.startTime, OrNumber(data.duration, 60), OrNull(data.category),
         OrNull(data.titleColor), data.isDone == Some(true), OrNull(data.weekDate))
  }

  /** The task `addTask(data)` appends under the id `id`. */
  function Created(data: TaskInput, id: string): (t: Task)
    ensures t.id == id
    ensures t.title == OrString(data.title, "") && t.notes == OrString(data.notes, "")
            && t.details == OrString(data.details, "")
    ensures t.startTime == data.startTime
    ensures t.duration == (if data.duration.Some? && data.duration.value != 0 then data.duration.value else 60)
    ensures t.category == (if TruthyString(data.category) then data.category else None)
    ensures t.isDone <==> data.isDone == Some(true)
    ensures TruthyString(data.titleColor) ==> t.titleColor == data.titleColor
    ensures !TruthyString(data.titleColor) ==> t.titleColor == Some(Colors.AutoColor(t.isDone, t.category, None))
    ensures TruthyString(data.weekDate) ==> t.weekDate == data.weekDate
    ensures !TruthyString(data.weekDate) ==> t.weekDate == WeekKeyOf(data.startTime)
  {
    var d := Defaults(data, id);
    var colored := if !TruthyString(d.titleColor)
                   then d.(titleColor := Some(AutoColorOf(d))) else d;
    if colored.startTime.Some? && !TruthyString(colored.weekDate)
    then colored.(weekDate := WeekKeyOf(colored.startTime)) else colored
  }

  /** A created task is consistent unless the caller forced a `weekDate`. */
  lemma CreatedConsistent(data: TaskInput, id: string)
    requires !TruthyString(data.weekDate)
    ensures Consistent(Created(data, id))
  {
  }

  /** A task created without a colour carries the policy's colour. */
  lemma CreatedColorSettled(data: TaskInput, id: string)
    requires !TruthyString(data.titleColor)
    ensures ColorSettled(Created(data, id))
  {
    var t := Created(data, id);
    Colors.AutoColorIdempotent(t.isDone, t.category, None);
  }

  // ---------------------------------------------------------------------
  // updateTask

  /** `{ ...task, ...updates }`. */
  function Merged(task: Task, updates: TaskPatch): (m: Task)
    ensures m.id == task.id
    ensures m.title == Merge(task.title, updates.title) && m.notes == Merge(task.notes, updates.notes)
    ensures m.details == Merge(task.details, updates.details)
    ensures m.startTime == Merge(task.startTime, updates.startTime)
    ensures m.duration == Merge(task.duration, updates.duration)
    ensures m.category == Merge(task.category, updates.category)
    ensures m.titleColor == Merge(task.titleColor, updates.titleColor)
    ensures m.isDone == Merge(task.isDone, updates.isDone)
    ensures m.weekDate == Merge(task.weekDate, updates.weekDate)
  {
    Task(task.id, Merge(task.title, updates.title), Merge(task.notes, updates.notes),
         Merge(task.details, updates.details), Merge(task.startTime, updates.startTime),
         Merge(task.duration, updates.duration), Merge(task.category, updates.category),
         Merge(task.titleColor, updates.titleColor), Merge(task.isDone, updates.isDone),
         Merge(task.weekDate, updates.weekDate))
  }

  /** The new version of the task `updateTask` changes: the merge, its
      colour recomputed, and its week key recomputed when the update names a
      start time. */
  function Updated(task: Task, updates: TaskPatch): (u: Task)
    ensures u.id == task.id
    ensures u.title == Merge(task.title, updates.title) && u.notes == Merge(task.notes, updates.notes)
            && u.details == Merge(task.details, updates.details)
    ensures u.startTime == Merge(task.startTime, updates.startTime)
    ensures u.duration == Merge(task.duration, updates.duration)
    ensures u.category == Merge(task.category, updates.category)
    ensures u.isDone == Merge(task.isDone, updates.isDone)
    ensures u.titleColor == Some(Colors.AutoColor(u.isDone, u.category, Merge(task.titleColor, updates.titleColor)))
    ensures updates.startTime.Present? ==> u.weekDate == WeekKeyOf(updates.startTime.value)
    ensures updates.startTime.Absent? ==> u.weekDate == Merge(task.weekDate, updates.weekDate)
  {
    var m := Merged(task, updates);
    var colored := m.(titleColor := Some(AutoColorOf(m)));
    match updates.startTime
    case Present(s) => colored.(weekDate := WeekKeyOf(s))
    case Absent => colored
  }

  /** After an update the colour is the policy's colour, whatever colour
      the update or the old task carried. */
  lemma UpdatedColorSettled(task: Task, updates: TaskPatch)
    ensures ColorSettled(Updated(task, updates))
  {
    var m := Merged(task, updates);
    Colors.AutoColorIdempotent(m.isDone, m.category, m.titleColor);
  }

  /** An update keeps a task consistent unless it forces a `weekDate`
      without a start time, and one naming a start time always leaves it
      consistent. */
  lemma UpdatedConsistent(task: Task, updates: TaskPatch)
    requires updates.startTime.Present? || (Consistent(task) && updates.weekDate.Absent?)
    ensures Consistent(Updated(task, updates))
  {
  }

  /** `tasks.map(...)` of `updateTask`: the tasks with id `id` replaced by
      their updated versions, all others as they were. */
  function UpdatedAll(tasks: seq<Task>, id: string, updates: TaskPatch): (r: seq<Task>)
    ensures |r| == |tasks|
    ensures forall i :: 0 <= i < |tasks| && tasks[i].id != id ==> r[i] == tasks[i]
    ensures forall i :: 0 <= i < |tasks| && tasks[i].id == id ==> r[i] == Updated(tasks[i], updates)
  {
    seq(|tasks|, i requires 0 <= i < |tasks| =>
      if tasks[i].id == id then Updated(tasks[i], updates) else tasks[i])
  }

  /** Updating an id that is not in the list leaves the list as it was. */
  lemma UpdateUnknownId(tasks: seq<Task>, id: string, updates: TaskPatch)
    requires id !in Ids(tasks)
    ensures UpdatedAll(tasks, id, updates) == tasks
  {
    var r := UpdatedAll(tasks, id, updates);
    forall i | 0 <= i < |tasks|
      ensures r[i] == tasks[i]
    {
      assert tasks[i] in tasks;
    }
  }

  /** An update keeps every id in its position. */
  lemma UpdateKeepsIds(tasks: seq<Task>, id: string, updates: TaskPatch)
    ensures var r := UpdatedAll(tasks, id, updates);
            forall i :: 0 <= i < |tasks| ==> r[i].id == tasks[i].id
  {
  }

  // ---------------------------------------------------------------------
  // deleteTask and getTask

  /** `tasks.filter(task => task.id !== id)`. */
  function Removed(tasks: seq<Task>, id: string): (r: seq<Task>)
    ensures |r| <= |tasks| && id !in Ids(r)
  {
    Filter(tasks, (t: Task) => t.id != id)
  }

  /** Deleting keeps exactly the tasks with another id. */
  lemma RemovedMembers(tasks: seq<Task>, id: string)
    ensures forall t :: t in Removed(tasks, id) <==> t in tasks && t.id != id
  {
  }

  /** Deleting keeps the relative order of the remaining tasks: it works
      piece by piece on any split of the list. */
  lemma RemovedConcat(a: seq<Task>, b: seq<Task>, id: string)
    ensures Removed(a + b, id) == Removed(a, id) + Removed(b, id)
  {
    FilterConcat(a, b, (t: Task) => t.id != id);
  }

  /** Deleting an id that is not in the list changes nothing. */
  lemma RemoveUnknownId(tasks: seq<Task>, id: string)
    requires id !in Ids(tasks)
    ensures Removed(tasks, id) == tasks
  {
    FilterAllPass(tasks, (t: Task) => t.id != id);
  }

  /** With unique ids, deleting the task at position k cuts exactly that
      task out of the list. */
  lemma RemoveAt(tasks: seq<Task>, k: int)
    requires UniqueIds(tasks) && 0 <= k < |tasks|
    ensures Removed(tasks, tasks[k].id) == tasks[..k] + tasks[k + 1..]
  {
    assert tasks == tasks[..k] + [tasks[k]] + tasks[k + 1..];
    OthersDiffer(tasks, k);
    RemovedMiddle(tasks[..k], tasks[k], tasks[k + 1..]);
  }

  lemma RemovedMiddle(front: seq<Task>, t: Task, back: seq<Task>)
    requires t.id !in Ids(front) && t.id !in Ids(back)
    ensures Removed(front + [t] + back, t.id) == front + back
  {
    var id := t.id;
    calc {
      Removed(front + [t] + back, id);
      { RemovedConcat(front + [t], back, id); }
      Removed(front + [t], id) + Removed(back, id);
      { RemovedConcat(front, [t], id); RemoveUnknownId(back, id); }
      Removed(front, id) + Removed([t], id) + back;
      { RemoveUnknownId(front, id); RemovedDropped(t); }
      front + back;
    }
  }

  /** The one task of a singleton list is dropped by deleting its id. */
  lemma RemovedDropped(t: Task)
    ensures Removed([t], t.id) == []
  {
    assert [t][1..] == [];
  }

  /** With unique ids, no other task carries the id of the task at k. */
  lemma OthersDiffer(tasks: seq<Task>, k: int)
    requires UniqueIds(tasks) && 0 <= k < |tasks|
    ensures tasks[k].id !in Ids(tasks[..k]) && tasks[k].id !in Ids(tasks[k + 1..])
  {
    var front, back := tasks[..k], tasks[k + 1..];
    forall t | t in front ensures t.id != tasks[k].id {
      var i :| 0 <= i < k && front[i] == t;
      assert tasks[i] == t;
    }
    forall t | t in back ensures t.id != tasks[k].id {
      var i :| 0 <= i < |back| && back[i] == t;
      assert tasks[k + 1 + i] == t;
    }
  }

  /** `tasks.find(task => task.id === id)`. */
  function Lookup(tasks: seq<Task>, id: string): (r: Option<Task>)
    ensures r.None? <==> id !in Ids(tasks)
    ensures r.Some? ==> r.value in tasks && r.value.id == id
  {
    Find(tasks, (t: Task) => t.id == id)
  }

  /** With unique ids, looking an id up finds the one task carrying it, and
      nothing when no task does. */
  lemma LookupMeaning(tasks: seq<Task>, id: string)
    requires UniqueIds(tasks)
    ensures Lookup(tasks, id).None? <==> id !in Ids(tasks)
    ensures forall k :: 0 <= k < |tasks| && tasks[k].id == id ==> Lookup(tasks, id) == Some(tasks[k])
  {
    var r := Lookup(tasks, id);
    if r.None? {
      assert forall t :: t in tasks ==> t.id != id;
    } else {
      assert r.value in tasks && r.value.id == id;
    }
  }

  // ---------------------------------------------------------------------
  // What the operations promise together

  /** Every task's `weekDate` agrees with its `startTime`. */
  predicate AllConsistent(tasks: seq<Task>) {
    forall t :: t in tasks ==> Consistent(t)
  }

  /** Adding a task without a forced `weekDate` keeps every week key right. */
  lemma AddKeepsConsistent(tasks: seq<Task>, data: TaskInput, id: string)
    requires AllConsistent(tasks) && !TruthyString(data.weekDate)
    ensures AllConsistent(tasks + [Created(data, id)])
  {
    CreatedConsistent(data, id);
  }

  /** An update that does not force a `weekDate` keeps every week key
      right. */
  lemma UpdateKeepsConsistent(tasks: seq<Task>, id: string, updates: TaskPatch)
    requires AllConsistent(tasks) && updates.weekDate.Absent?
    ensures AllConsistent(UpdatedAll(tasks, id, updates))
  {
    var r := UpdatedAll(tasks, id, updates);
    forall t | t in r ensures Consistent(t) {
      var i :| 0 <= i < |r| && r[i] == t;
      assert tasks[i] in tasks;
      if tasks[i].id == id {
        UpdatedConsistent(tasks[i], updates);
      }
    }
  }

  /** Deleting keeps every week key right. */
  lemma RemoveKeepsConsistent(tasks: seq<Task>, id: string)
    requires AllConsistent(tasks)
    ensures AllConsistent(Removed(tasks, id))
  {
  }

  /** After `addTask`, looking the new id up finds the new task, and every
      other id finds what it found before. */
  lemma LookupAfterAdd(tasks: seq<Task>, t: Task, other: string)
    requires t.id !in Ids(tasks)
    ensures Lookup(tasks + [t], t.id) == Some(t)
    ensures other != t.id ==> Lookup(tasks + [t], other) == Lookup(tasks, other)
  {
    var r := tasks + [t];
    assert r[|tasks|] == t;
    forall k | 0 <= k < |tasks| ensures tasks[k].id != t.id {
      assert tasks[k] in tasks;
    }
    FindIndexAppend(tasks, t, (u: Task) => u.id == t.id);
    FindIndexAppend(tasks, t, (u: Task) => u.id == other);
  }

  /** After `deleteTask(id)` nothing carries the id. */
  lemma LookupAfterDelete(tasks: seq<Task>, id: string)
    ensures Lookup(Removed(tasks, id), id).None?
  {
    RemovedMembers(tasks, id);
  }

  /** After `updateTask(id, updates)` the id finds the updated version of
      the task it found before. */
  lemma LookupAfterUpdate(tasks: seq<Task>, id: string, updates: TaskPatch)
    requires UniqueIds(tasks) && id in Ids(tasks)
    ensures var r := UpdatedAll(tasks, id, updates);
            Lookup(tasks, id).Some? && Lookup(r, id) == Some(Updated(Lookup(tasks, id).value, updates))
  {
    var r := UpdatedAll(tasks, id, updates);
    var k :| 0 <= k < |tasks| && tasks[k].id == id;
    LookupMeaning(tasks, id);
    UpdateKeepsIds(tasks, id, updates);
    UpdatedUnique(tasks, id, updates);
    assert r[k].id == id;
    LookupMeaning(r, id);
  }

  lemma UpdatedUnique(tasks: seq<Task>, id: string, updates: TaskPatch)
    requires UniqueIds(tasks)
    ensures UniqueIds(UpdatedAll(tasks, id, updates))
  {
    UpdateKeepsIds(tasks, id, updates);
  }

  // ---------------------------------------------------------------------
  // The store

  /** The `tasks` state of the hook and the list last handed to
      `saveTasks`. */
  class TaskStore {
    var tasks: seq<Task>
    ghost var saved: seq<Task>

    /** Ids stay unique: `addTask` only appends a fresh id and neither
        `updateTask` nor `deleteTask` changes an id. */
    predicate Valid()
      reads this
    {
      UniqueIds(tasks)
    }

    /** The state after the mount effect has loaded the stored list. */
    constructor (loaded: seq<Task>)
      requires UniqueIds(loaded)
      ensures Valid()
      ensures tasks == loaded && saved == loaded
    {
      tasks := loaded;
      saved := loaded;
    }

    /** `addTask(data)`: builds the task under the fresh id, fills its colour
        and its week key, appends it, saves, and returns its id. */
    method AddTask(data: TaskInput, freshId: string) returns (id: string)
      requires Valid() && freshId !in Ids(tasks)
      modifies this
      ensures Valid()
      ensures tasks == old(tasks) + [Created(data, freshId)] && saved == tasks
      ensures id == freshId
    {
      var newTask := Defaults(data, freshId);
      if !TruthyString(newTask.titleColor) {
        newTask := newTask.(titleColor := Some(AutoColorOf(newTask)));
      }
      if newTask.startTime.Some? && !TruthyString(newTask.weekDate) {
        newTask := newTask.(weekDate := WeekKeyOf(newTask.startTime));
      }
      AppendFresh(tasks, newTask);
      tasks := tasks + [newTask];
      saved := tasks;
      id := newTask.id;
    }

    /** `updateTask(id, updates)`. */
    method UpdateTask(id: string, updates: TaskPatch)
      requires Valid()
      modifies this
      ensures Valid()
      ensures tasks == UpdatedAll(old(tasks), id, updates) && saved == tasks
    {
      UpdatedUnique(tasks, id, updates);
      tasks := UpdatedAll(tasks, id, updates);
      saved := tasks;
    }

    /** `deleteTask(id)`. */
    method DeleteTask(id: string)
      requires Valid()
      modifies this
      ensures Valid()
      ensures tasks == Removed(old(tasks), id) && saved == tasks
    {
      RemovedUnique(tasks, id);
      tasks := Removed(tasks, id);
      saved := tasks;
    }

    /** `getTask(id)`. */
    function GetTask(id: string): (r: Option<Task>)
      reads this
      requires Valid()
      ensures r.None? <==> id !in Ids(tasks)
      ensures r.Some? ==> r.value in tasks && r.value.id == id
    {
      LookupMeaning(tasks, id);
      Lookup(tasks, id)
    }
  }

  lemma AppendFresh(tasks: seq<Task>, t: Task)
    requires UniqueIds(tasks) && t.id !in Ids(tasks)
    ensures UniqueIds(tasks + [t])
  {
    var r := tasks + [t];
    forall i, j | 0 <= i < j < |r|
      ensures r[i].id != r[j].id
    {
      assert r[i] == tasks[i];
      if j < |tasks| {
        assert r[j] == tasks[j];
      } else {
        assert tasks[i] in tasks;
      }
    }
  }

  /** Removing tasks keeps the rest's ids unique. */
  lemma {:induction false} RemovedUnique(tasks: seq<Task>, id: string)
    requires UniqueIds(tasks)
    ensures UniqueIds(Removed(tasks, id))
  {
    if tasks != [] {
      var rest := tasks[1..];
      assert UniqueIds(rest) by {
        forall i, j | 0 <= i < j < |rest| ensures rest[i].id != rest[j].id {
          assert rest[i] == tasks[i + 1] && rest[j] == tasks[j + 1];
        }
      }
      RemovedUnique(rest, id);
      assert tasks == [tasks[0]] + rest;
      RemovedConcat([tasks[0]], rest, id);
      var tail := Removed(rest, id);
      assert tasks[0].id !in Ids(tail) by {
        forall t | t in tail ensures t.id != tasks[0].id {
          var j :| 0 <= j < |rest| && rest[j] == t;
          assert tasks[j + 1] == t;
        }
      }
      if tasks[0].id != id {
        assert Removed([tasks[0]], id) == [tasks[0]];
        AppendFront(tasks[0], tail);
      } else {
        assert Removed([tasks[0]], id) == [];
        assert Removed(tasks, id) == tail;
      }
    }
  }

  lemma AppendFront(t: Task, tasks: seq<Task>)
    requires UniqueIds(tasks) && t.id !in Ids(tasks)
    ensures UniqueIds([t] + tasks)
  {
    var r := [t] + tasks;
    forall i, j | 0 <= i < j < |r|
      ensures r[i].id != r[j].id
    {
      assert r[j] == tasks[j - 1];
      if i > 0 {
        assert r[i] == tasks[i - 1];
      } else {
        assert tasks[j - 1] in tasks;
      }
    }
  }
}
