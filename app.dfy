/** The one rule of the application shell: a record saved from the editor
    updates the task the editor was opened on, or, when it was opened
    without one, is added as a new task. */
module App {
  import opened Js
  import Colors
  import UseTasks
  import TaskModal

  /** The saved record as the argument of `addTask`: every property is
      present and there is no `weekDate`. */
  function AsInput(r: TaskModal.SaveRecord): (i: UseTasks.TaskInput)
    ensures !TruthyString(i.weekDate)
    ensures forall id :: UseTasks.Created(i, id).title == r.title && UseTasks.Created(i, id).notes == r.notes
              && UseTasks.Created(i, id).details == r.details && UseTasks.Created(i, id).startTime == r.startTime
              && UseTasks.Created(i, id).isDone == r.isDone
              && UseTasks.Created(i, id).weekDate == UseTasks.WeekKeyOf(r.startTime)
              && (r.titleColor != "" ==> UseTasks.Created(i, id).titleColor == Some(r.titleColor))
  {
    UseTasks.TaskInput(Some(r.title), Some(r.notes), Some(r.details), r.startTime, Some(r.duration),
                       r.category, Some(r.titleColor), Some(r.isDone), None)
  }

  /** The saved record as the argument of `updateTask`: it has every
      property but `weekDate`. */
  function AsPatch(r: TaskModal.SaveRecord): (p: UseTasks.TaskPatch)
    ensures forall task :: UseTasks.Merged(task, p).id == task.id && UseTasks.Merged(task, p).weekDate == task.weekDate
              && UseTasks.Merged(task, p).title == r.title && UseTasks.Merged(task, p).notes == r.notes
              && UseTasks.Merged(task, p).details == r.details && UseTasks.Merged(task, p).startTime == r.startTime
              && UseTasks.Merged(task, p).duration == r.duration && UseTasks.Merged(task, p).category == r.category
              && UseTasks.Merged(task, p).titleColor == Some(r.titleColor) && UseTasks.Merged(task, p).isDone == r.isDone
  {
    UseTasks.TaskPatch(Present(r.title), Present(r.notes), Present(r.details), Present(r.startTime),
                       Present(r.duration), Present(r.category), Present(Some(r.titleColor)),
                       Present(r.isDone), Absent)
  }

  /** The collection after `onSave(record)`. */
  function Saved(tasks: seq<UseTasks.Task>, modalTaskId: Option<string>, record: TaskModal.SaveRecord,
                 freshId: string): seq<UseTasks.Task>
  {
    if TruthyString(modalTaskId) then UseTasks.UpdatedAll(tasks, modalTaskId.value, AsPatch(record))
    else tasks + [UseTasks.Created(AsInput(record), freshId)]
  }

  /** `onSave(taskData)`: the update or the addition, dispatched on the id
      the editor was opened with. */
  method OnSave(store: UseTasks.TaskStore, modalTaskId: Option<string>, record: TaskModal.SaveRecord,
                freshId: string)
    requires store.Valid()
    requires !TruthyString(modalTaskId) ==> freshId !in UseTasks.Ids(store.tasks)
    modifies store
    ensures store.Valid()
    ensures store.tasks == Saved(old(store.tasks), modalTaskId, record, freshId)
    ensures store.saved == store.tasks
  {
    if TruthyString(modalTaskId) {
      store.UpdateTask(modalTaskId.value, AsPatch(record));
    } else {
      var _ := store.AddTask(AsInput(record), freshId);
    }
  }

  /** Saving from the editor never breaks the agreement between the start
      times and the week keys: the editor never sends a `weekDate`. */
  lemma SaveKeepsConsistent(tasks: seq<UseTasks.Task>, modalTaskId: Option<string>,
                            record: TaskModal.SaveRecord, freshId: string)
    requires UseTasks.AllConsistent(tasks)
    ensures UseTasks.AllConsistent(Saved(tasks, modalTaskId, record, freshId))
  {
    if TruthyString(modalTaskId) {
      UseTasks.UpdateKeepsConsistent(tasks, modalTaskId.value, AsPatch(record));
    } else {
      UseTasks.AddKeepsConsistent(tasks, AsInput(record), freshId);
    }
  }

  /** Saving an edit replaces the edited task's fields with the record's,
      recomputes its colour and week key, and leaves the others alone. */
  lemma SaveUpdatesTask(tasks: seq<UseTasks.Task>, id: string, record: TaskModal.SaveRecord,
                        freshId: string, k: int)
    requires id != "" && 0 <= k < |tasks| && tasks[k].id == id
    ensures var r := Saved(tasks, Some(id), record, freshId);
            |r| == |tasks|
            && (forall i :: 0 <= i < |tasks| && tasks[i].id != id ==> r[i] == tasks[i])
            && r[k].id == id && r[k].title == record.title && r[k].notes == record.notes
            && r[k].details == record.details && r[k].startTime == record.startTime
            && r[k].duration == record.duration && r[k].category == record.category
            && r[k].isDone == record.isDone
            && UseTasks.Consistent(r[k]) && UseTasks.ColorSettled(r[k])
  {
    var r := Saved(tasks, Some(id), record, freshId);
    assert r[k] == UseTasks.Updated(tasks[k], AsPatch(record));
    UseTasks.UpdatedConsistent(tasks[k], AsPatch(record));
    UseTasks.UpdatedColorSettled(tasks[k], AsPatch(record));
  }

  /** Saving a new task appends one task under the fresh id with the
      record's fields, its week key and, when the record has one, its
      colour; nothing before it changes. */
  lemma SaveAddsTask(tasks: seq<UseTasks.Task>, record: TaskModal.SaveRecord, freshId: string)
    ensures var r := Saved(tasks, None, record, freshId);
            |r| == |tasks| + 1 && r[..|tasks|] == tasks
            && r[|tasks|].id == freshId && r[|tasks|].title == record.title
            && r[|tasks|].startTime == record.startTime && r[|tasks|].isDone == record.isDone
            && UseTasks.Consistent(r[|tasks|])
            && (record.titleColor != "" ==> r[|tasks|].titleColor == Some(record.titleColor))
  {
    var r := Saved(tasks, None, record, freshId);
    assert r[..|tasks|] == tasks;
    UseTasks.CreatedConsistent(AsInput(record), freshId);
  }

  /** A task added from a form whose colour was last set by the editor's
      colour effect (no colour picked by hand since) carries the colour the
      policy gives it. */
  lemma AddedFromEditorSettled(g: TaskModal.FormData, freshId: string)
    requires TaskModal.SaveOf(TaskModal.AutoColored(g)).Some?
    ensures var record := TaskModal.SaveOf(TaskModal.AutoColored(g)).value;
            UseTasks.ColorSettled(UseTasks.Created(AsInput(record), freshId))
  {
    var f := TaskModal.AutoColored(g);
    var record := TaskModal.SaveOf(f).value;
    var t := UseTasks.Created(AsInput(record), freshId);
    var c := f.titleColor;
    assert c == Colors.AutoColor(g.isDone, Some(g.category), Some(g.titleColor));
    Colors.AutoColorIdempotent(g.isDone, Some(g.category), Some(g.titleColor));
    assert t.titleColor == Some(c);
    SameUnknownCategory(t.isDone, t.category, Some(f.category), Some(c));
  }

  /** A colour picked by hand is stored as picked: picking a colour does not
      run the editor's colour effect, and `addTask` keeps a non-empty colour.
      On a done task, or one with a known category, that overrides the
      policy, and the stored colour is then not the policy's. */
  lemma HandPickedColorKept(f: TaskModal.FormData, color: string, freshId: string)
    requires color != ""
    requires TaskModal.SaveOf(TaskModal.AfterChange(f, TaskModal.TitleColor(color))).Some?
    ensures var record := TaskModal.SaveOf(TaskModal.AfterChange(f, TaskModal.TitleColor(color))).value;
            var t := UseTasks.Created(AsInput(record), freshId);
            t.titleColor == Some(color)
            && (f.isDone && color != Colors.Success ==> !UseTasks.ColorSettled(t))
            && (!f.isDone && Colors.IsKnownCategory(Some(f.category)) && color != Colors.CategoryColor(f.category)
                ==> !UseTasks.ColorSettled(t))
  {
    var g := TaskModal.AfterChange(f, TaskModal.TitleColor(color));
    assert g.titleColor == color && g.isDone == f.isDone && g.category == f.category;
    var record := TaskModal.SaveOf(g).value;
    assert record.titleColor == color && record.isDone == f.isDone;
    KnownCategoryNonEmpty(f.category);
    assert Colors.IsKnownCategory(Some(f.category)) ==> record.category == Some(f.category);
    StoredRecordColor(record, freshId);
    var t := UseTasks.Created(AsInput(record), freshId);
    PickedColorUnsettled(t, color);
  }

  /** The categories the policy knows are non-empty. */
  lemma KnownCategoryNonEmpty(category: string)
    ensures Colors.IsKnownCategory(Some(category)) ==> category != ""
  {
  }

  /** A stored colour other than the one the policy picks for a done task,
      or for a task with a known category, is not settled. */
  lemma PickedColorUnsettled(t: UseTasks.Task, color: string)
    requires t.titleColor == Some(color)
    ensures t.isDone && color != Colors.Success ==> !UseTasks.ColorSettled(t)
    ensures !t.isDone && Colors.IsKnownCategory(t.category) && color != Colors.CategoryColor(t.category.value)
            ==> !UseTasks.ColorSettled(t)
  {
  }

  /** The task `addTask` creates from a saved record keeps the record's
      non-empty colour, done flag and category. */
  lemma StoredRecordColor(record: TaskModal.SaveRecord, freshId: string)
    requires record.titleColor != ""
    ensures var t := UseTasks.Created(AsInput(record), freshId);
            t.titleColor == Some(record.titleColor) && t.isDone == record.isDone
            && (record.category.Some? && Colors.IsKnownCategory(record.category) ==> t.category == record.category)
  {
    var i := AsInput(record);
    assert TruthyString(i.titleColor);
  }

  /** The empty category and no category are alike to the colour policy. */
  lemma SameUnknownCategory(isDone: bool, a: Option<string>, b: Option<string>, color: Option<string>)
    requires a == b || (a == None && b == Some(""))
    ensures Colors.AutoColor(isDone, a, color) == Colors.AutoColor(isDone, b, color)
  {
  }
}
