/**
  The board controller: the transient state of the `TaskBoard` component
  (whether the dialog is open, the column a new task goes to, the task being
  edited, the task being dragged) and its handlers, which drive the store.
  Drop targets are columns and dragged items are task cards, so a drop
  target is a column id and a drag carries a task id and the card's task.
 */
module Board {
  import opened TaskTypes
  import opened TaskList
  import opened TaskStorage
  import opened Form

  /** `undefined` for an absent optional field: in an update it means "keep". */
  function KeepIfAbsent(x: Option<string>): (p: Patch<string>)
    ensures !p.Clear?
    ensures p.Keep? <==> x.None?
    ensures p.Set? ==> p.value == x.value
  {
    if x.Some? then Set(x.value) else Keep
  }

  /** The update `handleFormSubmit` sends when editing: title, description and deadline, never the column. */
  function EditUpdate(data: CreateTaskInput): (u: UpdateTaskInput)
    ensures u.title == Some(data.title) && u.columnId.None?
    ensures DeclaredUpdate(u) && !u.deadline.Clear?
  {
    UpdateTaskInput(Some(data.title), KeepIfAbsent(data.description), KeepIfAbsent(data.deadline), None)
  }

  /**
    Editing never moves a task, and an edit whose description or deadline was
    emptied in the form keeps the stored one: the form cannot clear them.
   */
  lemma EditKeepsColumnAndEmptiedFields(ts: seq<Task>, id: string, data: CreateTaskInput, now: string)
    requires UpdateList(ts, id, EditUpdate(data), now).Ok?
    ensures var r := UpdateList(ts, id, EditUpdate(data), now).value.tasks;
      |r| == |ts|
      && (forall k :: 0 <= k < |ts| ==> r[k].columnId == ts[k].columnId && r[k].id == ts[k].id)
      && (data.description.None? ==> forall k :: 0 <= k < |ts| ==> r[k].description == ts[k].description)
      && (data.deadline.None? ==> forall k :: 0 <= k < |ts| ==> r[k].deadline == ts[k].deadline)
  {
    var i := FindIndex(ts, id);
    if i != -1 {
      var r := UpdateList(ts, id, EditUpdate(data), now).value.tasks;
      assert r == ts[i := MergeUpdate(ts[i], EditUpdate(data), now)];
    }
  }

  /** The drag-end rule: move only when dropped on a column other than the card's own. */
  predicate MovesOnDrop(dragged: Option<Task>, over: Option<ColumnId>)
    ensures over.None? || dragged.None? ==> !MovesOnDrop(dragged, over)
    ensures dragged.Some? && over == Some(dragged.value.columnId) ==> !MovesOnDrop(dragged, over)
  {
    over.Some? && dragged.Some? && dragged.value.columnId != over.value
  }

  /** The collection after a drop of the card `dragged` (task id `activeId`) on `over`. */
  function AfterDrop(ts: seq<Task>, activeId: string, dragged: Option<Task>, over: Option<ColumnId>, now: string): (r: seq<Task>)
    ensures |r| == |ts| && forall k :: 0 <= k < |ts| ==> r[k].id == ts[k].id
    ensures forall k :: 0 <= k < |ts| && ts[k].id != activeId ==> r[k] == ts[k]
    ensures !MovesOnDrop(dragged, over) ==> r == ts
  {
    if MovesOnDrop(dragged, over) then
      UpdatePreservesIds(ts, activeId, ColumnOnly(over.value), now);
      UpdateListSpec(ts, activeId, ColumnOnly(over.value), now);
      MoveList(ts, activeId, over.value, now).tasks
    else ts
  }

  /**
    Dropping a stored card on a column leaves it listed exactly once under
    that column and under no other, whether it moved there or was there
    already; a drop on its own column or on nothing changes nothing.
   */
  lemma DropLandsInTarget(ts: seq<Task>, t: Task, target: ColumnId, other: ColumnId, now: string)
    requires UniqueIds(ts) && t in ts && other != target
    ensures var r := AfterDrop(ts, t.id, Some(t), Some(target), now);
      CountId(ByColumn(r, target), t.id) == 1 && CountId(ByColumn(r, other), t.id) == 0
    ensures t.columnId == target ==> AfterDrop(ts, t.id, Some(t), Some(target), now) == ts
    ensures AfterDrop(ts, t.id, Some(t), None, now) == ts
  {
    assert t.id in Ids(ts);
    if t.columnId != target {
      MoveLandsInColumn(ts, t.id, target, now, other);
    } else {
      var i :| 0 <= i < |ts| && ts[i] == t;
      CountIdInColumn(ts, i, target);
      CountIdInColumn(ts, i, other);
    }
  }

  class TaskBoard {
    const store: TaskStore
    const form: TaskForm
    var isFormOpen: bool
    var selectedColumnId: ColumnId
    var editingTask: Option<Task>
    var activeTask: Option<Task>

    /** The component's initial state, with a fresh store (still loading) and a fresh form. */
    constructor ()
      ensures fresh(store) && fresh(form)
      ensures store.tasks == [] && store.isLoading
      ensures store.error == None
      ensures form.title == "" && form.description == "" && form.deadline == ""
      ensures form.error == None && !form.showDeleteConfirm
      ensures !isFormOpen && selectedColumnId == Tasks && editingTask == None && activeTask == None
    {
      store := new TaskStore();
      form := new TaskForm();
      isFormOpen := false;
      selectedColumnId := Tasks;
      editingTask := None;
      activeTask := None;
    }

    /** `handleAddTask(c)`: open the dialog to create a task in column `c`. */
    method HandleAddTask(c: ColumnId)
      modifies this
      ensures isFormOpen && selectedColumnId == c && editingTask == None
      ensures activeTask == old(activeTask)
    {
      selectedColumnId := c;
      editingTask := None;
      isFormOpen := true;
    }

    /** `handleTaskClick(t)`: open the dialog to edit `t`, in its own column. */
    method HandleTaskClick(t: Task)
      modifies this
      ensures isFormOpen && selectedColumnId == t.columnId && editingTask == Some(t)
      ensures activeTask == old(activeTask)
    {
      editingTask := Some(t);
      selectedColumnId := t.columnId;
      isFormOpen := true;
    }

    /** The dialog's `onOpenChange` (Cancel, Escape, outside click): only the open flag changes; the edited task stays recorded. */
    method HandleOpenChange(open: bool)
      modifies this`isFormOpen
      ensures isFormOpen == open
    {
      isFormOpen := open;
    }

    /**
      `handleFormSubmit(data)`: update the edited task's title, description
      and deadline, or create a task from `data`, then close the dialog. A
      store error propagates before the dialog closes, leaving it as it was.
     */
    method HandleFormSubmit(data: CreateTaskInput, id: string, now: string) returns (thrown: Option<ValidationError>)
      requires id !in Ids(store.tasks)
      modifies this, store
      ensures old(editingTask).Some? ==>
        var e := UpdateList(old(store.tasks), old(editingTask).value.id, EditUpdate(data), now);
        if e.Err? then thrown == Some(e.error) && store.tasks == old(store.tasks)
        else thrown == None && store.tasks == e.value.tasks
      ensures old(editingTask).None? ==>
        var c := CreateTask(data, id, now);
        if c.Err? then thrown == Some(c.error) && store.tasks == old(store.tasks)
        else thrown == None && store.tasks == old(store.tasks) + [c.value]
      ensures thrown.None? ==> !isFormOpen && editingTask == None
      ensures thrown.Some? ==> isFormOpen == old(isFormOpen) && editingTask == old(editingTask)
      ensures selectedColumnId == old(selectedColumnId) && activeTask == old(activeTask)
      ensures store.isLoading == old(store.isLoading) && store.error == old(store.error)
    {
      if editingTask.Some? {
        var r := store.UpdateTask(editingTask.value.id, EditUpdate(data), now);
        if r.Err? {
          return Some(r.error);
        }
      } else {
        var r := store.AddTask(data, id, now);
        if r.Err? {
          return Some(r.error);
        }
      }
      isFormOpen := false;
      editingTask := None;
      thrown := None;
    }

    /** `handleDelete`: delete the edited task and close the dialog; without an edited task, do nothing. */
    method HandleDelete()
      modifies this, store
      ensures old(editingTask).Some? ==>
        store.tasks == RemoveTask(old(store.tasks), old(editingTask).value.id)
        && !isFormOpen && editingTask == None
      ensures old(editingTask).None? ==>
        store.tasks == old(store.tasks) && isFormOpen == old(isFormOpen) && editingTask == None
      ensures selectedColumnId == old(selectedColumnId) && activeTask == old(activeTask)
      ensures store.isLoading == old(store.isLoading) && store.error == old(store.error)
    {
      if editingTask.Some? {
        var _ := store.DeleteTask(editingTask.value.id);
        isFormOpen := false;
        editingTask := None;
      }
    }

    /** `handleDragStart`: remember the dragged card's task, if the drag carries one. */
    method HandleDragStart(dragged: Option<Task>)
      modifies this`activeTask
      ensures activeTask == if dragged.Some? then dragged else old(activeTask)
    {
      if dragged.Some? {
        activeTask := dragged;
      }
    }

    /**
      `handleDragEnd`: always forget the dragged task; move the task with the
      drag's id only when there is a drop column and it differs from the
      column of the card's task as captured when the drag began.
     */
    method HandleDragEnd(activeId: string, dragged: Option<Task>, over: Option<ColumnId>, now: string)
      modifies this`activeTask, store
      ensures activeTask == None
      ensures store.tasks == AfterDrop(old(store.tasks), activeId, dragged, over, now)
      ensures !MovesOnDrop(dragged, over) ==> store.tasks == old(store.tasks)
      ensures UniqueIds(old(store.tasks)) ==> UniqueIds(store.tasks)
      ensures store.isLoading == old(store.isLoading) && store.error == old(store.error)
    {
      activeTask := None;
      if over.None? {
        return;
      }
      var taskId := activeId;
      var targetColumnId := over.value;
      if dragged.Some? && dragged.value.columnId != targetColumnId {
        var _ := store.MoveTask(taskId, targetColumnId, now);
      }
    }

    /** Clicking "Add task" on a column: the dialog opens with blank fields and no error. */
    method AddTaskClicked(c: ColumnId)
      modifies this, form
      ensures isFormOpen && selectedColumnId == c && editingTask == None
      ensures form.title == "" && form.description == "" && form.deadline == ""
      ensures form.error == None && !form.showDeleteConfirm
      ensures activeTask == old(activeTask)
    {
      HandleAddTask(c);
      form.OnOpen(isFormOpen, editingTask);
    }

    /** Clicking a card: the dialog opens on that task's title, description and deadline. */
    method TaskClicked(t: Task)
      modifies this, form
      ensures isFormOpen && selectedColumnId == t.columnId && editingTask == Some(t)
      ensures form.title == t.title && form.description == OrEmpty(t.description)
      ensures form.deadline == OrEmpty(t.deadline)
      ensures form.error == None && !form.showDeleteConfirm
      ensures activeTask == old(activeTask)
    {
      HandleTaskClick(t);
      form.OnOpen(isFormOpen, editingTask);
    }

    /**
      Submitting the dialog: the form's check runs first and whatever it hands
      on passes the store's checks, so the store never throws and the dialog
      closes; a failed form check keeps the dialog open and the store as it is.
     */
    method SubmitClicked(id: string, now: string) returns (thrown: Option<ValidationError>)
      requires id !in Ids(store.tasks)
      modifies this, store, form
      ensures thrown == None
      ensures var d := SubmitData(old(form.title), old(form.description), old(form.deadline), old(selectedColumnId));
        d.Err? ==>
          store.tasks == old(store.tasks) && isFormOpen == old(isFormOpen) && editingTask == old(editingTask)
          && form.error == Some(Message(d.error))
      ensures var d := SubmitData(old(form.title), old(form.description), old(form.deadline), old(selectedColumnId));
        d.Ok? ==> !isFormOpen && editingTask == None && form.error == old(form.error)
      ensures var d := SubmitData(old(form.title), old(form.description), old(form.deadline), old(selectedColumnId));
        d.Ok? && old(editingTask).Some? ==>
          var e := UpdateList(old(store.tasks), old(editingTask).value.id, EditUpdate(d.value), now);
          e.Ok? && store.tasks == e.value.tasks
      ensures var d := SubmitData(old(form.title), old(form.description), old(form.deadline), old(selectedColumnId));
        d.Ok? && old(editingTask).None? ==>
          var c := CreateTask(d.value, id, now);
          c.Ok? && store.tasks == old(store.tasks) + [c.value]
      ensures form.title == old(form.title) && form.description == old(form.description)
      ensures form.deadline == old(form.deadline) && form.showDeleteConfirm == old(form.showDeleteConfirm)
      ensures selectedColumnId == old(selectedColumnId) && activeTask == old(activeTask)
      ensures store.isLoading == old(store.isLoading) && store.error == old(store.error)
    {
      var submitted := form.HandleSubmit(selectedColumnId);
      thrown := None;
      if submitted.Some? {
        SubmittedTitlePassesStore(form.title, form.description, form.deadline, selectedColumnId);
        thrown := HandleFormSubmit(submitted.value, id, now);
      }
    }

    /**
      Confirming the deletion: the confirmation closes and, since the board
      passes `onDelete` only while a task is edited, the edited task is deleted.
     */
    method ConfirmDeleteClicked()
      modifies this, store, form
      ensures !form.showDeleteConfirm
      ensures old(editingTask).Some? ==>
        store.tasks == RemoveTask(old(store.tasks), old(editingTask).value.id) && !isFormOpen && editingTask == None
      ensures old(editingTask).None? ==>
        store.tasks == old(store.tasks) && isFormOpen == old(isFormOpen) && editingTask == None
      ensures selectedColumnId == old(selectedColumnId) && activeTask == old(activeTask)
      ensures form.title == old(form.title) && form.description == old(form.description)
      ensures form.deadline == old(form.deadline) && form.error == old(form.error)
      ensures store.isLoading == old(store.isLoading) && store.error == old(store.error)
    {
      var deleteCalled := form.HandleConfirmDelete(editingTask.Some?);
      if deleteCalled {
        HandleDelete();
      }
    }
  }
}
