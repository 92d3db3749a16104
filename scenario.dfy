/**
  A client of the store that walks one task through its life: created in
  Tasks, moved to Meetings, a blank retitle refused, then deleted. Every
  assertion follows from the store's contracts and the lemmas about them.
 */
module Scenario {
  import opened TaskTypes
  import opened JsString
  import opened TaskList
  import opened TaskStorage

  /** "Write report" passes the store's title checks. */
  lemma WriteReportIsValidTitle()
    ensures CheckTitle("Write report") == None
  {
    var title := "Write report";
    assert !IsWhitespace(title[0]);
    assert !AllWhitespace(title);
    assert Utf16Length(title) <= 2 * |title|;
  }

  /** Creates a task in Tasks on a fresh store: it is listed under Tasks and not under Meetings. */
  method CreateInTasks(title: string, id: string) returns (store: TaskStore, t: Task)
    requires CheckTitle(title) == None
    ensures fresh(store) && store.tasks == [t]
    ensures t.id == id && t.columnId == Tasks && t.title == Trim(title)
  {
    store := new TaskStore();
    var created := store.AddTask(CreateTaskInput(title, None, None, Tasks), id, "t1");
    t := created.value;
    assert store.tasks == [t] && t.id == id && t.columnId == Tasks;
    assert t in store.GetTasksByColumn(Tasks);
    assert t !in store.GetTasksByColumn(Meetings);
  }

  /** Moves the only stored task to Meetings; only its column and timestamp change. */
  method MoveToMeetings(store: TaskStore, t: Task) returns (m: Task)
    requires store.tasks == [t]
    modifies store
    ensures store.tasks == [m]
    ensures m.id == t.id && m.columnId == Meetings && m.title == t.title
  {
    IdsSingleton(t);
    ghost var before := store.tasks;
    var moved := store.MoveTask(t.id, Meetings, "t2");
    UpdateListSpec(before, t.id, ColumnOnly(Meetings), "t2");
    assert FindIndex(before, t.id) == 0;
    m := moved.value;
    assert store.tasks == [m];
    assert m in store.GetTasksByColumn(Meetings);
    assert t !in store.GetTasksByColumn(Tasks);
  }

  /** The whole life: create and move, a blank retitle refused without effect, then the deletion. */
  method TaskLifecycle(title: string, id: string)
    requires CheckTitle(title) == None
  {
    var store, t := CreateInTasks(title, id);
    var m := MoveToMeetings(store, t);

    var renamed := store.UpdateTask(id, UpdateTaskInput(Some(""), Keep, Keep, None), "t3");
    assert renamed == Err(TitleRequired);
    assert store.tasks == [m];

    IdsSingleton(m);
    var found := store.DeleteTask(id);
    assert found;
    RemovePresent([m], id);
    assert store.tasks == [];
    assert store.GetTasksByColumn(Meetings) == [];
  }

  /** The life of a task titled "Write report". */
  method WriteReportLifecycle(id: string)
  {
    WriteReportIsValidTitle();
    TaskLifecycle("Write report", id);
  }
}
