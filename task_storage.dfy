/**
  The `useTaskStorage` hook as an object: its state (`tasks`, `isLoading`,
  `error`) is the fields of a TaskStore, and each operation updates them the
  way the hook's `setTasks` updater does. The generated id and the current
  time are passed in, as `id` and `now`.
 */
module TaskStorage {
  import opened TaskTypes
  import opened TaskList

  class TaskStore {
    var tasks: seq<Task>
    var isLoading: bool
    var error: Option<string>

    /** The hook's initial state: no tasks, still loading, no error. */
    constructor ()
      ensures tasks == [] && isLoading && error == None
    {
      tasks := [];
      isLoading := true;
      error := None;
    }

    /** The mount effect: install what the load yields (an empty list on any failure) and mark loading as done. */
    method Load(read: StorageRead)
      modifies this
      ensures tasks == LoadTasks(read) && !isLoading && error == None
      ensures tasks != [] ==> read.Item? && read.parse == ParsedTasks(tasks)
    {
      var loaded := LoadTasks(read);
      tasks := loaded;
      error := None;
      isLoading := false;
    }

    /**
      `addTask`: on a title that fails the checks the store is unchanged and
      the error is returned; otherwise the new task is appended and returned.
     */
    method AddTask(input: CreateTaskInput, id: string, now: string) returns (r: Result<Task, ValidationError>)
      requires id !in Ids(tasks)
      modifies this`tasks
      ensures r == CreateTask(input, id, now)
      ensures r.Err? ==> tasks == old(tasks)
      ensures r.Ok? ==> tasks == old(tasks) + [r.value] && r.value.id == id
      ensures UniqueIds(old(tasks)) ==> UniqueIds(tasks)
      ensures TitlesWellFormed(old(tasks)) ==> TitlesWellFormed(tasks)
    {
      var check := CheckTitle(input.title);
      if check.Some? {
        return Err(check.value);
      }
      var newTask := Task(id, JsString.Trim(input.title), TrimOptional(input.description),
                          input.deadline, input.columnId, now, now);
      tasks := tasks + [newTask];
      r := Ok(newTask);
      AppendPreservesIds(old(tasks), newTask);
      if TitlesWellFormed(old(tasks)) {
        AppendPreservesTitles(old(tasks), input, id, now);
      }
    }

    /**
      `updateTask`: a supplied title that fails the checks is an error and
      changes nothing; an absent id changes nothing and yields no task; a
      present id has its first task replaced by the merged one, which is
      returned.
     */
    method UpdateTask(id: string, updates: UpdateTaskInput, now: string) returns (r: Result<Option<Task>, ValidationError>)
      modifies this`tasks
      ensures var expected := UpdateList(old(tasks), id, updates, now);
        if expected.Err? then r == Err(expected.error) && tasks == old(tasks)
        else r == Ok(expected.value.task) && tasks == expected.value.tasks
      ensures UniqueIds(old(tasks)) ==> UniqueIds(tasks)
      ensures TitlesWellFormed(old(tasks)) ==> TitlesWellFormed(tasks)
    {
      var updatedTask: Option<Task> := None;
      var check := CheckUpdate(updates);
      if check.Some? {
        return Err(check.value);
      }
      var index := FindIndex(tasks, id);
      if index != -1 {
        var merged := MergeUpdate(tasks[index], updates, now);
        updatedTask := Some(merged);
        tasks := tasks[index := merged];
      }
      r := Ok(updatedTask);
      UpdatePreservesIds(old(tasks), id, updates, now);
      if TitlesWellFormed(old(tasks)) {
        UpdatePreservesTitles(old(tasks), id, updates, now);
      }
    }

    /**
      `deleteTask`: reports whether some task has the id and drops every task
      that has it, keeping the others in order.
     */
    method DeleteTask(id: string) returns (found: bool)
      modifies this`tasks
      ensures found <==> id in Ids(old(tasks))
      ensures tasks == RemoveTask(old(tasks), id)
      ensures !found ==> tasks == old(tasks)
      ensures UniqueIds(old(tasks)) ==> UniqueIds(tasks)
      ensures TitlesWellFormed(old(tasks)) ==> TitlesWellFormed(tasks)
    {
      found := false;
      var index := FindIndex(tasks, id);
      if index != -1 {
        found := true;
        tasks := RemoveTask(tasks, id);
      }
      if !found {
        RemoveAbsent(old(tasks), id);
      }
      if UniqueIds(old(tasks)) {
        RemovePreservesUniqueIds(old(tasks), id);
      }
      if TitlesWellFormed(old(tasks)) {
        RemovePreservesTitles(old(tasks), id);
      }
    }

    /** `moveTask`: `updateTask(id, {columnId: c})`, which never fails the title checks. */
    method MoveTask(id: string, c: ColumnId, now: string) returns (moved: Option<Task>)
      modifies this`tasks
      ensures var expected := MoveList(old(tasks), id, c, now);
        moved == expected.task && tasks == expected.tasks
      ensures moved.Some? <==> id in Ids(old(tasks))
      ensures UniqueIds(old(tasks)) ==> UniqueIds(tasks)
      ensures TitlesWellFormed(old(tasks)) ==> TitlesWellFormed(tasks)
    {
      var r := UpdateTask(id, ColumnOnly(c), now);
      moved := r.value;
    }

    /** `getTasksByColumn(c)`: the tasks of column `c`, in collection order. */
    function GetTasksByColumn(c: ColumnId): (r: seq<Task>)
      reads this
      ensures forall t :: t in r <==> t in tasks && t.columnId == c
      ensures |r| <= |tasks|
    {
      ByColumn(tasks, c)
    }
  }
}
