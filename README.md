# FocusHelper task board: a Dafny model

FocusHelper is a single-user kanban board with three fixed columns (Tasks,
Meetings, Backburner). This project models its core in Dafny:

- the task records and column schema (`TaskTypes`, task_types.dfy);
- the two JavaScript string operations the core depends on, `trim()` and
  `.length` in UTF-16 code units (`JsString`, js_string.dfy);
- the task store of the `useTaskStorage` hook. The pure logic of its
  updaters is in `TaskList` (task_list.dfy): title checks, the new task,
  `findIndex`, the tri-state field merge, `filter`, the column listing and
  the load fallback. The hook's state is the class `TaskStorage.TaskStore`
  (task_storage.dfy), whose methods update a `tasks: seq<Task>` field;
- the task dialog's submit check, field reset and delete confirmation
  (`Form`, task_form.dfy);
- the board controller: the `TaskBoard` component's four state fields and its
  handlers, including the drag-end rule (`Board`, task_board.dfy);
- a client of the store that walks one task through create, move, a refused
  retitle and delete (`Scenario`, scenario.dfy).

The store's invariants are unique ids and well-formed titles. A well-formed
title is non-empty, already trimmed, and at most 500 code units. The initial
load does no shape validation, so the model proves these invariants are
preserved by every operation rather than assuming them.

Generated ids (`crypto.randomUUID`) and timestamps
(`new Date().toISOString()`) are parameters: `id` and `now`. A drag carries
the card's task id and task; a drop target is a column id. The droppable
ids are the column ids (src/components/TaskColumn.tsx:16-19) and the
draggable ids are the task ids (src/components/TaskCard.tsx:59-62).

Some behaviours of the code are easy to misread; the model keeps them as
written:

- The store's 500-character check counts the title before trimming, while
  the form checks the trimmed title.
  `TaskList.UntrimmedLengthRejected` shows a title the store refuses even
  though it trims to 500 code units; `Form.PaddedTitlePassesForm` shows the
  form accepts it.
- `updateTask` clears the description on `null`
  (`TaskList.ClearDescriptionTouchesOnlyDescription`), although the declared
  `UpdateTaskInput` type admits `null` only for the deadline
  (`TaskTypes.DeclaredUpdate`).
- The edit dialog cannot clear a description or a deadline. An emptied field
  reaches `updateTask` as "omitted" and the stored value stays
  (`Board.EditKeepsColumnAndEmptiedFields`).
- A cancelled drag does not clear the dragged task. No cancel handler is
  passed to the drag context (src/components/TaskBoard.tsx:157-161), so the
  model has no cancel operation. `activeTask` is cleared only by
  `HandleDragEnd`, and a new drag overwrites it.
- A stored value is never checked for the task-list shape. The load falls
  back to an empty list only when reading or parsing throws, or when nothing
  is stored (`TaskList.LoadTasks`).
- Closing the dialog without submitting (`onOpenChange`) only clears the
  open flag. The edited task stays recorded until the next add, click,
  submit or delete (`Board.TaskBoard.HandleOpenChange`).

## Model

| member | source | states |
|---|---|---|
| `TaskTypes.ParseColumnId` | src/types/task.ts:1 | a column id is one of exactly three literals; any literal that parses is the literal of the id it parses to |
| `TaskTypes.ColumnKeyRoundTrip` | src/types/task.ts:1 | each of the three ids reads back from its literal |
| `TaskTypes.FindColumn` | src/components/TaskForm.tsx:49 | `COLUMNS.find` returns a listed column with the requested id, and returns nothing exactly when no listed column has that id |
| `TaskTypes.ColumnTitle` | src/components/TaskForm.tsx:49 | the dialog heading's column name is never empty and is the title of the listed column with that id, so the `|| columnId` fallback is never taken |
| `TaskTypes.ColumnsListEachIdOnce` | src/types/task.ts:18-22 | COLUMNS lists tasks, meetings and backburner once each, in that order, so the lookup by id always succeeds |
| `JsString.SkipLeading` | src/hooks/useTaskStorage.ts:67 | the start of the trimmed text: every character skipped is whitespace, and it stops at a non-whitespace character or the end |
| `JsString.SkipTrailing` | src/hooks/useTaskStorage.ts:67 | the end of the trimmed text: every character skipped is whitespace, it never passes the start, and a non-empty body ends in a non-whitespace character |
| `JsString.Trim` | src/hooks/useTaskStorage.ts:67 | `trim()` yields no longer a string with no whitespace at either end, and yields empty exactly on an all-whitespace input |
| `JsString.TrimSlice` | src/hooks/useTaskStorage.ts:77 | the trimmed string is the middle of a split of the input into whitespace, a body without surrounding whitespace, and whitespace |
| `JsString.EmptyBodyIffAllWhitespace` | src/hooks/useTaskStorage.ts:67 | such a split has an empty body exactly when the whole input is whitespace, which is when `trim()` yields the empty string |
| `JsString.TrimCharacterized` | src/hooks/useTaskStorage.ts:77 | every such split has the trimmed string as its body, so `trim()` is fixed by that description alone |
| `JsString.TrimIdempotent` | src/components/TaskForm.tsx:70 | trimming an already trimmed title changes nothing |
| `JsString.Utf16Length` | src/hooks/useTaskStorage.ts:70 | `.length` counts one or two code units per code point |
| `JsString.Utf16LengthConcat` | src/hooks/useTaskStorage.ts:70 | the code-unit length of a concatenation is the sum of the lengths |
| `JsString.TrimUtf16Length` | src/components/TaskForm.tsx:76 | trimming never increases the code-unit length |
| `TaskList.CheckTitle` | src/hooks/useTaskStorage.ts:67-72 | the store rejects a title as required exactly when it is all whitespace, as too long exactly when it is not and exceeds 500 code units before trimming, and accepts it exactly otherwise |
| `TaskList.CheckedTitleWellFormed` | src/hooks/useTaskStorage.ts:67-77 | a title that passes the checks is stored as a well-formed title |
| `TaskList.TrimOptional` | src/hooks/useTaskStorage.ts:78 | an optional description stays absent exactly when it was absent, and a present one is stored trimmed and no longer than given |
| `TaskList.UntrimmedLengthRejected` | src/hooks/useTaskStorage.ts:70 | 500 letters plus a space trims to 500 code units yet fails the store's length check |
| `TaskList.CreateTask` | src/hooks/useTaskStorage.ts:74-83 | addTask fails exactly when the title checks fail; a created task carries the given id and a well-formed title |
| `TaskList.CreateTaskSpec` | src/hooks/useTaskStorage.ts:66-87 | addTask fails exactly when the title checks fail, with their error; the new task has the given id, trimmed title and description, the given deadline and column, and `now` as both timestamps |
| `TaskList.FindIndex` | src/hooks/useTaskStorage.ts:100 | `findIndex` returns -1 exactly when no task has the id, and otherwise the first index holding it |
| `TaskList.Filter` | src/hooks/useTaskStorage.ts:135 | `filter` keeps exactly the elements that pass, and never lengthens the list |
| `TaskList.FilterAppend` | src/hooks/useTaskStorage.ts:145 | filtering distributes over concatenation, so it preserves relative order |
| `TaskList.ByColumn` | src/hooks/useTaskStorage.ts:145 | a task is listed under a column exactly when it is stored with that column id, and the listing is never longer than the collection |
| `TaskList.ColumnsPartition` | src/hooks/useTaskStorage.ts:144-146 | the three column listings partition the collection as a multiset: each task is listed under exactly one column, as often as it is stored |
| `TaskList.ColumnsTotalLength` | src/hooks/useTaskStorage.ts:144-146 | the three listings' lengths add up to the number of stored tasks |
| `TaskList.AppendedTaskListed` | src/hooks/useTaskStorage.ts:85 | an appended task ends its own column's listing and leaves the other listings unchanged |
| `TaskList.CountIdInColumn` | src/hooks/useTaskStorage.ts:144-146 | with unique ids, a column's listing holds a task once if the task is in that column and never otherwise |
| `TaskList.MergeUpdate` | src/hooks/useTaskStorage.ts:104-117 | the merged task keeps id and createdAt and takes `now` as updatedAt; an omitted field is kept, a supplied title or description is stored trimmed, `null` clears the description or the deadline, a supplied deadline or column is stored as given |
| `TaskList.CheckUpdate` | src/hooks/useTaskStorage.ts:92-97 | an update without a title always passes; one with a title passes exactly when the title passes the store's checks, and then its trimmed title is well formed |
| `TaskList.UpdateList` | src/hooks/useTaskStorage.ts:99-124 | updateTask fails exactly when the update's check fails; otherwise the length is kept and a task is returned exactly when the id is present |
| `TaskList.UpdateListSpec` | src/hooks/useTaskStorage.ts:89-125 | updateTask fails before any change exactly when a supplied title fails the checks; an absent id changes nothing and yields null; a present id replaces only its first occurrence, keeping the length, and yields the merged task |
| `TaskList.EmptyUpdateTouchesOnlyTimestamp` | src/hooks/useTaskStorage.ts:106-117 | an update with no fields changes only updatedAt |
| `TaskList.ClearDescriptionTouchesOnlyDescription` | src/hooks/useTaskStorage.ts:108-111 | `{description: null}` clears the description and changes nothing else but updatedAt |
| `TaskList.UpdatePreservesIds` | src/hooks/useTaskStorage.ts:119-121 | an update keeps every index's id, so the id set and id uniqueness are preserved |
| `TaskList.UpdatePreservesTitles` | src/hooks/useTaskStorage.ts:92-108 | an update that passes the checks keeps every stored title well formed |
| `TaskList.MoveList` | src/hooks/useTaskStorage.ts:140-142 | moveTask is updateTask with the column alone, and never fails validation |
| `TaskList.MoveLandsInColumn` | src/hooks/useTaskStorage.ts:140-146 | after a move to `c`, the task is listed under `c` exactly once and under no other column; only its column and updatedAt changed |
| `TaskList.RemoveTask` | src/hooks/useTaskStorage.ts:135 | a task stays after deleting an id exactly when it was stored and has another id, and the collection never grows |
| `TaskList.RemoveAbsent` | src/hooks/useTaskStorage.ts:130-133 | deleting an absent id leaves the collection identical |
| `TaskList.RemoveAt` | src/hooks/useTaskStorage.ts:134-135 | when no other task shares the id of the task at an index, deleting that id removes exactly that task and keeps the others in order |
| `TaskList.RemovePresent` | src/hooks/useTaskStorage.ts:134-135 | with unique ids, deleting a present id removes exactly the task at its index and keeps the rest in order |
| `TaskList.RemovePreservesTitles` | src/hooks/useTaskStorage.ts:135 | deleting keeps every title well formed |
| `TaskList.RemovePreservesUniqueIds` | src/hooks/useTaskStorage.ts:135 | deleting keeps ids unique |
| `TaskList.AppendPreservesIds` | src/hooks/useTaskStorage.ts:76 | appending a task with a fresh id adds exactly that id and keeps ids unique |
| `TaskList.AppendPreservesTitles` | src/hooks/useTaskStorage.ts:74-85 | appending a created task keeps every title well formed |
| `TaskList.LoadTasks` | src/hooks/useTaskStorage.ts:10-20 | the load yields the parsed list when a non-empty stored text parses, and an empty list on a read exception, a missing key, empty text or a parse exception |
| `TaskStorage.TaskStore.constructor` | src/hooks/useTaskStorage.ts:42-44 | the hook starts with no tasks, loading, and no error |
| `TaskStorage.TaskStore.Load` | src/hooks/useTaskStorage.ts:47-57 | the mount effect installs the loaded list, clears the error and ends loading |
| `TaskStorage.TaskStore.AddTask` | src/hooks/useTaskStorage.ts:66-87 | on a failed check the tasks are unchanged and the error is returned; otherwise exactly the new task is appended and returned; both invariants are preserved |
| `TaskStorage.TaskStore.UpdateTask` | src/hooks/useTaskStorage.ts:89-125 | the tasks and the result are those of the update function: unchanged on an error or an absent id, one slot replaced otherwise; both invariants are preserved |
| `TaskStorage.TaskStore.DeleteTask` | src/hooks/useTaskStorage.ts:127-138 | returns true exactly when some task has the id; the tasks become the filter without that id, and stay identical when it is absent; both invariants are preserved |
| `TaskStorage.TaskStore.MoveTask` | src/hooks/useTaskStorage.ts:140-142 | the tasks and result are those of the column-only update; a task is returned exactly when the id is present |
| `TaskStorage.TaskStore.GetTasksByColumn` | src/hooks/useTaskStorage.ts:144-146 | returns exactly the stored tasks with that column id |
| `Form.SubmitDataSpec` | src/components/TaskForm.tsx:67-87 | submit rejects a blank title as required and a title over 500 code units after trimming as too long; otherwise it hands on the trimmed title, the trimmed description or none if blank, the deadline or none if empty, and the column |
| `Form.SubmitData` | src/components/TaskForm.tsx:70-86 | submit fails exactly on a blank title or one over 500 code units after trimming; what it hands on has a well-formed title and the dialog's column |
| `Form.SubmittedTitlePassesStore` | src/components/TaskForm.tsx:70-86 | any title the form hands on passes the store's checks, so form-originated adds and edits never throw |
| `Form.PaddedTitlePassesForm` | src/components/TaskForm.tsx:76 | a title padded past 500 code units passes the form as its trimmed 500-unit form, though the store would refuse it untrimmed |
| `Form.OrEmpty` | src/components/TaskForm.tsx:55-56 | an optional field shows as empty text exactly when it is absent or empty, and as its value otherwise |
| `Form.ReopenedTaskResubmits` | src/components/TaskForm.tsx:51-87 | reopening the dialog on a task stored as the form stores it and submitting unchanged hands on exactly that task's title, description, deadline and column |
| `Form.TaskForm.constructor` | src/components/TaskForm.tsx:42-46 | the dialog starts with empty fields, no error and no confirmation |
| `Form.TaskForm.OnOpen` | src/components/TaskForm.tsx:51-65 | on opening, it copies the edited task's title, description and deadline (absent as empty), or blanks all three for a new task, and clears the error and the confirmation; when not open, it changes nothing |
| `Form.TaskForm.ChangeTitle` | src/components/TaskForm.tsx:121-124 | typing a title clears the displayed error |
| `Form.TaskForm.ChangeDescription` | src/components/TaskForm.tsx:146 | typing replaces the description |
| `Form.TaskForm.ChangeDeadline` | src/components/TaskForm.tsx:137 | picking a date replaces the deadline |
| `Form.TaskForm.HandleSubmit` | src/components/TaskForm.tsx:67-87 | on a failed check it shows that check's message and hands nothing on; otherwise it hands on the normalised input |
| `Form.TaskForm.HandleDeleteClick` | src/components/TaskForm.tsx:89-91 | the Delete button shows the confirmation |
| `Form.TaskForm.HandleConfirmDelete` | src/components/TaskForm.tsx:93-96 | confirming hides the confirmation and calls onDelete exactly when one was provided |
| `Board.EditKeepsColumnAndEmptiedFields` | src/components/TaskBoard.tsx:57-63 | an edit never changes any task's column or id, and an edit with description or deadline emptied keeps the stored one |
| `Board.EditUpdate` | src/components/TaskBoard.tsx:59-63 | the edit update sends the submitted title, never a clear and never a column, so it is of the declared update type |
| `Board.KeepIfAbsent` | src/components/TaskBoard.tsx:59-63 | an absent form field becomes "omitted" and a present one is sent as its value; it is never a clear |
| `Board.MovesOnDrop` | src/components/TaskBoard.tsx:91-100 | a drop on nothing, of a drag without a task, or on the card's own column never moves it |
| `Board.AfterDrop` | src/components/TaskBoard.tsx:91-100 | a drop keeps the length and every index's id, leaves every task with another id as it was, and changes nothing when it does not move |
| `Board.DropLandsInTarget` | src/components/TaskBoard.tsx:87-101 | dropping a stored card on a column leaves it listed once under that column and under no other; a drop on its own column or on nothing changes nothing |
| `Board.TaskBoard.constructor` | src/components/TaskBoard.tsx:21-25 | the board starts closed, on column tasks, editing and dragging nothing, with a fresh store that has no tasks, is loading and has no error, and a fresh dialog with empty fields, no error and no confirmation |
| `Board.TaskBoard.HandleAddTask` | src/components/TaskBoard.tsx:45-49 | opens the dialog in create mode for the given column |
| `Board.TaskBoard.HandleTaskClick` | src/components/TaskBoard.tsx:51-55 | opens the dialog in edit mode on the task, in its own column |
| `Board.TaskBoard.HandleOpenChange` | src/components/TaskBoard.tsx:191 | the dialog's open-change callback sets only the open flag |
| `Board.TaskBoard.HandleFormSubmit` | src/components/TaskBoard.tsx:57-69 | in edit mode it applies the title, description and deadline update to the edited task; in create mode it adds the data; on success the dialog closes and nothing is edited; a store error leaves the board as it was |
| `Board.TaskBoard.HandleDelete` | src/components/TaskBoard.tsx:71-77 | deletes the edited task and closes the dialog; with no edited task the store and the open flag are unchanged |
| `Board.TaskBoard.HandleDragStart` | src/components/TaskBoard.tsx:79-85 | records the dragged task only when the drag carries one |
| `Board.TaskBoard.HandleDragEnd` | src/components/TaskBoard.tsx:87-101 | always clears the dragged task; moves the task only when there is a drop column different from the card's captured column, and otherwise leaves the store unchanged |
| `Board.TaskBoard.AddTaskClicked` | src/components/TaskBoard.tsx:189-195 | clicking add on a column opens a blank dialog without error or confirmation; the dragged task is untouched |
| `Board.TaskBoard.TaskClicked` | src/components/TaskBoard.tsx:189-195 | clicking a card opens the dialog on that task's title, description and deadline; the dragged task is untouched |
| `Board.TaskBoard.SubmitClicked` | src/components/TaskBoard.tsx:192 | a submit through the form never makes the store throw; when the form's check passes, the edited task receives the edit update or the new task is appended, and the dialog closes; when it fails, the check's message is shown and the store and dialog are unchanged; the store's loading flag and error stay as they were |
| `Board.TaskBoard.ConfirmDeleteClicked` | src/components/TaskBoard.tsx:193 | confirming a deletion hides the confirmation, deletes the edited task and closes the dialog; with no edited task the store and the open flag are unchanged; nothing is edited afterwards, and the column, drag and form fields stay; the store's loading flag and error stay as they were |
| `Scenario.CreateInTasks` | src/hooks/useTaskStorage.ts:66-87 | adding a task with a valid title to an empty store stores exactly that task, in Tasks, with the trimmed title |
| `Scenario.MoveToMeetings` | src/hooks/useTaskStorage.ts:140-142 | moving the only stored task to Meetings keeps its id and title and changes its column |

## Left out

- Rendering, styling and dialog chrome: `TaskCard`, `TaskColumn`, `App` and
  the JSX of the two components. The Delete button is rendered only while a
  task is edited and `onDelete` is given; the board gives `onDelete` only
  while editing, which `Board.TaskBoard.ConfirmDeleteClicked` reflects.
- The drag library: sensors, activation constraints, collision detection and
  the drag overlay. The model receives the outcome: a drop column or none.
- Screen-reader announcement strings: they are UI text.
- Persistence writes: `saveTasksToStorage` and the save effect gated by
  `isLoading`. They depend on React's effect scheduling and on
  `localStorage`. Serialisation round trips are therefore not modelled.
- The load effect's own `catch` (`setError('Failed to load tasks')`) is
  unreachable, because `loadTasksFromStorage` catches every failure itself.
  The model's `Load` always clears the error.
- `TaskList.LoadTasks`: a parsed document is modelled as a task list. The
  code passes through whatever `JSON.parse` returns without checking its
  shape, and other shapes are outside the model.
- React's deferred state updaters and batching: each updater runs at once,
  so `updateTask` and `deleteTask` return what the updater computed.
- Timestamp ordering: `updatedAt` is assigned `now` and no order between
  timestamps is claimed. Deadlines are opaque strings; their date format is
  never checked.
- JavaScript strings are UTF-16 and may hold lone surrogates; the model's
  strings are sequences of Unicode scalar values.
- `TaskStorage.TaskStore.AddTask`: requires that `id` is not already in use,
  standing for the uniqueness of `crypto.randomUUID`.
- `Board.TaskBoard.HandleFormSubmit`: requires that `id` is not already in use, for the same reason.
- `Board.TaskBoard.SubmitClicked`: requires that `id` is not already in use, for the same reason.
