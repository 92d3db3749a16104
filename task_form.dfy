/**
  The task dialog's state and handlers: the fields it edits, its inline
  error, the delete confirmation, and the submit check that normalises the
  input before it reaches the board.
 */
module Form {
  import opened TaskTypes
  import opened JsString
  import opened TaskList

  /**
    The submit check: the trimmed title must be non-empty and at most 500
    code units; the description is trimmed and dropped when that leaves it
    empty; an empty deadline is dropped.
   */
  function SubmitData(title: string, description: string, deadline: string, columnId: ColumnId)
    : (r: Result<CreateTaskInput, ValidationError>)
    ensures r.Err? <==> AllWhitespace(title) || Utf16Length(Trim(title)) > MAX_TITLE_LENGTH
    ensures r.Ok? ==> WellFormedTitle(r.value.title) && r.value.columnId == columnId
  {
    TrimIdempotent(title);
    var trimmedTitle := Trim(title);
    if trimmedTitle == "" then Err(TitleRequired)
    else if Utf16Length(trimmedTitle) > MAX_TITLE_LENGTH then Err(TitleTooLong)
    else
      Ok(CreateTaskInput(
        trimmedTitle,
        if Trim(description) == "" then None else Some(Trim(description)),
        if deadline == "" then None else Some(deadline),
        columnId))
  }

  /**
    The submit check fails with "Title is required" exactly on a blank title,
    with the length error exactly on a title whose TRIMMED form exceeds 500
    code units, and otherwise hands on a well-formed title, a description that
    is absent or trimmed and non-blank, the deadline unless it is empty, and
    the column.
   */
  lemma SubmitDataSpec(title: string, description: string, deadline: string, columnId: ColumnId)
    ensures var r := SubmitData(title, description, deadline, columnId);
      (r == Err(TitleRequired) <==> AllWhitespace(title))
      && (r == Err(TitleTooLong) <==> !AllWhitespace(title) && Utf16Length(Trim(title)) > MAX_TITLE_LENGTH)
      && (r.Ok? ==>
            r.value.title == Trim(title) && WellFormedTitle(r.value.title)
            && (r.value.description.None? <==> AllWhitespace(description))
            && (r.value.description.Some? ==> r.value.description.value == Trim(description)
                                              && WellFormedDescription(r.value.description.value))
            && (r.value.deadline.None? <==> deadline == "")
            && (r.value.deadline.Some? ==> r.value.deadline.value == deadline)
            && r.value.columnId == columnId)
  {
    TrimIdempotent(title);
    TrimIdempotent(description);
  }

  /** A description the form hands on is non-empty and already trimmed. */
  predicate WellFormedDescription(d: string)
  {
    d != "" && Trim(d) == d
  }

  /**
    Whatever the form hands on also passes the store's checks, whether the
    board creates a task from it or updates one with its title.
   */
  lemma SubmittedTitlePassesStore(title: string, description: string, deadline: string, columnId: ColumnId)
    requires SubmitData(title, description, deadline, columnId).Ok?
    ensures CheckTitle(SubmitData(title, description, deadline, columnId).value.title) == None
  {
    TrimIdempotent(title);
  }

  /**
    The form's check is on the trimmed title while the store's is on the
    title as given: a title padded past 500 code units passes the form, which
    then hands on the trimmed title, and fails the store if given directly.
   */
  lemma PaddedTitlePassesForm()
    ensures var padded := seq(500, _ => 'a') + " ";
      SubmitData(padded, "", "", Tasks).Ok?
      && SubmitData(padded, "", "", Tasks).value.title == seq(500, _ => 'a')
      && CheckTitle(padded) == Some(TitleTooLong)
  {
    UntrimmedLengthRejected();
    assert Trim("") == "";
  }

  class TaskForm {
    var title: string
    var description: string
    var deadline: string
    var error: Option<string>
    var showDeleteConfirm: bool

    /** The component's initial state: empty fields, no error, no confirmation. */
    constructor ()
      ensures title == "" && description == "" && deadline == ""
      ensures error == None && !showDeleteConfirm
    {
      title, description, deadline := "", "", "";
      error := None;
      showDeleteConfirm := false;
    }

    /**
      The effect on `[open, task]`: on opening, copy the edited task's title,
      description and deadline (absent ones as empty text) or blank the
      fields for a new task, clear the error and hide the confirmation.
     */
    method OnOpen(open: bool, task: Option<Task>)
      modifies this
      ensures !open ==> title == old(title) && description == old(description) && deadline == old(deadline)
                        && error == old(error) && showDeleteConfirm == old(showDeleteConfirm)
      ensures open && task.Some? ==>
        title == task.value.title && description == OrEmpty(task.value.description)
        && deadline == OrEmpty(task.value.deadline)
      ensures open && task.None? ==> title == "" && description == "" && deadline == ""
      ensures open ==> error == None && !showDeleteConfirm
    {
      if open {
        if task.Some? {
          title := task.value.title;
          description := OrEmpty(task.value.description);
          deadline := OrEmpty(task.value.deadline);
        } else {
          title := "";
          description := "";
          deadline := "";
        }
        error := None;
        showDeleteConfirm := false;
      }
    }

    /** Typing in the title field replaces the title and clears the error. */
    method ChangeTitle(value: string)
      modifies this`title, this`error
      ensures title == value && error == None
    {
      title := value;
      error := None;
    }

    /** Typing in the description field. */
    method ChangeDescription(value: string)
      modifies this`description
      ensures description == value
    {
      description := value;
    }

    /** Picking a deadline; clearing the date input gives empty text. */
    method ChangeDeadline(value: string)
      modifies this`deadline
      ensures deadline == value
    {
      deadline := value;
    }

    /**
      `handleSubmit`: on a failed check, show its message and hand nothing on;
      otherwise hand on the normalised input and leave the error as it was.
     */
    method HandleSubmit(columnId: ColumnId) returns (submitted: Option<CreateTaskInput>)
      modifies this`error
      ensures var r := SubmitData(title, description, deadline, columnId);
        (r.Err? ==> submitted == None && error == Some(Message(r.error)))
        && (r.Ok? ==> submitted == Some(r.value) && error == old(error))
    {
      var trimmedTitle := Trim(title);
      if trimmedTitle == "" {
        error := Some(Message(TitleRequired));
        return None;
      }
      if Utf16Length(trimmedTitle) > MAX_TITLE_LENGTH {
        error := Some(Message(TitleTooLong));
        return None;
      }
      var trimmedDescription := Trim(description);
      submitted := Some(CreateTaskInput(
        trimmedTitle,
        if trimmedDescription == "" then None else Some(trimmedDescription),
        if deadline == "" then None else Some(deadline),
        columnId));
    }

    /** The Delete button asks for confirmation. */
    method HandleDeleteClick()
      modifies this`showDeleteConfirm
      ensures showDeleteConfirm
    {
      showDeleteConfirm := true;
    }

    /**
      Confirming hides the confirmation and then calls `onDelete` when the
      board provided one; the result says whether it was called.
     */
    method HandleConfirmDelete(hasOnDelete: bool) returns (deleteCalled: bool)
      modifies this`showDeleteConfirm
      ensures !showDeleteConfirm && deleteCalled == hasOnDelete
    {
      showDeleteConfirm := false;
      deleteCalled := hasOnDelete;
    }
  }

  /** `x || ''` on an optional string. */
  function OrEmpty(x: Option<string>): (r: string)
    ensures r == "" <==> x.None? || x.value == ""
    ensures x.Some? ==> r == x.value
  {
    if x.Some? then x.value else ""
  }

  /**
    Opening the dialog on a stored task and submitting it unchanged hands on
    exactly that task's title, description, deadline and column, provided
    they are as the form itself would have stored them.
   */
  lemma ReopenedTaskResubmits(t: Task)
    requires WellFormedTitle(t.title)
    requires t.description.None? || WellFormedDescription(t.description.value)
    requires t.deadline != Some("")
    ensures SubmitData(t.title, OrEmpty(t.description), OrEmpty(t.deadline), t.columnId)
      == Ok(CreateTaskInput(t.title, t.description, t.deadline, t.columnId))
  {
    assert Trim("") == "" by {
      assert AllWhitespace("");
    }
  }
}
