/**
  The records of the FocusHelper board: columns, tasks and the inputs of the
  create and update operations. Optional TypeScript properties (`x?: T`)
  become `Option` fields; an update field that may also be `null` becomes a
  three-way `Patch`.
 */
module TaskTypes {

  datatype Option<+T> = None | Some(value: T)

  datatype Result<+T, +E> = Ok(value: T) | Err(error: E)

  /** The three fixed columns of the board. */
  datatype ColumnId = Tasks | Meetings | Backburner

  /** The string literal a column id is written as. */
  function ColumnKey(c: ColumnId): string
  {
    match c
    case Tasks => "tasks"
    case Meetings => "meetings"
    case Backburner => "backburner"
  }

  /** Reads a column id back from its string literal. */
  function ParseColumnId(s: string): (r: Option<ColumnId>)
    ensures r.Some? ==> s == ColumnKey(r.value)
  {
    if s == "tasks" then Some(Tasks)
    else if s == "meetings" then Some(Meetings)
    else if s == "backburner" then Some(Backburner)
    else None
  }

  /** The three literals are distinct and each reads back as its own column id. */
  lemma ColumnKeyRoundTrip(c: ColumnId)
    ensures ParseColumnId(ColumnKey(c)) == Some(c)
  {
  }

  /** A card on the board. Timestamps and ids are opaque strings. */
  datatype Task = Task(
    id: string,
    title: string,
    description: Option<string>,
    deadline: Option<string>,
    columnId: ColumnId,
    createdAt: string,
    updatedAt: string)

  datatype Column = Column(id: ColumnId, title: string)

  const COLUMNS: seq<Column> :=
    [Column(Tasks, "Tasks"), Column(Meetings, "Meetings"), Column(Backburner, "Backburner")]

  /** `cols.find(c => c.id === id)`: the first column with the given id. */
  function FindColumn(cols: seq<Column>, id: ColumnId): (r: Option<Column>)
    ensures r.Some? ==> r.value in cols && r.value.id == id
    ensures r.None? <==> forall col :: col in cols ==> col.id != id
  {
    if cols == [] then None
    else if cols[0].id == id then Some(cols[0])
    else FindColumn(cols[1..], id)
  }

  /** The dialog heading's column name: the column's title, or the raw id when the lookup fails or the title is empty. */
  function ColumnTitle(id: ColumnId): (r: string)
    ensures r != ""
    ensures FindColumn(COLUMNS, id).Some? && r == FindColumn(COLUMNS, id).value.title
  {
    match FindColumn(COLUMNS, id)
    case Some(col) => if col.title != "" then col.title else ColumnKey(id)
    case None => ColumnKey(id)
  }

  /** COLUMNS names every column id exactly once, in board order, so the lookup always succeeds. */
  lemma ColumnsListEachIdOnce(id: ColumnId)
    ensures |COLUMNS| == 3
    ensures COLUMNS[0].id == Tasks && COLUMNS[1].id == Meetings && COLUMNS[2].id == Backburner
    ensures forall i, j :: 0 <= i < j < |COLUMNS| ==> COLUMNS[i].id != COLUMNS[j].id
    ensures FindColumn(COLUMNS, id).Some?
  {
  }

  datatype CreateTaskInput = CreateTaskInput(
    title: string,
    description: Option<string>,
    deadline: Option<string>,
    columnId: ColumnId)

  /** An update field: omitted (`undefined`), cleared (`null`) or replaced by a value. */
  datatype Patch<+T> = Keep | Clear | Set(value: T)

  datatype UpdateTaskInput = UpdateTaskInput(
    title: Option<string>,
    description: Patch<string>,
    deadline: Patch<string>,
    columnId: Option<ColumnId>)

  /** The declared update type admits `null` only for the deadline. */
  predicate DeclaredUpdate(u: UpdateTaskInput)
  {
    !u.description.Clear?
  }
}
