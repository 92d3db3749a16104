/**
  The pure part of the task store: the title checks, the task built by
  `addTask`, the field merge of `updateTask`, the `findIndex` and `filter`
  the updaters use, the column listing, and the fallback of the initial load.
  The store class in TaskStorage runs these on its `tasks` field.
 */
module TaskList {
  import opened TaskTypes
  import opened JsString

  const MAX_TITLE_LENGTH: nat := 500

  datatype ValidationError = TitleRequired | TitleTooLong

  /** The text of the `Error` the store throws and of the form's inline error. */
  function Message(e: ValidationError): string
  {
    match e
    case TitleRequired => "Title is required"
    case TitleTooLong => "Title must be 500 characters or less"
  }

  /**
    The store's title checks: blank after trimming, then more than 500 UTF-16
    code units counted on the title as given, before trimming.
   */
  function CheckTitle(title: string): (r: Option<ValidationError>)
    ensures r == Some(TitleRequired) <==> AllWhitespace(title)
    ensures r == Some(TitleTooLong) <==> !AllWhitespace(title) && Utf16Length(title) > MAX_TITLE_LENGTH
    ensures r == None <==> !AllWhitespace(title) && Utf16Length(title) <= MAX_TITLE_LENGTH
  {
    if title == "" || Trim(title) == "" then Some(TitleRequired)
    else if Utf16Length(title) > MAX_TITLE_LENGTH then Some(TitleTooLong)
    else None
  }

  /** A title as the store keeps it: non-empty, already trimmed, at most 500 code units. */
  predicate WellFormedTitle(s: string)
  {
    s != "" && Trim(s) == s && Utf16Length(s) <= MAX_TITLE_LENGTH
  }

  /** A title that passes the checks is stored trimmed, and its trimmed form is well formed. */
  lemma CheckedTitleWellFormed(title: string)
    requires CheckTitle(title) == None
    ensures WellFormedTitle(Trim(title))
  {
    TrimIdempotent(title);
    TrimUtf16Length(title);
  }

  /**
    The length check counts the untrimmed title: 500 letters followed by one
    space trim to 500 code units, yet the store refuses them as too long.
   */
  lemma UntrimmedLengthRejected()
    ensures var padded := seq(500, _ => 'a') + " ";
      Trim(padded) == seq(500, _ => 'a')
      && Utf16Length(Trim(padded)) == 500
      && CheckTitle(padded) == Some(TitleTooLong)
  {
    var body: string := seq(500, _ => 'a');
    var padded := body + " ";
    assert padded[..0] == [] && padded[500..] == " " && padded[0] == 'a' && padded[499] == 'a';
    TrimCharacterized(padded, 0, 500);
    assert padded[0..500] == body;
    Utf16LengthBmp(body);
    Utf16LengthBmp(padded);
  }

  // ---------------------------------------------------------------- addTask

  /** `description?.trim()`: an absent description stays absent. */
  function TrimOptional(d: Option<string>): (r: Option<string>)
    ensures r.None? <==> d.None?
    ensures r.Some? ==> Trim(r.value) == r.value && Utf16Length(r.value) <= Utf16Length(d.value)
  {
    if d.Some? then
      TrimIdempotent(d.value);
      TrimUtf16Length(d.value);
      Some(Trim(d.value))
    else None
  }

  /** The outcome of `addTask(input)` with the generated id and the current time `now`. */
  function CreateTask(input: CreateTaskInput, id: string, now: string): (r: Result<Task, ValidationError>)
    ensures r.Err? <==> CheckTitle(input.title).Some?
    ensures r.Ok? ==> r.value.id == id && WellFormedTitle(r.value.title)
  {
    match CheckTitle(input.title)
    case Some(e) => Err(e)
    case None =>
      CheckedTitleWellFormed(input.title);
      Ok(Task(id, Trim(input.title), TrimOptional(input.description), input.deadline,
              input.columnId, now, now))
  }

  /** addTask fails exactly when the title checks fail, with their error; otherwise the new task carries the trimmed input, the given id, and `now` as both timestamps. */
  lemma CreateTaskSpec(input: CreateTaskInput, id: string, now: string)
    ensures CreateTask(input, id, now).Err? <==> CheckTitle(input.title).Some?
    ensures CreateTask(input, id, now).Err? ==> CreateTask(input, id, now).error == CheckTitle(input.title).value
    ensures CreateTask(input, id, now).Ok? ==>
      var t := CreateTask(input, id, now).value;
      t.id == id && t.title == Trim(input.title) && WellFormedTitle(t.title)
      && t.description == TrimOptional(input.description)
      && t.deadline == input.deadline && t.columnId == input.columnId
      && t.createdAt == now && t.updatedAt == now
  {
    if CheckTitle(input.title) == None {
      CheckedTitleWellFormed(input.title);
    }
  }

  // ------------------------------------------------------ findIndex, filter

  function Ids(ts: seq<Task>): set<string>
  {
    set t | t in ts :: t.id
  }

  /** No two tasks share an id. */
  predicate UniqueIds(ts: seq<Task>)
  {
    forall i, j :: 0 <= i < j < |ts| ==> ts[i].id != ts[j].id
  }

  /** Every stored title is well formed. */
  predicate TitlesWellFormed(ts: seq<Task>)
  {
    forall k :: 0 <= k < |ts| ==> WellFormedTitle(ts[k].title)
  }

  /** `ts.findIndex(t => t.id === id)`: the first index holding the id, or -1. */
  function FindIndex(ts: seq<Task>, id: string): (i: int)
    ensures -1 <= i < |ts|
    ensures i == -1 <==> id !in Ids(ts)
    ensures 0 <= i ==> ts[i].id == id && forall j :: 0 <= j < i ==> ts[j].id != id
  {
    if ts == [] then -1
    else if ts[0].id == id then 0
    else
      var k := FindIndex(ts[1..], id);
      IdsCons(ts);
      if k == -1 then -1 else k + 1
  }

  lemma IdsCons(ts: seq<Task>)
    requires ts != []
    ensures Ids(ts) == {ts[0].id} + Ids(ts[1..])
  {
    assert ts == [ts[0]] + ts[1..];
  }

  lemma IdsSingleton(t: Task)
    ensures Ids([t]) == {t.id}
  {
    assert [t][0] == t;
  }

  /** `s.filter(p)`: the elements of `s` that satisfy `p`, in their order in `s`. */
  function Filter(s: seq<Task>, p: Task -> bool): (r: seq<Task>)
    ensures |r| <= |s|
    ensures forall x :: x in r <==> x in s && p(x)
  {
    if s == [] then []
    else (if p(s[0]) then [s[0]] else []) + Filter(s[1..], p)
  }

  /** Filtering distributes over concatenation, so it keeps the relative order. */
  lemma {:induction false} FilterAppend(a: seq<Task>, b: seq<Task>, p: Task -> bool)
    ensures Filter(a + b, p) == Filter(a, p) + Filter(b, p)
  {
    if a == [] {
      assert a + b == b;
    } else {
      assert (a + b)[1..] == a[1..] + b;
      FilterAppend(a[1..], b, p);
    }
  }

  /** A filter every element passes changes nothing. */
  lemma {:induction false} FilterKeepsAll(s: seq<Task>, p: Task -> bool)
    requires forall k :: 0 <= k < |s| ==> p(s[k])
    ensures Filter(s, p) == s
  {
    if s != [] {
      FilterKeepsAll(s[1..], p);
    }
  }

  function InColumn(c: ColumnId): Task -> bool
  {
    (t: Task) => t.columnId == c
  }

  function OtherId(id: string): Task -> bool
  {
    (t: Task) => t.id != id
  }

  /** `getTasksByColumn(c)`: the column's tasks in collection order. */
  function ByColumn(ts: seq<Task>, c: ColumnId): (r: seq<Task>)
    ensures forall t :: t in r <==> t in ts && t.columnId == c
    ensures |r| <= |ts|
  {
    Filter(ts, InColumn(c))
  }

  function HasId(id: string): Task -> bool
  {
    (t: Task) => t.id == id
  }

  /** How many tasks of `ts` carry `id`. */
  function CountId(ts: seq<Task>, id: string): nat
  {
    |Filter(ts, HasId(id))|
  }

  /** The three column listings partition the collection: each task lies in exactly one, as often as in the collection. */
  lemma {:induction false} ColumnsPartition(ts: seq<Task>)
    ensures multiset(ts) == multiset(ByColumn(ts, Tasks)) + multiset(ByColumn(ts, Meetings))
                          + multiset(ByColumn(ts, Backburner))
  {
    if ts != [] {
      var rest := ts[1..];
      ColumnsPartition(rest);
      ColumnMultisetCons(ts, Tasks);
      ColumnMultisetCons(ts, Meetings);
      ColumnMultisetCons(ts, Backburner);
      MultisetCons(ts);
      PartitionStep(ts[0], multiset(rest),
                    multiset(ByColumn(rest, Tasks)), multiset(ByColumn(rest, Meetings)), multiset(ByColumn(rest, Backburner)),
                    multiset(ByColumn(ts, Tasks)), multiset(ByColumn(ts, Meetings)), multiset(ByColumn(ts, Backburner)));
    }
  }

  lemma MultisetCons(ts: seq<Task>)
    requires ts != []
    ensures multiset(ts) == multiset{ts[0]} + multiset(ts[1..])
  {
    assert ts == [ts[0]] + ts[1..];
  }

  /** Adding one task to a partitioned multiset adds it to the part of its column. */
  lemma PartitionStep(t: Task, m: multiset<Task>, a: multiset<Task>, b: multiset<Task>, c: multiset<Task>,
                      a': multiset<Task>, b': multiset<Task>, c': multiset<Task>)
    requires m == a + b + c
    requires a' == (if t.columnId == Tasks then multiset{t} else multiset{}) + a
    requires b' == (if t.columnId == Meetings then multiset{t} else multiset{}) + b
    requires c' == (if t.columnId == Backburner then multiset{t} else multiset{}) + c
    ensures multiset{t} + m == a' + b' + c'
  {
  }

  /** The listing of a non-empty collection, as a multiset: its first task if in the column, plus the listing of the rest. */
  lemma ColumnMultisetCons(ts: seq<Task>, c: ColumnId)
    requires ts != []
    ensures multiset(ByColumn(ts, c))
         == (if ts[0].columnId == c then multiset{ts[0]} else multiset{}) + multiset(ByColumn(ts[1..], c))
  {
    var head := if ts[0].columnId == c then [ts[0]] else [];
    assert ByColumn(ts, c) == head + ByColumn(ts[1..], c);
  }

  /** Hence the three listings' lengths add up to the collection's. */
  lemma ColumnsTotalLength(ts: seq<Task>)
    ensures |ts| == |ByColumn(ts, Tasks)| + |ByColumn(ts, Meetings)| + |ByColumn(ts, Backburner)|
  {
    ColumnsPartition(ts);
    assert |multiset(ts)| == |ts|;
  }

  /** Appending a task adds it at the end of its own column's listing and leaves the other listings as they were. */
  lemma AppendedTaskListed(ts: seq<Task>, t: Task, c: ColumnId)
    ensures ByColumn(ts + [t], c) == if c == t.columnId then ByColumn(ts, c) + [t] else ByColumn(ts, c)
  {
    FilterAppend(ts, [t], InColumn(c));
    assert [t][1..] == [];
  }

  /** With unique ids, the listing of `c` holds the task with the id once if that task is in `c`, and never otherwise. */
  lemma {:induction false} CountIdInColumn(ts: seq<Task>, i: nat, c: ColumnId)
    requires UniqueIds(ts) && i < |ts|
    ensures CountId(ByColumn(ts, c), ts[i].id) == if ts[i].columnId == c then 1 else 0
  {
    CountIdCons(ts, c, ts[i].id);
    if i == 0 {
      HeadAbsentFromRest(ts, c);
    } else {
      CountIdInColumn(ts[1..], i - 1, c);
      assert ts[1..][i - 1] == ts[i];
    }
  }

  /** A column listing's count of an id is the first task's share plus the count in the rest. */
  lemma CountIdCons(ts: seq<Task>, c: ColumnId, id: string)
    requires ts != []
    ensures CountId(ByColumn(ts, c), id)
      == (if ts[0].columnId == c && ts[0].id == id then 1 else 0) + CountId(ByColumn(ts[1..], c), id)
  {
    var head := if ts[0].columnId == c then [ts[0]] else [];
    assert ByColumn(ts, c) == head + ByColumn(ts[1..], c);
    FilterAppend(head, ByColumn(ts[1..], c), HasId(id));
  }

  /** With unique ids, no task after the first shares its id, so no listing of the rest holds it. */
  lemma HeadAbsentFromRest(ts: seq<Task>, c: ColumnId)
    requires UniqueIds(ts) && ts != []
    ensures CountId(ByColumn(ts[1..], c), ts[0].id) == 0
  {
    var rest := ByColumn(ts[1..], c);
    forall k | 0 <= k < |rest| ensures rest[k].id != ts[0].id {
      assert rest[k] in ts[1..];
    }
    FilterNone(rest, ts[0].id);
  }

  lemma {:induction false} FilterNone(s: seq<Task>, id: string)
    requires forall k :: 0 <= k < |s| ==> s[k].id != id
    ensures CountId(s, id) == 0
  {
    if s != [] {
      FilterNone(s[1..], id);
    }
  }

  // ------------------------------------------------------------- updateTask

  /** The store's checks on an update: only a supplied title is checked. */
  function CheckUpdate(u: UpdateTaskInput): (r: Option<ValidationError>)
    ensures u.title.None? ==> r.None?
    ensures u.title.Some? ==> (r.None? <==> CheckTitle(u.title.value).None?)
    ensures r.None? && u.title.Some? ==> WellFormedTitle(Trim(u.title.value))
  {
    if u.title.Some? then
      var e := CheckTitle(u.title.value);
      if e.None? then
        CheckedTitleWellFormed(u.title.value);
        e
      else e
    else None
  }

  /**
    The task `updateTask` builds: omitted fields keep their value, `null`
    clears the description or deadline, a supplied title or description is
    trimmed, and `updatedAt` becomes `now`.
   */
  function MergeUpdate(t: Task, u: UpdateTaskInput, now: string): (r: Task)
    ensures r.id == t.id && r.createdAt == t.createdAt && r.updatedAt == now
    ensures u.title.None? ==> r.title == t.title
    ensures u.description.Keep? ==> r.description == t.description
    ensures u.deadline.Keep? ==> r.deadline == t.deadline
    ensures u.columnId.None? ==> r.columnId == t.columnId
    ensures u.title.Some? ==> r.title == Trim(u.title.value)
    ensures u.description.Clear? ==> r.description.None?
    ensures u.description.Set? ==> r.description == Some(Trim(u.description.value))
    ensures u.deadline.Clear? ==> r.deadline.None?
    ensures u.deadline.Set? ==> r.deadline == Some(u.deadline.value)
    ensures u.columnId.Some? ==> r.columnId == u.columnId.value
  {
    t.(title := if u.title.Some? then Trim(u.title.value) else t.title,
       description := match u.description
                      case Keep => t.description
                      case Clear => None
                      case Set(d) => Some(Trim(d)),
       deadline := match u.deadline
                   case Keep => t.deadline
                   case Clear => None
                   case Set(d) => Some(d),
       columnId := if u.columnId.Some? then u.columnId.value else t.columnId,
       updatedAt := now)
  }

  /** The collection after an update, and the task `updateTask` returns (None for "not found"). */
  datatype Updated = Updated(tasks: seq<Task>, task: Option<Task>)

  /** The outcome of `updateTask(id, u)` on the collection `ts` at time `now`. */
  function UpdateList(ts: seq<Task>, id: string, u: UpdateTaskInput, now: string): (r: Result<Updated, ValidationError>)
    ensures r.Err? <==> CheckUpdate(u).Some?
    ensures r.Ok? ==> |r.value.tasks| == |ts| && (r.value.task.Some? <==> id in Ids(ts))
  {
    match CheckUpdate(u)
    case Some(e) => Err(e)
    case None =>
      var i := FindIndex(ts, id);
      if i == -1 then Ok(Updated(ts, None))
      else
        var t := MergeUpdate(ts[i], u, now);
        Ok(Updated(ts[i := t], Some(t)))
  }

  /**
    updateTask fails, before looking for the id, exactly when a supplied title
    fails the checks. An absent id leaves the collection alone and yields no
    task. A present id replaces only its first occurrence by the merged task.
   */
  lemma UpdateListSpec(ts: seq<Task>, id: string, u: UpdateTaskInput, now: string)
    ensures UpdateList(ts, id, u, now).Err? <==> u.title.Some? && CheckTitle(u.title.value).Some?
    ensures UpdateList(ts, id, u, now).Ok? && id !in Ids(ts) ==> UpdateList(ts, id, u, now).value == Updated(ts, None)
    ensures UpdateList(ts, id, u, now).Ok? && id in Ids(ts) ==>
      var r := UpdateList(ts, id, u, now).value;
      var i := FindIndex(ts, id);
      |r.tasks| == |ts| && r.task == Some(r.tasks[i]) && r.tasks[i] == MergeUpdate(ts[i], u, now)
      && forall j :: 0 <= j < |ts| && j != i ==> r.tasks[j] == ts[j]
  {
  }

  /** An update with no fields changes nothing but `updatedAt`. */
  lemma EmptyUpdateTouchesOnlyTimestamp(t: Task, now: string)
    ensures MergeUpdate(t, UpdateTaskInput(None, Keep, Keep, None), now) == t.(updatedAt := now)
  {
  }

  /** `{description: null}` clears the description and changes nothing else but `updatedAt`. */
  lemma ClearDescriptionTouchesOnlyDescription(t: Task, now: string)
    ensures MergeUpdate(t, UpdateTaskInput(None, Clear, Keep, None), now) == t.(description := None, updatedAt := now)
  {
  }

  /** An update keeps every task's id, so unique ids stay unique. */
  lemma UpdatePreservesIds(ts: seq<Task>, id: string, u: UpdateTaskInput, now: string)
    requires UpdateList(ts, id, u, now).Ok?
    ensures var r := UpdateList(ts, id, u, now).value.tasks;
      |r| == |ts| && (forall k :: 0 <= k < |ts| ==> r[k].id == ts[k].id)
      && Ids(r) == Ids(ts) && (UniqueIds(ts) ==> UniqueIds(r))
  {
    var r := UpdateList(ts, id, u, now).value.tasks;
    assert forall k :: 0 <= k < |ts| ==> r[k].id == ts[k].id;
    forall x | x in Ids(r) ensures x in Ids(ts) {
      var t :| t in r && t.id == x;
      var k :| 0 <= k < |r| && r[k] == t;
      assert ts[k] in ts;
    }
    forall x | x in Ids(ts) ensures x in Ids(r) {
      var t :| t in ts && t.id == x;
      var k :| 0 <= k < |ts| && ts[k] == t;
      assert r[k] in r;
    }
  }

  /** An update that passes the checks keeps every title well formed. */
  lemma UpdatePreservesTitles(ts: seq<Task>, id: string, u: UpdateTaskInput, now: string)
    requires CheckUpdate(u) == None && TitlesWellFormed(ts)
    ensures UpdateList(ts, id, u, now).Ok? && TitlesWellFormed(UpdateList(ts, id, u, now).value.tasks)
  {
    var i := FindIndex(ts, id);
    if i != -1 {
      var t := MergeUpdate(ts[i], u, now);
      assert WellFormedTitle(t.title) by {
        if u.title.Some? {
          CheckedTitleWellFormed(u.title.value);
        } else {
          assert t.title == ts[i].title;
        }
      }
      var r := ts[i := t];
      assert UpdateList(ts, id, u, now).value.tasks == r;
      forall k | 0 <= k < |r| ensures WellFormedTitle(r[k].title) {
        if k != i {
          assert r[k] == ts[k];
        }
      }
    }
  }

  // --------------------------------------------------------------- moveTask

  /** The update `moveTask(id, c)` sends: the column alone. */
  function ColumnOnly(c: ColumnId): UpdateTaskInput
  {
    UpdateTaskInput(None, Keep, Keep, Some(c))
  }

  /** `moveTask(id, c)`: never a validation error, since no title is supplied. */
  function MoveList(ts: seq<Task>, id: string, c: ColumnId, now: string): (r: Updated)
    ensures UpdateList(ts, id, ColumnOnly(c), now) == Ok(r)
  {
    UpdateList(ts, id, ColumnOnly(c), now).value
  }

  /**
    After moving a present task to `c`, with unique ids, the listing of `c`
    holds it exactly once and no other column's listing holds it; only its
    column and `updatedAt` changed.
   */
  lemma MoveLandsInColumn(ts: seq<Task>, id: string, c: ColumnId, now: string, other: ColumnId)
    requires UniqueIds(ts) && id in Ids(ts) && other != c
    ensures var r := MoveList(ts, id, c, now);
      var i := FindIndex(ts, id);
      CountId(ByColumn(r.tasks, c), id) == 1
      && CountId(ByColumn(r.tasks, other), id) == 0
      && r.task == Some(ts[i].(columnId := c, updatedAt := now))
  {
    var r := MoveList(ts, id, c, now);
    var i := FindIndex(ts, id);
    UpdatePreservesIds(ts, id, ColumnOnly(c), now);
    CountIdInColumn(r.tasks, i, c);
    CountIdInColumn(r.tasks, i, other);
  }

  // ------------------------------------------------------------- deleteTask

  /** `ts.filter(t => t.id !== id)`. */
  function RemoveTask(ts: seq<Task>, id: string): (r: seq<Task>)
    ensures forall t :: t in r <==> t in ts && t.id != id
    ensures |r| <= |ts|
  {
    Filter(ts, OtherId(id))
  }

  /** Deleting an absent id leaves the collection identical. */
  lemma RemoveAbsent(ts: seq<Task>, id: string)
    requires id !in Ids(ts)
    ensures RemoveTask(ts, id) == ts
  {
    forall k | 0 <= k < |ts| ensures OtherId(id)(ts[k]) {
      assert ts[k] in ts;
    }
    FilterKeepsAll(ts, OtherId(id));
  }

  /** A filter that rejects a single task drops it. */
  lemma FilterDropsOne(t: Task, p: Task -> bool)
    requires !p(t)
    ensures Filter([t], p) == []
  {
    assert [t][1..] == [];
  }

  /** Filtering around one element: the part before it, the element, the part after it. */
  lemma {:induction false} FilterAround(s: seq<Task>, i: nat, p: Task -> bool)
    requires i < |s|
    ensures Filter(s, p) == Filter(s[..i], p) + Filter([s[i]], p) + Filter(s[i + 1..], p)
  {
    assert s == (s[..i] + [s[i]]) + s[i + 1..];
    FilterAppend(s[..i] + [s[i]], s[i + 1..], p);
    FilterAppend(s[..i], [s[i]], p);
  }

  /** Deleting an id no task has keeps every task. */
  lemma RemoveKeepsOthers(s: seq<Task>, id: string)
    requires forall k :: 0 <= k < |s| ==> s[k].id != id
    ensures RemoveTask(s, id) == s
  {
    FilterKeepsAll(s, OtherId(id));
  }

  /** A filter that rejects the element at `i` and keeps everything around it drops exactly that element. */
  lemma FilterDropAt(s: seq<Task>, i: nat, p: Task -> bool)
    requires i < |s| && !p(s[i])
    requires Filter(s[..i], p) == s[..i] && Filter(s[i + 1..], p) == s[i + 1..]
    ensures Filter(s, p) == s[..i] + s[i + 1..]
  {
    FilterAround(s, i, p);
    FilterDropsOne(s[i], p);
    var before := Filter(s[..i], p);
    assert before + Filter([s[i]], p) == before;
  }

  /** Deleting an id that no task before index `i` has keeps that whole prefix. */
  lemma RemoveKeepsPrefix(ts: seq<Task>, i: nat, id: string)
    requires i <= |ts| && forall k :: 0 <= k < i ==> ts[k].id != id
    ensures Filter(ts[..i], OtherId(id)) == ts[..i]
  {
    var s := ts[..i];
    forall k | 0 <= k < |s| ensures s[k].id != id {
      assert s[k] == ts[k];
    }
    RemoveKeepsOthers(s, id);
  }

  /** Deleting an id that no task from index `i` on has keeps that whole suffix. */
  lemma RemoveKeepsSuffix(ts: seq<Task>, i: nat, id: string)
    requires i <= |ts| && forall k :: i <= k < |ts| ==> ts[k].id != id
    ensures Filter(ts[i..], OtherId(id)) == ts[i..]
  {
    var s := ts[i..];
    forall k | 0 <= k < |s| ensures s[k].id != id {
      assert s[k] == ts[i + k];
    }
    RemoveKeepsOthers(s, id);
  }

  /** When no other task shares the id of the task at index `i`, deleting that id removes exactly that task and keeps the rest in order. */
  lemma RemoveAt(ts: seq<Task>, i: nat)
    requires i < |ts| && forall k :: 0 <= k < |ts| && k != i ==> ts[k].id != ts[i].id
    ensures RemoveTask(ts, ts[i].id) == ts[..i] + ts[i + 1..]
  {
    var id := ts[i].id;
    RemoveKeepsPrefix(ts, i, id);
    RemoveKeepsSuffix(ts, i + 1, id);
    FilterDropAt(ts, i, OtherId(id));
  }

  /** With unique ids, deleting a present id removes exactly the task at its index and keeps the rest in order. */
  lemma RemovePresent(ts: seq<Task>, id: string)
    requires id in Ids(ts) && UniqueIds(ts)
    ensures var i := FindIndex(ts, id);
      RemoveTask(ts, id) == ts[..i] + ts[i + 1..] && |RemoveTask(ts, id)| == |ts| - 1
  {
    var i := FindIndex(ts, id);
    RemoveAt(ts, i);
  }

  /** Deleting keeps well-formed titles well formed. */
  lemma RemovePreservesTitles(ts: seq<Task>, id: string)
    requires TitlesWellFormed(ts)
    ensures TitlesWellFormed(RemoveTask(ts, id))
  {
    var r := RemoveTask(ts, id);
    forall k | 0 <= k < |r| ensures WellFormedTitle(r[k].title) {
      assert r[k] in ts;
      var j :| 0 <= j < |ts| && ts[j] == r[k];
    }
  }

  /** Deleting keeps unique ids unique. */
  lemma {:induction false} RemovePreservesUniqueIds(ts: seq<Task>, id: string)
    requires UniqueIds(ts)
    ensures UniqueIds(RemoveTask(ts, id))
  {
    if ts != [] {
      var tail := RemoveTask(ts[1..], id);
      assert UniqueIds(ts[1..]);
      RemovePreservesUniqueIds(ts[1..], id);
      var head := if OtherId(id)(ts[0]) then [ts[0]] else [];
      assert RemoveTask(ts, id) == head + tail;
      forall k | 0 <= k < |tail| ensures tail[k].id != ts[0].id {
        assert tail[k] in ts[1..];
        var j :| 0 <= j < |ts[1..]| && ts[1..][j] == tail[k];
        assert ts[j + 1] == tail[k];
      }
    }
  }

  /** Appending a task with a fresh id keeps ids unique. */
  lemma AppendPreservesIds(ts: seq<Task>, t: Task)
    requires t.id !in Ids(ts)
    ensures Ids(ts + [t]) == Ids(ts) + {t.id}
    ensures UniqueIds(ts) ==> UniqueIds(ts + [t])
  {
    var r := ts + [t];
    forall k | 0 <= k < |ts| ensures ts[k].id != t.id {
      assert ts[k] in ts;
    }
    forall x | x in Ids(r) ensures x in Ids(ts) + {t.id} {
      var y :| y in r && y.id == x;
      if y != t {
        assert y in ts;
      }
    }
    forall x | x in Ids(ts) + {t.id} ensures x in Ids(r) {
      if x != t.id {
        var y :| y in ts && y.id == x;
        assert y in r;
      } else {
        assert r[|ts|] == t;
      }
    }
  }

  /** Appending a created task keeps every title well formed. */
  lemma AppendPreservesTitles(ts: seq<Task>, input: CreateTaskInput, id: string, now: string)
    requires CreateTask(input, id, now).Ok? && TitlesWellFormed(ts)
    ensures TitlesWellFormed(ts + [CreateTask(input, id, now).value])
  {
    CreateTaskSpec(input, id, now);
    var r := ts + [CreateTask(input, id, now).value];
    forall k | 0 <= k < |r| ensures WellFormedTitle(r[k].title) {
      if k < |ts| {
        assert r[k] == ts[k];
      }
    }
  }

  // ------------------------------------------------------------- load

  /** What `JSON.parse` of a stored, non-empty document gives: an exception or a task list. */
  datatype ParseOutcome = ParseThrew | ParsedTasks(tasks: seq<Task>)

  /** What reading the storage key gives: an exception, no item, or the stored text and its parse. */
  datatype StorageRead = GetItemThrew | NoItem | Item(text: string, parse: ParseOutcome)

  /** `loadTasksFromStorage`: the parsed list, or an empty list on any failure, missing key or empty text. */
  function LoadTasks(read: StorageRead): (ts: seq<Task>)
    ensures ts != [] ==> read.Item? && read.text != "" && read.parse == ParsedTasks(ts)
    ensures read.Item? && read.text != "" && read.parse.ParsedTasks? ==> ts == read.parse.tasks
  {
    match read
    case Item(text, ParsedTasks(tasks)) => if text != "" then tasks else []
    case _ => []
  }
}
