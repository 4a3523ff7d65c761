/** The command layer of cmds.go: the `RunE` handlers of `add`, `list`,
    `update` and `delete`, the update command's status check and mapping,
    the partial task it builds, and `setupTable`'s rows. Each handler opens
    the store first, as `openDB` does, and stops at the first error. */
module Commands {
  import opened Errors
  import opened Numerals
  import opened Tasks
  import opened Store

  /** Default of the update command's `-s` flag: `int(todo)`. */
  const DEFAULT_STATUS_FLAG: int := TODO as int

  const ADDED_MESSAGE: string := "Task successfully added!"
  const DELETED_MESSAGE: string := "Task successfully deleted!"
  const UPDATED_MESSAGE: string := "Task successfully updated!"
  const NO_TASKS_MESSAGE: string := "Add a task to get started"

  /** The header of the list table and the cell shown for an empty project. */
  const COLUMNS: seq<string> := ["ID", "NAME", "PROJECT", "STATUS", "CREATED AT"]
  const PROJECT_PLACEHOLDER: string := "\U{2014}"

  /** What a successful command prints: a message, or the list table
      (headers and rows; borders and colours are not modelled). */
  datatype Output = Message(text: string) | Table(header: seq<string>, rows: seq<seq<string>>)

  /** The `switch` of the update command: `inProgress` and `done` by
      ordinal, `todo` for every other value, negatives included. */
  function StatusForOrdinal(prog: int): (status: string)
    ensures 0 <= prog < 3 ==> status == StatusString(prog)
    ensures prog < 0 || 3 <= prog ==> status == StatusString(TODO)
  {
    if prog == IN_PROGRESS as int then StatusString(IN_PROGRESS)
    else if prog == DONE as int then StatusString(DONE)
    else StatusString(TODO)
  }

  /** The partial task the update command hands to the store: the parsed
      id, the `-n` and `-p` flags, the mapped status and `time.Time{}`. */
  function UpdateRequest(id: nat, name: string, project: string, prog: int): (u: Task)
    ensures u.id == id && u.created == ZERO_TIME
    ensures u.status != "" && IsCanonicalStatus(u.status)
  {
    Task(id, name, project, StatusForOrdinal(prog), ZERO_TIME)
  }

  /** Whatever the flags, merging an update request overwrites the stored
      status with the requested one (so an update without `-s` resets it to
      "todo"), keeps the row's id and creation time, and keeps the name and
      project unless new ones were given. */
  lemma UpdateAlwaysSetsStatus(row: Task, id: nat, name: string, project: string, prog: int)
    ensures var merged := Merge(row, UpdateRequest(id, name, project, prog));
      && merged.status == StatusForOrdinal(prog)
      && merged.id == row.id && merged.created == row.created
      && merged.name == (if name == "" then row.name else name)
      && merged.project == (if project == "" then row.project else project)
    ensures Merge(row, UpdateRequest(id, name, project, DEFAULT_STATUS_FLAG)).status == "todo"
  {
  }

  /** One row of the list table: five cells in column order, the id in
      decimal (so that `update` and `delete` parse it back to the same id),
      an empty project shown as a dash, the creation time as `formatTime`
      renders it. */
  function RowOf(t: Task, formatTime: Instant -> string): (row: seq<string>)
    ensures |row| == |COLUMNS|
    ensures t.id <= MAX_INT64 ==> Atoi(row[0]) == Ok(t.id) && ToUint(t.id) == t.id
    ensures row[1] == t.name && row[3] == t.status && row[4] == formatTime(t.created)
    ensures t.project == "" ==> row[2] == PROJECT_PLACEHOLDER
    ensures t.project != "" ==> row[2] == t.project
  {
    var idCell := FormatNat(t.id);
    assert t.id <= MAX_INT64 ==> Atoi(idCell) == Ok(t.id) by {
      if t.id <= MAX_INT64 {
        AtoiFormatNat(t.id);
      }
    }
    [idCell, t.name, if t.project == "" then PROJECT_PLACEHOLDER else t.project, t.status, formatTime(t.created)]
  }

  /** `setupTable`: one row per task, in the order of the tasks. */
  method SetupTable(tasks: seq<Task>, formatTime: Instant -> string) returns (rows: seq<seq<string>>)
    ensures |rows| == |tasks|
    ensures forall i :: 0 <= i < |tasks| ==> rows[i] == RowOf(tasks[i], formatTime)
  {
    rows := [];
    for i := 0 to |tasks|
      invariant |rows| == i
      invariant forall k :: 0 <= k < i ==> rows[k] == RowOf(tasks[k], formatTime)
    {
      var task := tasks[i];
      var project := task.project;
      if project == "" {
        project := PROJECT_PLACEHOLDER;
      }
      rows := rows + [[FormatNat(task.id), task.name, project, task.status, formatTime(task.created)]];
    }
  }

  /** `add NAME -p PROJECT`: inserts one task, stamped `now`. */
  method AddCommand(db: TaskDB, name: string, project: string, now: Instant) returns (out: Result<Output>)
    requires db.Valid()
    modifies db
    ensures db.Valid() && db.hasTable
    ensures out == Ok(Message(ADDED_MESSAGE))
    ensures db.rows == old(db.rows)[old(db.nextId) := Task(old(db.nextId), name, project, StatusString(TODO), now)]
    ensures old(db.nextId) !in old(db.Issued) && db.nextId == old(db.nextId) + 1
  {
    db.Open();
    db.Insert(name, project, now);
    out := Ok(Message(ADDED_MESSAGE));
  }

  /** `list` (and the bare `tasks` command): the friendly message for an
      empty table, otherwise a table with one row per stored task, newest
      first. `listed` is the listing the rows were built from. */
  method ListCommand(db: TaskDB, formatTime: Instant -> string) returns (out: Result<Output>, ghost listed: seq<Task>)
    requires db.Valid()
    modifies db
    ensures db.Valid() && db.hasTable
    ensures db.rows == old(db.rows) && db.nextId == old(db.nextId)
    ensures ListsRows(listed, db.rows) && NewestFirst(listed) && |listed| == |db.rows|
    ensures db.rows == map[] ==> out == Ok(Message(NO_TASKS_MESSAGE))
    ensures db.rows != map[] ==>
      && out.Ok? && out.value.Table? && out.value.header == COLUMNS
      && |out.value.rows| == |listed|
      && (forall i :: 0 <= i < |listed| ==> out.value.rows[i] == RowOf(listed[i], formatTime))
      && (forall id :: id in db.rows ==> RowOf(db.rows[id], formatTime) in out.value.rows)
  {
    db.Open();
    var tasks := db.GetTasks();
    listed := tasks;
    if |tasks| == 0 {
      return Ok(Message(NO_TASKS_MESSAGE)), listed;
    }
    var rows := SetupTable(tasks, formatTime);
    forall id | id in db.rows
      ensures RowOf(db.rows[id], formatTime) in rows
    {
      var i :| 0 <= i < |tasks| && tasks[i] == db.rows[id];
      assert rows[i] == RowOf(db.rows[id], formatTime);
    }
    out := Ok(Table(COLUMNS, rows));
  }

  /** `delete ID`: the store is opened (and its table created) first; a
      non-numeric argument then fails before the store's delete is called,
      otherwise that delete decides. */
  method DeleteCommand(db: TaskDB, arg: string) returns (out: Result<Output>)
    requires db.Valid()
    modifies db
    ensures db.Valid() && db.hasTable && db.nextId == old(db.nextId)
    ensures Atoi(arg).Err? ==> out == Err(InvalidArgument(arg)) && db.rows == old(db.rows)
    ensures Atoi(arg).Ok? ==>
      var id := ToUint(Atoi(arg).value);
      && (id in old(db.rows) ==> out == Ok(Message(DELETED_MESSAGE)) && db.rows == old(db.rows) - {id})
      && (id !in old(db.rows) ==> out == Err(NotFound(id)) && db.rows == old(db.rows))
  {
    db.Open();
    var parsed := Atoi(arg);
    if parsed.Err? {
      return Err(parsed.error);
    }
    var result := db.Delete(ToUint(parsed.value));
    if result.Fail? {
      return Err(result.error);
    }
    out := Ok(Message(DELETED_MESSAGE));
  }

  /** `update ID -n NAME -p PROJECT -s STATUS`: an ordinal above `done`
      fails first, then a non-numeric id; only then is the partial task
      built and merged into the stored row. */
  method UpdateCommand(db: TaskDB, arg: string, name: string, project: string, prog: int)
    returns (out: Result<Output>)
    requires db.Valid()
    modifies db
    ensures db.Valid() && db.hasTable && db.nextId == old(db.nextId)
    ensures DONE as int < prog ==> out == Err(InvalidStatus(prog)) && db.rows == old(db.rows)
    ensures prog <= DONE as int && Atoi(arg).Err? ==> out == Err(InvalidArgument(arg)) && db.rows == old(db.rows)
    ensures prog <= DONE as int && Atoi(arg).Ok? ==>
      var id := ToUint(Atoi(arg).value);
      && (id in old(db.rows) ==>
            && out == Ok(Message(UPDATED_MESSAGE))
            && db.rows == old(db.rows)[id := Merge(old(db.rows)[id], UpdateRequest(id, name, project, prog))])
      && (id !in old(db.rows) ==> out == Err(NotFound(id)) && db.rows == old(db.rows))
    ensures old(db.StatusesCanonical()) ==> db.StatusesCanonical()
  {
    db.Open();
    if prog > DONE as int {
      return Err(InvalidStatus(prog));
    }
    var parsed := Atoi(arg);
    if parsed.Err? {
      return Err(parsed.error);
    }
    var id := ToUint(parsed.value);
    var result := db.Update(UpdateRequest(id, name, project, prog));
    if result.Fail? {
      return Err(result.error);
    }
    out := Ok(Message(UPDATED_MESSAGE));
  }
}
