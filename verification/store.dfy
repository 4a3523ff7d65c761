/** The task store of db.go: the single `tasks` table behind a `taskDB`
    handle, seen as a map from id to row plus SQLite's AUTOINCREMENT
    counter, with the operations `openDB` (its create-if-absent step),
    `getTask`, `getTasks`, `insert`, `delete` and `update`. */
module Store {
  import opened Errors
  import opened Tasks

  /** Newest first: the order of `ORDER BY created DESC`. */
  ghost predicate NewestFirst(ts: seq<Task>) {
    forall i, j :: 0 <= i < j < |ts| ==> ts[i].created >= ts[j].created
  }

  ghost predicate DistinctIds(ts: seq<Task>) {
    forall i, j :: 0 <= i < j < |ts| ==> ts[i].id != ts[j].id
  }

  /** `ts` holds every row of `rows` exactly once, and nothing else. */
  ghost predicate ListsRows(ts: seq<Task>, rows: map<nat, Task>) {
    && DistinctIds(ts)
    && (forall i :: 0 <= i < |ts| ==> ts[i].id in rows && rows[ts[i].id] == ts[i])
    && (forall id :: id in rows ==> rows[id] in ts)
  }

  function IdSet(ts: seq<Task>): set<nat> {
    set i | 0 <= i < |ts| :: ts[i].id
  }

  lemma {:induction false} IdSetSize(ts: seq<Task>)
    requires DistinctIds(ts)
    ensures |IdSet(ts)| == |ts|
  {
    if ts != [] {
      var init := ts[..|ts| - 1];
      var last := ts[|ts| - 1];
      assert DistinctIds(init);
      IdSetSize(init);
      assert IdSet(ts) == IdSet(init) + {last.id};
      assert last.id !in IdSet(init);
    }
  }

  /** A listing of a table has one entry per row. */
  lemma ListsRowsLength(ts: seq<Task>, rows: map<nat, Task>)
    requires forall id :: id in rows ==> rows[id].id == id
    requires ListsRows(ts, rows)
    ensures |ts| == |rows|
  {
    IdSetSize(ts);
    assert IdSet(ts) == rows.Keys by {
      forall id | id in rows ensures id in IdSet(ts) {
        var i :| 0 <= i < |ts| && ts[i] == rows[id];
      }
    }
  }

  /** Puts `t` into a listing after every entry strictly newer than it:
      the listing gains exactly `t`. */
  function InsertNewestFirst(ts: seq<Task>, t: Task): (r: seq<Task>)
    ensures multiset(r) == multiset(ts) + multiset{t}
    ensures forall x :: x in r <==> x in ts || x == t
  {
    if ts == [] || t.created >= ts[0].created then [t] + ts
    else
      assert ts == [ts[0]] + ts[1..];
      [ts[0]] + InsertNewestFirst(ts[1..], t)
  }

  /** Inserting into a newest-first listing keeps it newest first. */
  lemma {:induction false} InsertKeepsNewestFirst(ts: seq<Task>, t: Task)
    requires NewestFirst(ts)
    ensures NewestFirst(InsertNewestFirst(ts, t))
  {
    if ts != [] && t.created < ts[0].created {
      InsertKeepsNewestFirst(ts[1..], t);
      var rest := InsertNewestFirst(ts[1..], t);
      forall x | x in rest ensures ts[0].created >= x.created {
        assert x in ts[1..] || x == t;
      }
    }
  }

  /** Inserting a task whose id is not yet listed keeps the ids distinct. */
  lemma {:induction false} InsertKeepsDistinctIds(ts: seq<Task>, t: Task)
    requires DistinctIds(ts)
    requires forall x :: x in ts ==> x.id != t.id
    ensures DistinctIds(InsertNewestFirst(ts, t))
  {
    if ts != [] && t.created < ts[0].created {
      InsertKeepsDistinctIds(ts[1..], t);
      var rest := InsertNewestFirst(ts[1..], t);
      forall x | x in rest ensures ts[0].id != x.id {
        assert x in ts[1..] || x == t;
      }
    }
  }

  /** The `tasks` table of one database file, reached through a `taskDB`
      handle. `hasTable` says whether the table has been created yet. */
  class TaskDB {
    var hasTable: bool
    var rows: map<nat, Task>
    /** The next id AUTOINCREMENT hands out: one above every id ever issued. */
    var nextId: nat
    /** Every id ever issued, including those of deleted rows. */
    ghost var Issued: set<nat>

    ghost predicate Valid()
      reads this
    {
      && 1 <= nextId
      && (forall id :: id in Issued <==> 1 <= id < nextId)
      && (forall id :: id in rows ==> id in Issued && rows[id].id == id)
      && (!hasTable ==> rows == map[] && nextId == 1)
    }

    /** Every stored status is one of the three canonical names. */
    ghost predicate StatusesCanonical()
      reads this
    {
      forall id :: id in rows ==> IsCanonicalStatus(rows[id].status)
    }

    /** A database file in which the table does not exist yet. */
    constructor ()
      ensures Valid() && !hasTable && StatusesCanonical()
    {
      hasTable, rows, nextId := false, map[], 1;
      Issued := {};
    }

    /** The create-if-absent step of `openDB`: the table is created only
        when it is missing, so reopening keeps every existing row. */
    method Open()
      requires Valid()
      modifies this
      ensures Valid() && hasTable
      ensures rows == old(rows) && nextId == old(nextId) && Issued == old(Issued)
    {
      if !hasTable {
        hasTable := true;
      }
    }

    /** `getTask`: the row with this id, or `NotFound`. */
    method GetTask(id: nat) returns (r: Result<Task>)
      requires Valid() && hasTable
      ensures r.Ok? <==> id in rows
      ensures r.Ok? ==> r.value == rows[id] && r.value.id == id
      ensures r.Err? ==> r.error == NotFound(id)
    {
      if id in rows {
        r := Ok(rows[id]);
      } else {
        r := Err(NotFound(id));
      }
    }

    /** `getTasks`: every row exactly once, newest first; an empty table
        gives an empty listing. Rows with equal `created` come in an order
        SQLite leaves unspecified, here the order they are picked in. */
    method GetTasks() returns (tasks: seq<Task>)
      requires Valid() && hasTable
      ensures ListsRows(tasks, rows)
      ensures NewestFirst(tasks)
      ensures |tasks| == |rows|
    {
      tasks := [];
      var pending := rows.Keys;
      while pending != {}
        invariant pending <= rows.Keys
        invariant NewestFirst(tasks) && DistinctIds(tasks)
        invariant forall x :: x in tasks ==> x.id in rows.Keys - pending && rows[x.id] == x
        invariant forall id :: id in rows.Keys - pending ==> rows[id] in tasks
        decreases pending
      {
        var id :| id in pending;
        var t := rows[id];
        InsertKeepsNewestFirst(tasks, t);
        InsertKeepsDistinctIds(tasks, t);
        tasks := InsertNewestFirst(tasks, t);
        pending := pending - {id};
      }
      ListsRowsLength(tasks, rows);
    }

    /** `insert`: one new row under a fresh id never issued before, with
        the given name and project, status "todo" and the supplied time. */
    method Insert(name: string, project: string, now: Instant)
      requires Valid() && hasTable
      modifies this
      ensures Valid() && hasTable
      ensures old(nextId) !in old(Issued) && Issued == old(Issued) + {old(nextId)}
      ensures nextId == old(nextId) + 1
      ensures rows == old(rows)[old(nextId) := Task(old(nextId), name, project, StatusString(TODO), now)]
      ensures old(StatusesCanonical()) ==> StatusesCanonical()
    {
      var id := nextId;
      rows := rows[id := Task(id, name, project, StatusString(TODO), now)];
      nextId := nextId + 1;
      Issued := Issued + {id};
    }

    /** `delete`: looks the row up first; an absent id is `NotFound` and
        changes nothing, a present one is removed and nothing else is. */
    method Delete(id: nat) returns (out: Outcome)
      requires Valid() && hasTable
      modifies this
      ensures Valid() && hasTable
      ensures nextId == old(nextId) && Issued == old(Issued)
      ensures id !in old(rows) ==> out == Fail(NotFound(id)) && rows == old(rows)
      ensures id in old(rows) ==> out == Pass && rows == old(rows) - {id}
      ensures old(StatusesCanonical()) ==> StatusesCanonical()
    {
      var found := GetTask(id);
      if found.Err? {
        return Fail(found.error);
      }
      rows := rows - {id};
      out := Pass;
    }

    /** `update`: reads the row named by `u.id`, merges `u` into it and
        writes back only name, project and status. An absent id is
        `NotFound` and changes nothing. */
    method Update(u: Task) returns (out: Outcome)
      requires Valid() && hasTable
      modifies this
      ensures Valid() && hasTable
      ensures nextId == old(nextId) && Issued == old(Issued)
      ensures u.id !in old(rows) ==> out == Fail(NotFound(u.id)) && rows == old(rows)
      ensures u.id in old(rows) ==> out == Pass && rows == old(rows)[u.id := Merge(old(rows)[u.id], u)]
    {
      var found := GetTask(u.id);
      if found.Err? {
        return Fail(found.error);
      }
      var orig := MergeFields(found.value, u);
      var row := rows[orig.id];
      rows := rows[orig.id := row.(name := orig.name, project := orig.project, status := orig.status)];
      out := Pass;
    }
  }

  /** What `update` does to the table, as a function: the untouched rows,
      and the merged row under the same id and creation time. */
  lemma UpdateChangesOnlyThatRow(rows: map<nat, Task>, u: Task, id: nat)
    requires u.id in rows && rows[u.id].id == u.id
    ensures var after := rows[u.id := Merge(rows[u.id], u)];
      && after.Keys == rows.Keys
      && (id in rows && id != u.id ==> after[id] == rows[id])
      && after[u.id].id == u.id && after[u.id].created == rows[u.id].created
  {
  }
}
