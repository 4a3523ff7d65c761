/** Sessions with the tool, written against the contracts of the store and
    command methods: the verifier checks every assertion from those
    contracts without looking into the method bodies. */
module Scenarios {
  import opened Errors
  import opened Numerals
  import opened Tasks
  import opened Store
  import opened Commands

  /** The id argument "1" names task 1. */
  lemma ParseOne()
    ensures Atoi("1") == Ok(1)
  {
    assert "" + "1" == "1" && DigitsValue("1") == 1;
    AtoiAcceptsInRange("", "1");
  }

  /** Add a task, move it to "in progress", rename it (which, without
      `-s`, also resets its status), then delete it. */
  method ReportLifecycle()
  {
    var db := new TaskDB();
    var out := AddCommand(db, "Write report", "Q3", 100);
    assert db.rows == map[1 := Task(1, "Write report", "Q3", "todo", 100)];

    ParseOne();
    out := UpdateCommand(db, "1", "", "", 1);
    assert out == Ok(Message(UPDATED_MESSAGE));
    assert db.rows[1] == Task(1, "Write report", "Q3", "in progress", 100);

    out := UpdateCommand(db, "1", "Final report", "", DEFAULT_STATUS_FLAG);
    assert db.rows[1] == Task(1, "Final report", "Q3", "todo", 100);

    out := DeleteCommand(db, "1");
    assert out == Ok(Message(DELETED_MESSAGE)) && db.rows == map[];
  }

  /** After a delete the id is unknown and is never handed out again. */
  method DeletedIdNotReused()
  {
    var db := new TaskDB();
    var out := AddCommand(db, "Write report", "Q3", 100);
    ParseOne();
    out := DeleteCommand(db, "1");
    assert db.rows == map[] && db.nextId == 2;
    out := DeleteCommand(db, "1");
    assert out == Err(NotFound(1));
    out := AddCommand(db, "Next", "", 200);
    assert 1 !in db.rows && 2 in db.rows;
  }

  /** An out-of-range status and a non-numeric id are refused and leave
      the stored task as it was. */
  method RefusedUpdates()
  {
    var db := new TaskDB();
    var out := AddCommand(db, "Write report", "Q3", 100);
    ghost var before := db.rows;
    out := UpdateCommand(db, "1", "", "", 3);
    assert out == Err(InvalidStatus(3)) && db.rows == before;
    assert Atoi("one").Err? by {
      assert Unsigned("one") == "one" && !IsDigit("one"[0]);
    }
    out := UpdateCommand(db, "one", "", "", 2);
    assert out == Err(InvalidArgument("one")) && db.rows == before;
  }

  /** Two tasks added one after the other are listed newest first, and
      reopening the store keeps them. */
  method ListNewestFirst()
  {
    var db := new TaskDB();
    db.Open();
    db.Insert("A", "", 10);
    db.Insert("B", "proj", 20);
    db.Open();
    var a, b := Task(1, "A", "", "todo", 10), Task(2, "B", "proj", "todo", 20);
    assert db.rows == map[1 := a, 2 := b];
    var tasks := db.GetTasks();
    assert |tasks| == 2;
    assert tasks[0] in {a, b} && tasks[1] in {a, b};
    assert tasks == [b, a];
  }
}
