/** The task record of db.go, its status enumeration, and the field merge
    that the store's `update` applies to a stored row. */
module Tasks {

  /** A point in time. The model only compares instants; `time.Now()` is
      supplied by the caller and the date format is left abstract. */
  type Instant = int

  /** `time.Time{}`, the zero instant. */
  const ZERO_TIME: Instant := 0

  /** The values of Go's `status` type that `status.String` can index:
      `todo`, `inProgress` and `done`, numbered from 0 by `iota`. */
  type StatusOrdinal = s: int | 0 <= s < 3

  const TODO: StatusOrdinal := 0
  const IN_PROGRESS: StatusOrdinal := 1
  const DONE: StatusOrdinal := 2

  const STATUS_NAMES: seq<string> := ["todo", "in progress", "done"]

  /** The three strings the tool ever writes into the status column. */
  predicate IsCanonicalStatus(s: string) {
    s in STATUS_NAMES
  }

  /** `status.String`: the name of an ordinal (it indexes a three-element
      array, so only 0, 1 and 2 have a name). */
  function StatusString(s: StatusOrdinal): (name: string)
    ensures s == TODO ==> name == "todo"
    ensures s == IN_PROGRESS ==> name == "in progress"
    ensures s == DONE ==> name == "done"
    ensures IsCanonicalStatus(name) && name != ""
  {
    STATUS_NAMES[s]
  }

  /** Different ordinals have different names, and every canonical name is
      the name of some ordinal: `StatusString` is a bijection onto them. */
  lemma StatusStringBijective(a: StatusOrdinal, b: StatusOrdinal, name: string)
    ensures StatusString(a) == StatusString(b) <==> a == b
    ensures IsCanonicalStatus(name) <==> exists s: StatusOrdinal :: StatusString(s) == name
  {
    if IsCanonicalStatus(name) {
      if name == "todo" {
        assert StatusString(TODO) == name;
      } else if name == "in progress" {
        assert StatusString(IN_PROGRESS) == name;
      } else {
        assert StatusString(DONE) == name;
      }
    }
  }

  /** One row of the `tasks` table (Go struct `task`). `id` is a Go `uint`. */
  datatype Task = Task(id: nat, name: string, project: string, status: string, created: Instant)

  /** The merge rule for one string field: Go's zero value "" in the update
      means "not given" and keeps the original. */
  function Pick(update: string, original: string): (r: string)
    ensures update != "" ==> r == update
    ensures update == "" ==> r == original
    ensures r == "" ==> update == "" && original == ""
  {
    if update != "" then update else original
  }

  /** What `orig.merge(u)` leaves in `orig`: every non-empty string field of
      `u` replaces the original's, every empty one keeps it, and `id` and
      `created` (a `uint` and a `time.Time`, which match neither the `int64`
      nor the `string` case of the merge) are never touched. */
  function Merge(orig: Task, u: Task): (r: Task)
    ensures r.id == orig.id && r.created == orig.created
    ensures u.name != "" ==> r.name == u.name
    ensures u.name == "" ==> r.name == orig.name
    ensures u.project != "" ==> r.project == u.project
    ensures u.project == "" ==> r.project == orig.project
    ensures u.status != "" ==> r.status == u.status
    ensures u.status == "" ==> r.status == orig.status
  {
    orig.(name := Pick(u.name, orig.name),
          project := Pick(u.project, orig.project),
          status := Pick(u.status, orig.status))
  }

  /** Merging the same update twice is the same as merging it once. */
  lemma MergeIdempotent(orig: Task, u: Task)
    ensures Merge(Merge(orig, u), u) == Merge(orig, u)
  {
  }

  /** An update whose strings are all empty changes nothing, so an update
      can never clear a field back to "". */
  lemma MergeEmptyUpdate(orig: Task, u: Task)
    requires u.name == "" && u.project == "" && u.status == ""
    ensures Merge(orig, u) == orig
  {
  }

  /** The `id` and `created` of the update play no part in the merge. */
  lemma MergeIgnoresIdAndCreated(orig: Task, u: Task, id: nat, created: Instant)
    ensures Merge(orig, u.(id := id, created := created)) == Merge(orig, u)
  {
  }

  /** The fields of `task` in declaration order, as the reflective loop of
      `merge` visits them, each with its Go type. */
  const FIELD_COUNT: nat := 5

  datatype FieldValue = UintField(n: nat) | StringField(s: string) | TimeField(t: Instant)

  function FieldAt(t: Task, i: nat): FieldValue
    requires i < FIELD_COUNT
  {
    match i
    case 0 => UintField(t.id)
    case 1 => StringField(t.name)
    case 2 => StringField(t.project)
    case 3 => StringField(t.status)
    case _ => TimeField(t.created)
  }

  /** `SetString` on field `i` of a task. */
  function WithString(t: Task, i: nat, s: string): (r: Task)
    requires i < FIELD_COUNT && FieldAt(t, i).StringField?
    ensures FieldAt(r, i) == StringField(s)
    ensures forall k :: 0 <= k < FIELD_COUNT && k != i ==> FieldAt(r, k) == FieldAt(t, k)
  {
    match i
    case 1 => t.(name := s)
    case 2 => t.(project := s)
    case _ => t.(status := s)
  }

  /** Two tasks that agree on every field are equal. */
  lemma FieldsDetermineTask(a: Task, b: Task)
    requires forall k :: 0 <= k < FIELD_COUNT ==> FieldAt(a, k) == FieldAt(b, k)
    ensures a == b
  {
    assert FieldAt(a, 0) == FieldAt(b, 0);
    assert FieldAt(a, 1) == FieldAt(b, 1);
    assert FieldAt(a, 2) == FieldAt(b, 2);
    assert FieldAt(a, 3) == FieldAt(b, 3);
    assert FieldAt(a, 4) == FieldAt(b, 4);
  }

  /** `(*task).merge`: walks the fields of the update in order and copies
      each non-empty string field into the original. The `int64` case of the
      source never applies, since no field of `task` has that type, and
      `CanSet` always holds for the addressed original. */
  method MergeFields(orig: Task, u: Task) returns (r: Task)
    ensures r == Merge(orig, u)
  {
    r := orig;
    for i := 0 to FIELD_COUNT
      invariant forall k :: 0 <= k < i ==> FieldAt(r, k) == FieldAt(Merge(orig, u), k)
      invariant forall k :: i <= k < FIELD_COUNT ==> FieldAt(r, k) == FieldAt(orig, k)
    {
      var v := FieldAt(u, i);
      if v.StringField? && v.s != "" {
        r := WithString(r, i, v.s);
      }
    }
    FieldsDetermineTask(r, Merge(orig, u));
  }
}
