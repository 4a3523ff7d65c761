# taskmonkey in Dafny

A verified model of the core of *taskmonkey* (`tasks`), a command-line to-do
list that stores its tasks in one SQLite table. The model covers:

- the task store of `db.go`. The `tasks` table is a map from id to row. SQLite's
  AUTOINCREMENT counter is `nextId`, and `Issued` is the set of every id ever handed
  out. The operations are `getTask`, `getTasks`, `insert`, `delete` and `update`, plus
  the create-if-absent step of `openDB`. These are methods of the class
  `Store.TaskDB`.
- the task record, `status.String`, and the reflective field merge that
  `update` applies (`Tasks`). The merge is a loop over the struct's five
  fields, proved equal to an explicit per-field rule.
- the command layer of `cmds.go` (`Commands`). It covers the `add`, `list`,
  `update` and `delete` handlers, the update command's status check and its
  `switch`, the partial task it builds, and the rows of `setupTable`.
- the three standard-library conversions those handlers rely on (`Numerals`).
  These are `strconv.Atoi` on a 64-bit platform, `%d` formatting, and the
  `uint(id)` conversion.

`scenarios.dfy` holds client methods. They replay typical sessions against the
contracts of the store and command methods: add, update, delete, refused
requests, and a listing in newest-first order.

The model follows the code in three places where a reader might expect
otherwise:

- `insert` returns only an error, not the new id.
- The update command refuses only ordinals above 2. A negative ordinal is
  accepted and becomes "todo" (cmds.go:102-117).
- `delete` and `update` open the store, and so create the table, before they
  parse the id argument.

Instants are plain integers. `time.Now()` is a parameter of `add`, and the
RFC822 rendering of the creation time is a function parameter of the list
command.

## Model

| member | source | states |
|---|---|---|
| Tasks.StatusString | db.go:19-21 | ordinal 0 is named "todo", 1 "in progress" and 2 "done", each a canonical, non-empty status name; other ordinals have no name (the array index would panic) |
| Tasks.StatusStringBijective | db.go:13-21 | different ordinals have different names, and every canonical name belongs to some ordinal |
| Tasks.Pick | db.go:106-108 | the merged value of one string field is the update's when that is non-empty and the original's otherwise, so it is empty only if both are |
| Tasks.Merge | db.go:95-111 | a non-empty name, project or status in the update replaces the original's; an empty one keeps it; id and created never change |
| Tasks.MergeFields | db.go:95-111 | the loop over the fields, which copies each non-empty string field of the update into the original, yields exactly `Merge` |
| Tasks.MergeIdempotent | db.go:99-109 | merging the same update twice equals merging it once |
| Tasks.MergeEmptyUpdate | db.go:106-108 | an update whose strings are all empty leaves the original unchanged, so no field can be cleared |
| Tasks.MergeIgnoresIdAndCreated | db.go:40-44 | the update's id and created take no part in the merge (a `uint` and a `time.Time` match neither set case) |
| Store.InsertNewestFirst | db.go:60 | placing a row into a listing adds exactly that row (same multiset plus one) |
| Store.InsertKeepsNewestFirst | db.go:60 | placing a row keeps a listing ordered by created, newest first |
| Store.InsertKeepsDistinctIds | db.go:64-77 | placing a row whose id is not listed yet keeps all ids distinct |
| Store.ListsRowsLength | db.go:58-79 | a listing that holds every row once has as many entries as the table has rows |
| Store.TaskDB.constructor | db.go:128-134 | a database file whose tasks table does not exist yet: no rows, counter at 1 |
| Store.TaskDB.Open | db.go:136-140 | the table is created only when missing; an existing table keeps all its rows and its counter |
| Store.TaskDB.GetTask | db.go:46-56 | returns the row with that id exactly when it exists, otherwise NotFound |
| Store.TaskDB.GetTasks | db.go:58-79 | returns every row exactly once and nothing else, newest first, as many entries as rows; an empty table gives an empty sequence |
| Store.TaskDB.Insert | db.go:81-84 | adds exactly one row under an id never issued before, with the given name and project, status "todo" and the supplied time; other rows unchanged |
| Store.TaskDB.Delete | db.go:86-93 | absent id: NotFound, table unchanged; present id: exactly that row removed, nothing else changes, the counter is kept so the id is not reused |
| Store.TaskDB.Update | db.go:113-126 | absent id: NotFound, table unchanged; present id: only that row changes, to the merge of the stored row with the update |
| Store.UpdateChangesOnlyThatRow | db.go:118-124 | after an update the same ids exist, all other rows are unchanged, and the updated row keeps its id and created |
| Commands.StatusForOrdinal | cmds.go:109-117 | ordinals 0, 1, 2 map to their `status.String` names; every other ordinal, negatives included, maps to "todo" |
| Commands.UpdateRequest | cmds.go:118 | the partial task carries the parsed id, the zero time and always a non-empty canonical status |
| Commands.UpdateAlwaysSetsStatus | cmds.go:109-118 | an update always overwrites the stored status with the requested one, and without `-s` (default 0, cmds.go:205-210) resets it to "todo"; id and created are kept; name and project change only when given |
| Commands.RowOf | cmds.go:155-166 | a table row has five cells in column order; the ID cell parses back with `Atoi` to the row's id; an empty project shows as "—", any other verbatim |
| Commands.SetupTable | cmds.go:151-167 | one row per task, in the order of the tasks, each row as `RowOf` describes |
| Commands.AddCommand | cmds.go:29-44 | opens the store and inserts one "todo" task under a fresh id; reports success |
| Commands.ListCommand | cmds.go:132-148 | the table is unchanged; no rows gives the "Add a task to get started" message; otherwise a table with the five column headers and one row per stored task, newest first |
| Commands.DeleteCommand | cmds.go:61-77 | the table is opened, and created if missing, first; a non-numeric id then fails before the store's delete is called, leaving the rows unchanged; otherwise absent ids give NotFound with the table unchanged, and present ids are removed |
| Commands.UpdateCommand | cmds.go:84-125 | an ordinal above 2 fails first, then a non-numeric id, both leaving the table unchanged; otherwise the stored row becomes its merge with the partial task; canonical statuses stay canonical |
| Numerals.Atoi | cmds.go:105-108 | a successful parse means an optional sign followed by at least one decimal digit and nothing else, whose value is the numeral's and lies in the int64 range, so a bare sign or an overflowing numeral is refused; every failure names the argument |
| Numerals.AtoiAcceptsInRange | cmds.go:67-70 | conversely, every signed or unsigned numeral whose value lies in the int64 range, -9223372036854775808 included, parses to that value |
| Numerals.AtoiRefusesSignOnlyAndOverflow | cmds.go:67-70 | a lone "+" or "-", and any numeral whose value lies outside the int64 range, is refused with an error naming the argument |
| Numerals.FormatNat | cmds.go:161 | `%d` of an id is a non-empty string of digits without leading zeros |
| Numerals.AtoiFormatNat | cmds.go:161 | printing an id that fits in an int64 in decimal and parsing it back gives the same id |
| Numerals.ToUint | cmds.go:71 | `uint(id)` keeps non-negative ids and sends negative ones above every int64, congruent modulo 2^64 |

## Left out

- The SQLite driver, SQL text, `rows.Scan` and `Close`. No store operation of the model fails at the storage layer. The StoreUnavailable and StoreWriteError errors from `sql.Open`, `Exec` and `Query` do not occur.
- `tableExists` (db.go:28-33). It treats every query error as a missing table. Its result is the `hasTable` flag, and whether the query itself can fail is not modelled.
- main.go is not part of this model: data-directory lookup, directory creation, the `where` command, and printing the error with a non-zero exit.
- The cobra wiring and flag registration. Flag lookups cannot fail for registered flags, so those error returns are not modelled. The root command's `cmd.Help()` branch is unreachable under `cobra.NoArgs`; the bare command is `list`.
- Presentation: lipgloss borders, colours, alignment and even/odd row shading.
- `time.Now()` is a parameter, and the RFC822 date format is a function parameter.
- Store.TaskDB.Insert: ids are unbounded. SQLite's failure once the largest id reaches 2^63-1 is not modelled.
- Store.TaskDB.GetTasks: rows with equal creation times come in an unspecified order, the order the loop picks them in. SQLite also leaves that order open.
