# Student attendance records: create and update

A Dafny model of the record store behind the FastAPI service in `main.py`.
The `students` table holds rows keyed by `studentID`. Each row has four
fields: `studentID`, `studentName`, `course` and `presentDate`. Two handlers
change the table:

- `POST /student` (`create_student`) looks the key up. A present key answers
  409 "Student already exists" and writes nothing. A fresh key inserts the
  payload and answers 201 "Student created successfully".
- `PUT /student/{student_id}` (`update_student`) looks the path id up. An
  absent id answers 404 "Student not found". A present id gets every payload
  field assigned onto the row and answers 200 "Student updated successfully".

In both handlers a database `IntegrityError` rolls back and answers 400
"Invalid data. Please check your input.". Any other exception rolls back and
answers 500 "An unexpected error occurred.". The 409/404 responses carry a
`message` key. The 400/500 responses are raised HTTP errors and carry a
`detail` key. The model keeps that difference (`Records.Body`).

Files:

- `records.dfy` (module `Records`): the row and payload shape, the
  attribute-by-attribute view of a record, and the response values.
- `handlers.dfy` (module `Handlers`): each handler as a function from the
  table before the request, the request and the database's behaviour to the
  response and the committed table after. The lemmas here state what the
  handlers promise, for single requests and for any sequence of requests.
- `store.dfy` (module `Store`): the handlers as they run. A class
  `StudentStore` holds the committed rows and the session's staged change.
  Its methods look up, stage, commit and roll back. The update handler's
  `setattr` loop is a `for` loop over the payload's items. Each handler method
  is proved to produce exactly the response and table of its function in
  `Handlers`.

What the database does beyond what the rows decide is a parameter,
`Handlers.Fault`:

- the lookup query raises;
- the commit raises before writing, as an integrity error or as another error;
- or the refresh after a successful commit raises.

A primary-key collision at commit is not a parameter. It follows from the
table.

Two behaviours of the code deserve a note:

- **Update can rename.** The loop in `update_student` assigns the payload's
  `studentID` too, so a student's ID is not immutable here. A payload whose
  `studentID` differs from the path id moves the row to the new key. If that
  key is taken, the commit violates the primary key, rolls back and answers
  400. The model follows the code (`Handlers.UpdateReplaces`,
  `Handlers.UpdateOntoTakenKeyIsRejected`).
- **A 500 can follow a committed write.** `db.refresh` runs after
  `db.commit` inside the same `try`. If it raises, the handler answers 500,
  but its `rollback` has nothing left to undo and the write stays. A retried
  create then answers 409 (`Handlers.RefreshErrorKeepsWrite`). Every other
  error response leaves the table exactly as it was
  (`Handlers.ErrorsLeaveTableUnchanged`).

## Model

| member | source | states |
|---|---|---|
| `Records.SetAttr` | main.py:119-120 | assigning one attribute of a row sets that attribute to the given value and leaves the other three as they were |
| `Records.Items` | main.py:52-56 | the payload's items are the four declared fields in declaration order, each paired with the payload's own value for it |
| `Store.AssignFields` | main.py:119-120 | assigning every payload item onto the fetched row yields exactly the payload, whatever the row held: a full replace, `studentID` included |
| `Handlers.Written` | main.py:95-97 | writing a staged row stores it under its own `studentID`, removes the row it replaces, and keeps every other row |
| `Handlers.Flush` | main.py:41 | a commit succeeds exactly when no commit error is raised and the staged row's key is not held by another row; on success the table is the written one; a raised commit error keeps its kind; a key collision raises an integrity error |
| `Handlers.Finish` | main.py:97-107 | a success response comes with the written table; any other response, except after a refresh error, comes with the table unchanged |
| `Handlers.CreateStep` | main.py:84-107 | create either leaves the table as it was or adds the payload under a key that was absent; a lookup error answers 500 with the table unchanged; it answers 201, 409, 400 or 500 only |
| `Handlers.UpdateStep` | main.py:109-132 | update either leaves the table as it was or, for a present path id, writes the payload in place of that row; a lookup error answers 500 with the table unchanged; it answers 200, 404, 400 or 500 only |
| `Handlers.KeyedRowsAreUnique` | main.py:41 | in a table where every row sits under its own `studentID`, two rows with the same `studentID` are the same row |
| `Handlers.CreateExistingIsRejected` | main.py:87-93 | create with a present `studentID` answers 409 "Student already exists" (unless the lookup fails) and never changes the table |
| `Handlers.CreateInsertsFresh` | main.py:95-99 | create with a fresh `studentID` answers 201, adds exactly that key, stores the payload under it, keeps every other row, and grows the table by one |
| `Handlers.CreateTwiceConflicts` | main.py:87-99 | after a successful create of id k, a second create of k answers 409 and the stored row stays the first payload: create is not an upsert |
| `Handlers.UpdateMissingIsNotFound` | main.py:112-117 | update of an absent id answers 404 "Student not found" (unless the lookup fails) and leaves the table unchanged |
| `Handlers.UpdateReplaces` | main.py:119-124 | update of a present id with a free or unchanged payload key answers 200, stores the whole payload under the payload's key, drops the old key when it differs, keeps all other rows and the row count |
| `Handlers.UpdateOntoTakenKeyIsRejected` | main.py:125-128 | update whose payload `studentID` differs from the path id and is held by another row answers 400 with the table unchanged |
| `Handlers.UpdateInPlaceKeepsKeys` | main.py:119-122 | update whose payload keeps the path id changes no key and no row other than the addressed one |
| `Handlers.ErrorsLeaveTableUnchanged` | main.py:100-107 | every response with status 400 or more, except the 500 caused by a refresh error, comes with the table exactly as before the request |
| `Handlers.CommitErrorStatus` | main.py:125-132 | a commit error answers 400 when it is an integrity error and 500 otherwise, with the table unchanged |
| `Handlers.RefreshErrorKeepsWrite` | main.py:97-107 | a refresh error after the commit answers 500 although the new row is stored, and a create of the same row then answers 409 |
| `Handlers.LookupErrorIsServerError` | main.py:104-107 | a lookup that raises answers 500 in either handler and leaves the table unchanged |
| `Handlers.UpdateRefreshErrorKeepsWrite` | main.py:122-132 | a refresh error after a committed update answers 500 although the replacement is stored |
| `Handlers.HandleKeepsKeyedById` | main.py:41 | both handlers keep every row stored under its own `studentID` |
| `Handlers.FinalKeepsKeyedById` | main.py:41 | any sequence of creates and updates keeps every row stored under its own `studentID` |
| `Handlers.WrittenSize` | main.py:95-97 | a non-colliding write adds one row for a new row and keeps the count for an edit of a present row |
| `Handlers.HandleNeverShrinks` | main.py:84-132 | no create or update makes the table smaller |
| `Handlers.FinalNeverShrinks` | main.py:84-132 | no sequence of creates and updates makes the table smaller |
| `Handlers.RecordSurvives` | main.py:87-128 | a row stays present and unchanged through any requests none of which is an update addressed to its key |
| `Handlers.CreateAfterAnyRequestsConflicts` | main.py:87-99 | after a successful create of id k and any requests not addressed to k, a create of k answers 409 and the stored row is still the first payload |
| `Store.StudentStore.Lookup` | main.py:87 | the lookup finds a row exactly when the key is present, and the row it finds is the one stored under that key |
| `Store.StudentStore.Stage` | main.py:95-96 | staging a change records it in the session without touching the committed rows |
| `Store.StudentStore.Rollback` | main.py:100-101 | a rollback discards the staged change and leaves the committed rows as they are |
| `Store.StudentStore.Commit` | main.py:97 | a commit writes the staged change and clears the session exactly when `Handlers.Flush` succeeds; on an error the committed rows are untouched and the change stays staged |
| `Store.StudentStore.Finish` | main.py:97-107 | commit, refresh and the error branches give the response and table of `Handlers.Finish`, and leave nothing staged |
| `Store.StudentStore.Create` | main.py:84-107 | the create handler keeps the primary-key invariant and gives the response and table of `Handlers.CreateStep` |
| `Store.StudentStore.Update` | main.py:109-132 | the update handler, with its field-by-field assignment loop, keeps the primary-key invariant and gives the response and table of `Handlers.UpdateStep` |

## Left out

- Environment loading, the connection URL, the printed credentials, the engine and session factory, and the table creation at start-up (main.py:20-35, 47): configuration. The table is given to the `StudentStore` constructor.
- Session acquire and release (`get_db`, main.py:59-64): every request starts with nothing staged, which is the `Valid()` invariant of `StudentStore`.
- The exception handlers registered on the application and all logging (main.py:67-82, 136-142): framework wiring. Only the handlers' own responses are modelled.
- Request validation and the parsing of `presentDate` by the `pydantic` `date` type (main.py:52-56): library code. A payload reaches the model already valid, and a day is an opaque `(year, month, day)` value. The 422 response for an invalid payload is not modelled.
- Column widths (`String(50)`, `String(100)`, main.py:41-43): whether an over-long value is refused or truncated depends on the database's SQL mode. A refused value is one of the `CommitFails(Other)` faults. The truncating mode is not modelled: there the stored row would be a cut payload, so the stored-row-equals-payload clauses of `Handlers.CreateInsertsFresh` and `Handlers.UpdateReplaces` would not hold.
- Key comparison is exact string equality. This is the model's choice, not the usual deployment: the database is MySQL (main.py:12-14, 31), whose default collations compare keys without regard to case or trailing spaces, so more keys would be equal there.
- Concurrent requests and transaction isolation: each request is handled as one step against the committed rows. A concurrent insert of the same key shows up only as a `CommitFails(Integrity)` fault.
- Reading, listing and deleting students, user registration, login, bearer tokens and `DD/MM/YYYY` date-format checks: main.py has none of these, so there is no code to model them against.
- bulk_insert.py: an HTTP client script whose only computation is calls into the `datetime` library. Its field names (`courseName`, `Date`) do not match the payload of main.py.
