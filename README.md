# Record lifecycle of the users / contacts REST service

Both Flask services of this repository, `backend/x.py` (table `User`) and
`backend/x2.py` (table `Contact`), manage one SQLite table of person
records. Each row has an integer primary key `id` and three NOT NULL
columns, `fullName`, `email` (UNIQUE) and `age`. Five operations act on the
table: create, list, get by id, partial-merge update and delete by id. This
project models that lifecycle once for both services and proves its rules
in Dafny.

- `records.dfy` (module `Records`) holds the entity. `Row` is a committed
  row. `Body` is a JSON request object, where each key is `Absent`, `Null`
  or `Given(v)`, so a missing key and a key set to `null` stay distinct.
  `Staged` is the mapped object before commit, whose columns may still be
  `None`. `Outcome` is the result of an operation.
- `lifecycle.dfy` (module `Lifecycle`) gives each operation as a pure
  function over the table. The table is a sequence of rows in rowid order.
  SQL promises no order without ORDER BY; this is the order SQLite's full
  table scan gives `query.all()` in practice. Every mutating operation is one
  all-or-nothing commit. Its parameters are bound first: Python integers are
  unbounded, but SQLite's INTEGER is 64 bits, so an age outside
  [-2^63, 2^63) fails with `OutOfRange` (Python's sqlite3 raises
  OverflowError). The same holds for a looked-up id outside that range in
  get, update and delete. Next comes the rowid, then the NOT NULL check
  (`Complete`), then the UNIQUE check on email (`HeldByOther`). A failed
  commit leaves the table as it was. A new row gets SQLite's rowid: one more
  than the largest id in the table, or 1 when the table is empty.
- `table.dfy` (module `Store`) is the mutable table as the services use it.
  Class `Table` has methods `Create`, `Update` and `Delete`. `Create` builds
  the mapped object from the body in one step, as `User(...)` does, and
  commits it. `Update` loads the stored row, overwrites the present columns
  in place one at a time, and commits. `Delete` removes the row it found.
  Each method is proved equal to the matching `Lifecycle` function and to
  keep the invariant `WellFormed`: ids strictly increase along the table, so
  no id appears twice; emails are distinct; every id and age fits 64 bits.
  NOT NULL holds by the type of `Row`.
- `properties.dfy` (module `LifecycleProperties`) holds the properties that
  relate several operations, or an operation and the invariant.
- `replies.dfy` (module `Replies`) records where the two services differ in
  what they send back:
  - The users service returns the new id on create, the updated record on
    update, and 204 with no body on delete. It rejects a create that lacks
    a key with 400.
  - The contacts service returns only message strings. A create that lacks
    a key raises `KeyError` or `TypeError` there, which gives a 500.
  - Listing and get-by-id report the same data in both services.

Both services behave identically at the level of the table. The two update
bodies are equivalent on a JSON object: `if key in data: obj.key =
data[key]` and `obj.key = data.get(key, obj.key)` produce the same object.

Three things one might expect do not hold of the code, and the model follows
the code:
- Ids can be reused. The key is a plain `INTEGER PRIMARY KEY`, so deleting
  the newest row frees its id for the next create
  (`IdReusedAfterDeletingNewest`). Only "a new id is not live" is promised.
- Repeating a successful create with the same body does not create a second
  record. The UNIQUE email makes it fail with `DuplicateKey`
  (`CreateTwiceRejected`).
- A key present with the value `null` passes the users service's key check.
  It then fails the NOT NULL constraint at commit (`CreateNullRejected`,
  `UpdateNullRejected`).

## Model

| member | source | states |
|---|---|---|
| `Lifecycle.Find` | backend/x.py:50 | The primary-key lookup returns a position holding a row with that id, and returns none exactly when no live row has that id. |
| `Lifecycle.NextId` | backend/x.py:10 | A new id is larger than every id in a well-formed table, so it is not live. It is 1 on an empty table. |
| `Records.Complete` | backend/x.py:11-13 | NOT NULL: a staged object becomes a row exactly when all three columns are non-null. The row then carries those values and the given id. |
| `Lifecycle.List` | backend/x2.py:36-40 | List has one entry per row and holds exactly the stored rows. On a well-formed table an entry is listed exactly when get of its id returns it. An id is live exactly when some entry carries it. |
| `Lifecycle.Merge` | backend/x2.py:60-62 | The `data.get(key, current)` merge commits as a row exactly when that row is the merge-patch of the body over the old row: id and absent keys kept, given keys installed, no row when a key is null. |
| `Lifecycle.Get` | backend/x.py:48-58 | OutOfRange exactly when the id does not fit 64 bits. Otherwise get finds a row exactly when the id is live, and the row it returns is stored and has that id; else the outcome is NotFound. |
| `Lifecycle.Create` | backend/x.py:27-34 | InvalidInput exactly when the body is missing or lacks a key. OutOfRange exactly when the keys are there and a given age does not fit 64 bits. Full exactly when, after that, the next rowid passes 2^63 - 1. A failure leaves the table unchanged. A success appends exactly one row carrying the body's values under a non-live 64-bit id and keeps the others. DuplicateKey only when a live row holds the email. |
| `Lifecycle.Update` | backend/x.py:61-79 | OutOfRange when the id does not fit 64 bits, and on a table in range exactly then or when a live id's body gives an age beyond 64 bits. NotFound exactly when the id fits but is not live. MalformedBody exactly when the id is live and the body is not an object. A failure changes nothing. A success replaces only that row with the merge-patch of the body: id and absent keys kept, present keys installed. |
| `Lifecycle.Delete` | backend/x.py:82-89 | OutOfRange exactly when the id does not fit 64 bits, NotFound exactly when it fits but is not live; both change nothing. Otherwise exactly the row holding that id is cut out of the table, which shrinks by one. On a well-formed table the id is then not live and every other row is kept. |
| `LifecycleProperties.CreateKeepsWellFormed` | backend/x.py:10-13 | Create keeps ids increasing (hence unique), emails distinct, and every id and age within 64 bits. |
| `LifecycleProperties.UpdateKeepsWellFormed` | backend/x2.py:17-20 | Update keeps ids unique, emails distinct, and every age within 64 bits. |
| `LifecycleProperties.DeleteKeepsWellFormed` | backend/x2.py:72-76 | Delete keeps ids unique, emails distinct, and every integer within 64 bits. |
| `LifecycleProperties.ServeKeepsWellFormed` | backend/x2.py:17-20 | By induction on a request history: serving any sequence of creates, lists, gets, updates and deletes from a well-formed table (the empty one included) leaves it well-formed, with ids unique, emails distinct and every column populated. |
| `LifecycleProperties.CreateThenGet` | backend/x.py:31-34 | Round trip: get of the id a create returned yields a row carrying exactly the body's fullName, email and age. |
| `LifecycleProperties.CreateDuplicateIff` | backend/x2.py:30-32 | For a complete non-null body whose age fits 64 bits, on a table with a rowid left: DuplicateKey exactly when a live row holds its email, success otherwise. |
| `LifecycleProperties.CreateNullRejected` | backend/x2.py:17-20 | A body with all keys but a null value never changes the table; once its age binds and a rowid is left, it fails NOT NULL. |
| `LifecycleProperties.CreateTwiceRejected` | backend/x.py:12 | Repeating a successful create with the same body adds nothing: it fails with DuplicateKey, or with Full if the first create took id 2^63 - 1. |
| `LifecycleProperties.IdReusedAfterDeletingNewest` | backend/x.py:10 | Create, then delete of the new id, restores the table, and the next create is given the same id again. |
| `LifecycleProperties.OversizedIntegersRejected` | backend/x.py:31-33 | A create with age 2^63, and a get, update or delete of id 2^63, each fail with OutOfRange and leave the table unchanged. |
| `LifecycleProperties.ListMatchesGet` | backend/x.py:39-45 | On a well-formed table no two listed entries share an id, and an empty table lists as empty. |
| `LifecycleProperties.UpdateThenGet` | backend/x.py:73-79 | The record an update returns has the requested id and is exactly what get returns afterwards. |
| `LifecycleProperties.UpdateAgeOnly` | backend/x.py:67-72 | An update whose body has only `age` succeeds on a live id when the age fits 64 bits. It changes `age` and keeps `fullName`, `email` and the id. An age beyond 64 bits gives OutOfRange. |
| `LifecycleProperties.UpdateDuplicateIff` | backend/x2.py:60-63 | On a live id with no null values, update fails with DuplicateKey exactly when id and age fit 64 bits and another live row holds the merged email. It succeeds exactly when they fit and no other row holds it. |
| `LifecycleProperties.UpdateNullRejected` | backend/x2.py:57-63 | An update setting any column to null changes nothing; once id and age bind, it fails NOT NULL. |
| `LifecycleProperties.DeleteFinality` | backend/x2.py:72-79 | Delete of a live id removes that row and keeps every other row. Afterwards get and delete of that id both report NotFound. |
| `Store.Table.Create` | backend/x2.py:27-33 | The in-place create keeps the invariant. Its outcome and new table are those of `Lifecycle.Create`. |
| `Store.Table.Update` | backend/x.py:62-73 | The column-by-column in-place update keeps the invariant. Its outcome and new table are those of `Lifecycle.Update`. |
| `Store.Table.Delete` | backend/x2.py:71-76 | The in-place delete keeps the invariant. Its outcome and new table are those of `Lifecycle.Delete`. |
| `Replies.UserReply` | backend/x.py:29-89 | The users service reports success (status below 400) exactly for successful outcomes. A create returns the new id, an update returns the updated record, and a delete is 204 with no body. |
| `Replies.ContactReply` | backend/x2.py:33-79 | The contacts service reports success exactly for successful outcomes. Apart from get, it replies only with a message or a server error. |
| `Replies.VariantsAgreeOnSuccess` | backend/x2.py:28-33 | Both services succeed on the same outcomes and report a found record identically. A create lacking a key is a 400 in one service and a 500 in the other. A delete is 204 with no body in the users service and 200 with a message in the contacts service. |
| `Replies.ContactRepliesHideResult` | backend/x2.py:33 | The contacts service's reply to a create or an update does not depend on the assigned id or on the updated row. |

## Left out

- HTTP routing, `jsonify`, `abort` and error pages. Status codes appear only in `Replies`, to record how the two services differ.
- Request parsing is not modelled. A body is either a JSON object or absent/`null`. Flask's 415 for a non-JSON content type is not modelled, and neither are non-object JSON bodies such as arrays or strings. `x2.py` reads `request.json` before the id lookup, so there a non-JSON update of a missing id could report 415 or 400, depending on the Flask/Werkzeug version, rather than 404.
- JSON value types: `fullName` and `email` are strings and `age` is an integer. Other JSON types are not modelled. SQLite stores strings, numbers and booleans under its type affinity. An array or object value fails at parameter binding with a 500. Integers outside 64 bits are modelled (`OutOfRange`).
- The `String(80)`, `String(100)` and `String(120)` lengths. SQLite does not enforce them.
- Email uniqueness is exact string equality, as under SQLite's default collation. No case folding is modelled.
- Lifecycle.Create: once the largest id is 2^63 - 1, SQLite picks a random unused rowid and reports SQLITE_FULL only if that search fails. The model does not model that random choice: it reports `Full` and changes nothing.
- SQLAlchemy session, flush, rollback and the SQLite file. A commit is an atomic all-or-nothing step on an in-memory table.
- Concurrency between requests. Each operation is one atomic step.
- `__repr__`, `create_tables`/`db.create_all` (the table starts empty: `Store.Table.constructor`), and `app.run`.
