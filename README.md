# Student records manager: the record store

This project models the store behind a small desktop application for student
records. It keeps a table from roll number to record in memory. The table is
loaded from one data file when the application starts. The whole table is
rewritten to that file after every insertion or deletion that changes it. The
model also covers what the Add, Search and Delete buttons do before they
call the store: all three trim what was typed, and Add also refuses a form
with a blank field.

- `options.dfy`: `Option`, which stands for Java's nullable results.
- `records.dfy` (module `Records`): the `StudentRecord` value and its display
  line `ToString`. `Parse` is a reference inverse of `ToString`. It is used to
  state a sufficient condition, no comma in any field, under which a display
  line identifies its record.
- `store.dfy` (module `Store`): the class `StudentDataHandler` and the data
  file `DataFile`.
  - `Added` and `Removed` specify the table updates.
  - `KeyedByRoll` is the invariant: every entry is filed under its own
    record's roll number.
  - `Run` replays a sequence of adds and deletes, for statements about many
    operations at once. `AddRecord` and `DeleteRecord` promise that the
    table becomes `Added` or `Removed` of the old one, which is one step of
    `Run`. So a sequence of calls leaves the table equal to `Run` of the
    matching operations. `GetAllRecords` then lists one record per entry of
    that table.
- `app.dfy` (module `App`): Java's `String.trim` and the Add button's
  field check (`ReadForm`). The class `StudentApp` holds the button handlers.

Inputs from outside the program are parameters:
- The text typed into the form fields.
- The outcome of each file write (`WriteOutcome`).
- The initial contents of the data file (`FileState`).

A write can go three ways:
- `Written`: the file holds the table.
- `OpenFailed`: the file could not be opened and keeps what it held.
- `WriteFailed`: the write failed after the file was opened. Opening for
  output truncates the file, so it no longer reads back (`Unreadable`).

In every case the in-memory change is kept, and the ghost counter `saves`
records that a save was attempted. `FailedWriteThenReload` shows the
consequence of `WriteFailed`: a store started on that file afterwards is
empty, so the records saved earlier are lost too.

## Model

| member | source | states |
|---|---|---|
| `Records.ParseToString` | StudentApp.java:25-29 | A record whose four fields hold no comma is read back from its display line, so the display identifies it |
| `Records.ToStringParse` | StudentApp.java:25-29 | Any line `Parse` accepts is exactly the display line of the record it returns (the other direction of the round trip) |
| `Records.DisplayIsAmbiguousWithCommas` | StudentApp.java:25-29 | A name ending in ", Roll No: x" and a roll number starting with "x, Roll No: " give the same display line, so `ParseToString` needs its no-comma requirement |
| `Records.Parse` | StudentApp.java:25-29 | A record read back from a display line has no comma in any field |
| `Store.Added` | StudentApp.java:41-46 | Insertion never overwrites. A present roll number leaves the table unchanged. An absent one adds exactly that entry, so the size grows by one, and `KeyedByRoll` is kept |
| `Store.Removed` | StudentApp.java:48-52 | Deletion drops exactly the given key and keeps every other entry. An absent key leaves the table unchanged. The size shrinks by one only when the key was present, and `KeyedByRoll` is kept |
| `Store.OneRecordPerKey` | StudentApp.java:58-60 | Under `KeyedByRoll`, the table holds as many distinct records as keys |
| `Store.RunSize` | StudentApp.java:41-52 | After N adds of new roll numbers and M deletes of stored ones, the table has grown by exactly N - M entries |
| `Store.RunKeepsKeyedByRoll` | StudentApp.java:41-52 | No sequence of adds and deletes ever files a record under another roll number |
| `Store.SaveThenLoad` | StudentApp.java:62-80 | A store loaded after a written save gets the saved table. After a failure to open, it gets what the file gave before. After a failed write, it gets an empty table. It never gets any other table |
| `Store.StudentDataHandler.constructor` | StudentApp.java:36-39 | A new store holds `Loaded` of the file: the table the file contains, or an empty one if the file is missing or does not read back. It satisfies `KeyedByRoll` |
| `Store.StudentDataHandler.LoadRecords` | StudentApp.java:70-80 | A readable file replaces the table. A missing or unreadable file leaves the table as it was |
| `Store.StudentDataHandler.SaveRecords` | StudentApp.java:62-68 | The file becomes `AfterSave` of its old contents and the table. The table itself is not changed by a failed save |
| `Store.StudentDataHandler.AddRecord` | StudentApp.java:41-46 | The table becomes `Added(old table, record)`. The save is attempted exactly when the roll number was absent. Otherwise the file and the save count do not change |
| `Store.StudentDataHandler.DeleteRecord` | StudentApp.java:48-52 | The table becomes `Removed(old table, roll)`. The save is attempted exactly when the roll number was present. Otherwise nothing changes |
| `Store.StudentDataHandler.FindRecord` | StudentApp.java:54-56 | Finds a record exactly when the roll number is stored. The record found is the stored one and carries that roll number |
| `Store.StudentDataHandler.GetAllRecords` | StudentApp.java:58-60 | The result holds exactly the stored records, one per key, so its size is the number of keys |
| `Store.AddThenReload` | StudentApp.java:36-46 | After adding a new roll number with a written save, a store started on the same file holds the same table and finds the record |
| `Store.FailedWriteThenReload` | StudentApp.java:62-80 | After adding with a write that fails once the file is open, the record is still in memory, but a store started on the file is empty |
| `App.Trim` | StudentApp.java:153-156 | The result is the input with a prefix and a suffix removed, and every removed character is at most U+0020. It is empty exactly when the input has no character above U+0020. Otherwise it starts and ends with such a character, so no more could be removed |
| `App.TrimIdempotent` | StudentApp.java:153-156 | Trimming twice is the same as trimming once |
| `App.ReadForm` | StudentApp.java:152-163 | A record is built exactly when every field has a character above U+0020. It is made of the trimmed values, and no field of it is empty or has blank ends |
| `App.StudentApp.constructor` | StudentApp.java:86 | The window opens on a store loaded from the data file |
| `App.StudentApp.AddStudent` | StudentApp.java:152-171 | A form with a blank field changes nothing. Otherwise the trimmed record is offered to `AddRecord` and reported as added. It is reported even when its roll number was taken and the store kept the old record |
| `App.StudentApp.SearchStudent` | StudentApp.java:173-182 | Finds a record exactly when the trimmed query is a stored roll number, and returns that record |
| `App.StudentApp.RemoveStudent` | StudentApp.java:184-188 | Deletes the trimmed query's roll number. A save is attempted exactly when that roll number was stored |

## Left out

- The window itself is not modelled: frame, layout, listeners, dialogs, text-area messages, clearing the form and exit (StudentApp.java:83-150, 165-200). Handlers return the record they would report, not the message text.
- `ListAllStudents` is not modelled. Its only work is printing each record of `GetAllRecords` in the map's unspecified order.
- The byte format of Java object serialization is not modelled. A save copies the table into `DataFile.state`, and a load copies it back.
- Transient read errors on a file that was written correctly are not modelled. A file either reads back (`Holds`) or does not (`Missing`, `Unreadable`).
- `Store.StudentDataHandler.LoadRecords`: assumes that a readable file holds a table satisfying `KeyedByRoll` (`DataFile.Valid`). This holds for every file this program writes. A file produced by other code is not covered.
- Error messages written to the error stream are not modelled. They do not affect any state.
- The order in which `getAllRecords` yields the values is unspecified for a hash map. The model returns a set and proves that it has one element per key.
- The setters for name, grade and department are not modelled, because no store operation calls them. Records are values in the model, so a record cannot be changed while it sits in the table.
