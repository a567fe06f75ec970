/**
 * The record store: an in-memory table from roll number to record that is
 * loaded from one data file when it is created and rewritten to that file,
 * whole, after every insertion or deletion that changes it.
 *
 * The data file is an object of its own (`DataFile`) so that two stores
 * built on it see what the other saved. The outcome of each write is a
 * parameter (`WriteOutcome`): the file system is not part of the model.
 */
module Store {
  import opened Options
  import opened Records

  /** Every entry is filed under its own record's roll number. */
  predicate KeyedByRoll(m: map<string, StudentRecord>)
  {
    forall k :: k in m ==> m[k].rollNumber == k
  }

  /** The table after inserting `record`: a present roll number is never overwritten. */
  function Added(m: map<string, StudentRecord>, record: StudentRecord): (m': map<string, StudentRecord>)
    ensures record.rollNumber in m ==> m' == m
    ensures record.rollNumber !in m ==> m'.Keys == m.Keys + {record.rollNumber} && m'[record.rollNumber] == record
    ensures forall k :: k in m ==> k in m' && m'[k] == m[k]
    ensures |m'| == if record.rollNumber in m then |m| else |m| + 1
    ensures KeyedByRoll(m) ==> KeyedByRoll(m')
  {
    if record.rollNumber in m then m else m[record.rollNumber := record]
  }

  /** The table after deleting `roll`: that key goes, every other entry stays. */
  function Removed(m: map<string, StudentRecord>, roll: string): (m': map<string, StudentRecord>)
    ensures roll !in m ==> m' == m
    ensures m'.Keys == m.Keys - {roll}
    ensures forall k :: k in m' ==> m'[k] == m[k]
    ensures |m'| == if roll in m then |m| - 1 else |m|
    ensures KeyedByRoll(m) ==> KeyedByRoll(m')
  {
    m - {roll}
  }

  /**
   * Distinct keys hold distinct records when each record carries its own key,
   * so listing the values loses nothing: there is one record per key.
   */
  lemma {:induction false} OneRecordPerKey(m: map<string, StudentRecord>)
    requires KeyedByRoll(m)
    ensures |m.Values| == |m|
    decreases |m|
  {
    if m.Keys != {} {
      var k :| k in m.Keys;
      var rest := Removed(m, k);
      OneRecordPerKey(rest);
      assert m.Values == rest.Values + {m[k]} by {
        forall v | v in m.Values ensures v in rest.Values + {m[k]} {
          var j :| j in m && m[j] == v;
          if j != k { assert j in rest; }
        }
      }
      assert m[k] !in rest.Values;
    }
  }

  // ----- Runs of store operations -----

  datatype Op = AddOp(record: StudentRecord) | DeleteOp(roll: string)

  function Apply(m: map<string, StudentRecord>, op: Op): map<string, StudentRecord>
  {
    match op
    case AddOp(record) => Added(m, record)
    case DeleteOp(roll) => Removed(m, roll)
  }

  function Run(m: map<string, StudentRecord>, ops: seq<Op>): map<string, StudentRecord>
    decreases |ops|
  {
    if ops == [] then m else Run(Apply(m, ops[0]), ops[1..])
  }

  /** Every add brings a new roll number and every delete names a stored one. */
  predicate EveryOpTakesEffect(m: map<string, StudentRecord>, ops: seq<Op>)
    decreases |ops|
  {
    ops == [] ||
    ((match ops[0]
      case AddOp(record) => record.rollNumber !in m
      case DeleteOp(roll) => roll in m)
     && EveryOpTakesEffect(Apply(m, ops[0]), ops[1..]))
  }

  function CountAdds(ops: seq<Op>): nat
  {
    if ops == [] then 0 else (if ops[0].AddOp? then 1 else 0) + CountAdds(ops[1..])
  }

  function CountDeletes(ops: seq<Op>): nat
  {
    if ops == [] then 0 else (if ops[0].DeleteOp? then 1 else 0) + CountDeletes(ops[1..])
  }

  /** After N adds and M deletes that all take effect, the store holds M fewer than N more records. */
  lemma {:induction false} RunSize(m: map<string, StudentRecord>, ops: seq<Op>)
    requires EveryOpTakesEffect(m, ops)
    ensures |Run(m, ops)| + CountDeletes(ops) == |m| + CountAdds(ops)
    decreases |ops|
  {
    if ops != [] {
      RunSize(Apply(m, ops[0]), ops[1..]);
    }
  }

  /** No run of adds and deletes ever files a record under another roll number. */
  lemma {:induction false} RunKeepsKeyedByRoll(m: map<string, StudentRecord>, ops: seq<Op>)
    requires KeyedByRoll(m)
    ensures KeyedByRoll(Run(m, ops))
    decreases |ops|
  {
    if ops != [] {
      RunKeepsKeyedByRoll(Apply(m, ops[0]), ops[1..]);
    }
  }

  // ----- The data file -----

  /** What the data file holds: nothing, something that does not read back, or a saved table. */
  datatype FileState = Missing | Unreadable | Holds(records: map<string, StudentRecord>)

  /**
   * How a save went: the table was written out; the file could not be opened
   * (it keeps its old contents); or writing failed after opening, which
   * truncates the file, so what is left does not read back.
   */
  datatype WriteOutcome = Written | OpenFailed | WriteFailed

  function AfterSave(before: FileState, m: map<string, StudentRecord>, outcome: WriteOutcome): (after: FileState)
    ensures outcome == Written ==> after == Holds(m)
    ensures outcome != Written ==> after == before || after.Unreadable?
    ensures outcome == OpenFailed ==> after == before
  {
    match outcome
    case Written => Holds(m)
    case OpenFailed => before
    case WriteFailed => Unreadable
  }

  /** The table a store starts from when it loads a file in this state. */
  function Loaded(f: FileState): map<string, StudentRecord>
  {
    if f.Holds? then f.records else map[]
  }

  /**
   * What a store started after a save finds: the saved table when the write
   * went through, otherwise what the file gave before or, once a write broke
   * the file, nothing at all. It never finds a table from anywhere else.
   */
  lemma SaveThenLoad(before: FileState, m: map<string, StudentRecord>, outcome: WriteOutcome)
    ensures outcome == Written ==> Loaded(AfterSave(before, m, outcome)) == m
    ensures outcome == OpenFailed ==> Loaded(AfterSave(before, m, outcome)) == Loaded(before)
    ensures outcome == WriteFailed ==> Loaded(AfterSave(before, m, outcome)) == map[]
    ensures Loaded(AfterSave(before, m, outcome)) in {m, Loaded(before), map[]}
  {
  }

  class DataFile {
    var state: FileState

    /** Only whole tables written by a store are ever found in the file. */
    ghost predicate Valid()
      reads this
    {
      state.Holds? ==> KeyedByRoll(state.records)
    }

    constructor (initial: FileState)
      requires initial.Holds? ==> KeyedByRoll(initial.records)
      ensures Valid() && state == initial
    {
      state := initial;
    }
  }

  class StudentDataHandler {
    const file: DataFile
    var records: map<string, StudentRecord>
    /** How many times the table has been written out (successfully or not). */
    ghost var saves: nat

    ghost predicate Valid()
      reads this, file
    {
      KeyedByRoll(records) && file.Valid()
    }

    /** A new store starts empty and takes the table the data file holds, if it reads back. */
    constructor (file: DataFile)
      requires file.Valid()
      ensures Valid() && this.file == file && saves == 0
      ensures records == Loaded(file.state)
    {
      this.file := file;
      records := map[];
      saves := 0;
      new;
      LoadRecords();
    }

    /** A missing or unreadable file leaves the table as it was. */
    method LoadRecords()
      requires file.Valid()
      modifies this`records
      ensures records == if file.state.Holds? then file.state.records else old(records)
    {
      if file.state.Holds? {
        records := file.state.records;
      }
    }

    /** Writes the whole table out; a failure is swallowed and the table is kept. */
    method SaveRecords(outcome: WriteOutcome)
      requires Valid()
      modifies file, this`saves
      ensures Valid()
      ensures file.state == AfterSave(old(file.state), records, outcome)
      ensures saves == old(saves) + 1
    {
      match outcome {
        case Written => file.state := Holds(records);
        case OpenFailed =>
        case WriteFailed => file.state := Unreadable;
      }
      saves := saves + 1;
    }

    /**
     * Inserts `record` under its roll number unless that roll number is
     * already stored; only an insertion is saved.
     */
    method AddRecord(record: StudentRecord, outcome: WriteOutcome)
      requires Valid()
      modifies this`records, this`saves, file
      ensures Valid()
      ensures records == Added(old(records), record)
      ensures record.rollNumber in old(records) ==> saves == old(saves) && file.state == old(file.state)
      ensures record.rollNumber !in old(records) ==>
                saves == old(saves) + 1 && file.state == AfterSave(old(file.state), records, outcome)
    {
      if record.rollNumber !in records {
        records := records[record.rollNumber := record];
        SaveRecords(outcome);
      }
    }

    /** Deletes `roll` if it is stored; only a deletion is saved. */
    method DeleteRecord(roll: string, outcome: WriteOutcome)
      requires Valid()
      modifies this`records, this`saves, file
      ensures Valid()
      ensures records == Removed(old(records), roll)
      ensures roll !in old(records) ==> saves == old(saves) && file.state == old(file.state)
      ensures roll in old(records) ==>
                saves == old(saves) + 1 && file.state == AfterSave(old(file.state), records, outcome)
    {
      if roll in records {
        records := records - {roll};
        SaveRecords(outcome);
      }
    }

    /** The record stored under `roll`, if any. */
    function FindRecord(roll: string): (found: Option<StudentRecord>)
      reads this, file
      requires Valid()
      ensures found.Some? <==> roll in records
      ensures found.Some? ==> found.value == records[roll] && found.value.rollNumber == roll
    {
      if roll in records then Some(records[roll]) else None
    }

    /** Every stored record, once each, in no particular order. */
    function GetAllRecords(): (all: set<StudentRecord>)
      reads this, file
      requires Valid()
      ensures forall r :: r in all <==> r.rollNumber in records && records[r.rollNumber] == r
      ensures |all| == |records|
    {
      OneRecordPerKey(records);
      records.Values
    }
  }

  /**
   * Adding a new roll number and starting a fresh store on the same file
   * finds the record again, provided the save was written.
   */
  method AddThenReload(store: StudentDataHandler, record: StudentRecord) returns (reloaded: StudentDataHandler)
    requires store.Valid() && record.rollNumber !in store.records
    modifies store, store.file
    ensures reloaded.Valid() && reloaded.file == store.file
    ensures reloaded.records == store.records
    ensures reloaded.FindRecord(record.rollNumber) == Some(record)
  {
    store.AddRecord(record, Written);
    reloaded := new StudentDataHandler(store.file);
  }

  /**
   * A save that fails after the file was opened keeps the new record in
   * memory but leaves a file that does not read back, so a store started
   * afterwards is empty: every record saved before is lost with it.
   */
  method FailedWriteThenReload(store: StudentDataHandler, record: StudentRecord) returns (reloaded: StudentDataHandler)
    requires store.Valid() && record.rollNumber !in store.records
    modifies store, store.file
    ensures store.Valid() && store.FindRecord(record.rollNumber) == Some(record)
    ensures reloaded.Valid() && reloaded.file == store.file
    ensures reloaded.records == map[]
  {
    store.AddRecord(record, WriteFailed);
    reloaded := new StudentDataHandler(store.file);
  }
}
