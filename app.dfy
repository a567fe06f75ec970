/**
 * The application's handlers for its Add, Search and Delete buttons, without
 * the window around them: the text the user typed comes in as parameters,
 * and what the window would show comes back as results.
 */
module App {
  import opened Options
  import opened Records
  import opened Store

  // ----- Java's String.trim -----

  /** `trim` drops every character whose code is at most U+0020 from both ends. */
  predicate IsBlank(c: char)
  {
    c <= ' '
  }

  function TrimLeading(s: string): (r: string)
    ensures |r| <= |s| && r == s[|s| - |r|..]
    ensures forall k :: 0 <= k < |s| - |r| ==> IsBlank(s[k])
    ensures r != [] ==> !IsBlank(r[0])
    decreases |s|
  {
    if s != [] && IsBlank(s[0]) then TrimLeading(s[1..]) else s
  }

  function TrimTrailing(s: string): (r: string)
    ensures |r| <= |s| && r == s[..|r|]
    ensures forall k :: |r| <= k < |s| ==> IsBlank(s[k])
    ensures r != [] ==> !IsBlank(r[|r| - 1])
    decreases |s|
  {
    if s != [] && IsBlank(s[|s| - 1]) then TrimTrailing(s[..|s| - 1]) else s
  }

  /** A field with no surrounding blanks and at least one visible character. */
  predicate IsCleanField(s: string)
  {
    s != [] && !IsBlank(s[0]) && !IsBlank(s[|s| - 1])
  }

  predicate HasVisibleChar(s: string)
  {
    exists k :: 0 <= k < |s| && !IsBlank(s[k])
  }

  /**
   * `s` with its blank ends cut off: a piece of `s` that is empty exactly
   * when `s` has no visible character, and otherwise starts and ends with one.
   */
  function Trim(s: string): (r: string)
    ensures exists i :: 0 <= i <= |s| - |r| && r == s[i..][..|r|]
                        && (forall k :: 0 <= k < i ==> IsBlank(s[k]))
                        && (forall k :: i + |r| <= k < |s| ==> IsBlank(s[k]))
    ensures r == [] <==> !HasVisibleChar(s)
    ensures r != [] ==> IsCleanField(r)
  {
    var t := TrimLeading(s);
    var r := TrimTrailing(t);
    BlankTailOfSuffix(s, |s| - |t|, |r|);
    assert r == s[|s| - |t|..][..|r|];
    r
  }

  /**
   * When the suffix of `s` from `i` has only blanks after its first `n`
   * characters, so has `s` after position `i + n`.
   */
  lemma BlankTailOfSuffix(s: string, i: nat, n: nat)
    requires i + n <= |s|
    requires forall k :: n <= k < |s| - i ==> IsBlank(s[i..][k])
    ensures forall k :: i + n <= k < |s| ==> IsBlank(s[k])
  {
    forall k | i + n <= k < |s| ensures IsBlank(s[k]) {
      assert s[k] == s[i..][k - i];
    }
  }

  /** Trimming twice is trimming once. */
  lemma TrimIdempotent(s: string)
    ensures Trim(Trim(s)) == Trim(s)
  {
  }

  // ----- The Add button's guard -----

  /**
   * The record the Add button builds from the four text fields: refused
   * unless every trimmed field is non-empty, and then made of the trimmed values.
   */
  function ReadForm(nameText: string, rollText: string, gradeText: string, deptText: string): (r: Option<StudentRecord>)
    ensures r.Some? <==>
              HasVisibleChar(nameText) && HasVisibleChar(rollText) && HasVisibleChar(gradeText) && HasVisibleChar(deptText)
    ensures r.Some? ==> r.value == StudentRecord(Trim(nameText), Trim(rollText), Trim(gradeText), Trim(deptText))
    ensures r.Some? ==> IsCleanField(r.value.name) && IsCleanField(r.value.rollNumber)
    ensures r.Some? ==> IsCleanField(r.value.grade) && IsCleanField(r.value.department)
  {
    var name := Trim(nameText);
    var roll := Trim(rollText);
    var grade := Trim(gradeText);
    var dept := Trim(deptText);
    if name == [] || roll == [] || grade == [] || dept == [] then None
    else Some(StudentRecord(name, roll, grade, dept))
  }

  // ----- The window's handlers -----

  class StudentApp {
    const dataHandler: StudentDataHandler

    ghost predicate Valid()
      reads this, dataHandler, dataHandler.file
    {
      dataHandler.Valid()
    }

    /** The window opens on a store loaded from `file`. */
    constructor (file: DataFile)
      requires file.Valid()
      ensures Valid() && dataHandler.file == file && dataHandler.saves == 0
      ensures dataHandler.records == Loaded(file.state)
    {
      dataHandler := new StudentDataHandler(file);
    }

    /**
     * The Add button: a form with a blank field changes nothing; otherwise
     * the trimmed record is offered to the store, and reported as added
     * even when its roll number was already taken and the store kept the old one.
     */
    method AddStudent(nameText: string, rollText: string, gradeText: string, deptText: string, outcome: WriteOutcome)
      returns (reported: Option<StudentRecord>)
      requires Valid()
      modifies dataHandler, dataHandler.file
      ensures Valid()
      ensures reported == ReadForm(nameText, rollText, gradeText, deptText)
      ensures reported.None? ==>
                dataHandler.records == old(dataHandler.records) && dataHandler.saves == old(dataHandler.saves)
                && dataHandler.file.state == old(dataHandler.file.state)
      ensures reported.Some? ==> dataHandler.records == Added(old(dataHandler.records), reported.value)
      ensures reported.Some? && reported.value.rollNumber in old(dataHandler.records) ==>
                dataHandler.saves == old(dataHandler.saves) && dataHandler.file.state == old(dataHandler.file.state)
      ensures reported.Some? && reported.value.rollNumber !in old(dataHandler.records) ==>
                dataHandler.saves == old(dataHandler.saves) + 1
                && dataHandler.file.state == AfterSave(old(dataHandler.file.state), dataHandler.records, outcome)
    {
      reported := ReadForm(nameText, rollText, gradeText, deptText);
      if reported.Some? {
        dataHandler.AddRecord(reported.value, outcome);
      }
    }

    /** The Search button: looks up the trimmed query. */
    method SearchStudent(queryText: string) returns (found: Option<StudentRecord>)
      requires Valid()
      ensures found.Some? <==> Trim(queryText) in dataHandler.records
      ensures found.Some? ==> found.value == dataHandler.records[Trim(queryText)]
      ensures found.Some? ==> found.value.rollNumber == Trim(queryText)
    {
      var roll := Trim(queryText);
      found := dataHandler.FindRecord(roll);
    }

    /** The Delete button: deletes the trimmed query's roll number, if stored. */
    method RemoveStudent(queryText: string, outcome: WriteOutcome)
      requires Valid()
      modifies dataHandler, dataHandler.file
      ensures Valid()
      ensures dataHandler.records == Removed(old(dataHandler.records), Trim(queryText))
      ensures Trim(queryText) !in old(dataHandler.records) ==>
                dataHandler.saves == old(dataHandler.saves) && dataHandler.file.state == old(dataHandler.file.state)
      ensures Trim(queryText) in old(dataHandler.records) ==>
                dataHandler.saves == old(dataHandler.saves) + 1
                && dataHandler.file.state == AfterSave(old(dataHandler.file.state), dataHandler.records, outcome)
    {
      var roll := Trim(queryText);
      dataHandler.DeleteRecord(roll, outcome);
    }
  }
}
