/**
 * A student record and the one-line text the application shows for it.
 *
 * The text form is only ever displayed, never read back; `Parse` is its
 * reference inverse, used to state a sufficient condition (no comma in any
 * field) under which the display identifies the record it came from.
 */
module Records {
  import opened Options

  /** One student: the roll number is the key the store files it under. */
  datatype StudentRecord = StudentRecord(name: string, rollNumber: string, grade: string, department: string)

  // The display line is these labels, each followed by its field, with a comma
  // before every label but the first ("Name: ", ", Roll No: ", ", Grade: ", ", Dept: ").
  const NameLabel: string := "Name: "
  const RollLabel: string := " Roll No: "
  const GradeLabel: string := " Grade: "
  const DeptLabel: string := " Dept: "

  /** The record as the application displays it. */
  function ToString(r: StudentRecord): string
  {
    (NameLabel + r.name) + [','] + (RollLabel + r.rollNumber) + [','] + (GradeLabel + r.grade) + [','] + (DeptLabel + r.department)
  }

  /** Cuts `s` at every occurrence of `sep`; the pieces never contain `sep`. */
  function Split(s: string, sep: char): (parts: seq<string>)
    ensures |parts| >= 1
    ensures forall i :: 0 <= i < |parts| ==> sep !in parts[i]
    decreases |s|
  {
    if s == [] then [[]]
    else
      var rest := Split(s[1..], sep);
      if s[0] == sep then [[]] + rest else [[s[0]] + rest[0]] + rest[1..]
  }

  /** Glues the pieces back together with `sep` between neighbours. */
  function Join(parts: seq<string>, sep: char): string
    decreases |parts|
  {
    if parts == [] then []
    else if |parts| == 1 then parts[0]
    else parts[0] + [sep] + Join(parts[1..], sep)
  }

  predicate IsPrefix(p: string, s: string)
  {
    |p| <= |s| && s[..|p|] == p
  }

  /** Reads a display line back into a record, if it has the display's shape. */
  function Parse(s: string): (r: Option<StudentRecord>)
    ensures r.Some? ==> ',' !in r.value.name && ',' !in r.value.rollNumber
    ensures r.Some? ==> ',' !in r.value.grade && ',' !in r.value.department
  {
    var parts := Split(s, ',');
    if |parts| == 4 && IsPrefix(NameLabel, parts[0]) && IsPrefix(RollLabel, parts[1])
       && IsPrefix(GradeLabel, parts[2]) && IsPrefix(DeptLabel, parts[3])
    then
      var r := StudentRecord(parts[0][|NameLabel|..], parts[1][|RollLabel|..],
                             parts[2][|GradeLabel|..], parts[3][|DeptLabel|..]);
      assert forall c :: c in r.name ==> c in parts[0];
      assert forall c :: c in r.rollNumber ==> c in parts[1];
      assert forall c :: c in r.grade ==> c in parts[2];
      assert forall c :: c in r.department ==> c in parts[3];
      Some(r)
    else None
  }

  lemma {:induction false} SplitWithoutSep(a: string, sep: char)
    requires sep !in a
    ensures Split(a, sep) == [a]
    decreases |a|
  {
    if a != [] {
      SplitWithoutSep(a[1..], sep);
      assert [a[0]] + a[1..] == a;
    }
  }

  lemma {:induction false} SplitAtFirstSep(a: string, sep: char, b: string)
    requires sep !in a
    ensures Split(a + [sep] + b, sep) == [a] + Split(b, sep)
    decreases |a|
  {
    var s := a + [sep] + b;
    if a == [] {
      assert s[1..] == b;
    } else {
      assert s[1..] == a[1..] + [sep] + b;
      SplitAtFirstSep(a[1..], sep, b);
      assert [a[0]] + a[1..] == a;
    }
  }

  /** Joining the pieces of a split gives back the original text. */
  lemma {:induction false} JoinSplit(s: string, sep: char)
    ensures Join(Split(s, sep), sep) == s
    decreases |s|
  {
    if s != [] {
      JoinSplit(s[1..], sep);
      var rest := Split(s[1..], sep);
      if s[0] == sep {
        assert ([[]] + rest)[1..] == rest;
      } else if |rest| == 1 {
        assert [s[0]] + s[1..] == s;
      } else {
        var parts := [[s[0]] + rest[0]] + rest[1..];
        assert parts[1..] == rest[1..];
        assert Join(rest, sep) == rest[0] + [sep] + Join(rest[1..], sep);
        assert [s[0]] + s[1..] == s;
      }
    }
  }

  lemma JoinFour(p: seq<string>, sep: char)
    requires |p| == 4
    ensures Join(p, sep) == p[0] + [sep] + p[1] + [sep] + p[2] + [sep] + p[3]
  {
    assert p[1..][1..] == p[2..];
    assert p[2..][1..] == [p[3]];
    assert Join(p[2..], sep) == p[2] + [sep] + p[3];
    assert Join(p[1..], sep) == p[1] + [sep] + (p[2] + [sep] + p[3]);
  }

  lemma SplitFour(p0: string, p1: string, p2: string, p3: string, sep: char)
    requires sep !in p0 && sep !in p1 && sep !in p2 && sep !in p3
    ensures Split(p0 + [sep] + p1 + [sep] + p2 + [sep] + p3, sep) == [p0, p1, p2, p3]
  {
    var t2 := p2 + [sep] + p3;
    var t1 := p1 + [sep] + t2;
    calc {
      Split(p0 + [sep] + p1 + [sep] + p2 + [sep] + p3, sep);
      { assert p0 + [sep] + p1 + [sep] + p2 + [sep] + p3 == p0 + [sep] + t1; }
      Split(p0 + [sep] + t1, sep);
      { SplitAtFirstSep(p0, sep, t1); }
      [p0] + Split(t1, sep);
      { SplitAtFirstSep(p1, sep, t2); }
      [p0] + ([p1] + Split(t2, sep));
      { SplitAtFirstSep(p2, sep, p3); SplitWithoutSep(p3, sep); }
      [p0] + ([p1] + ([p2] + [p3]));
    }
  }

  /** A record whose fields hold no comma can be read back from its display line. */
  lemma ParseToString(r: StudentRecord)
    requires ',' !in r.name && ',' !in r.rollNumber && ',' !in r.grade && ',' !in r.department
    ensures Parse(ToString(r)) == Some(r)
  {
    var p0, p1, p2, p3 := NameLabel + r.name, RollLabel + r.rollNumber, GradeLabel + r.grade, DeptLabel + r.department;
    assert ',' !in NameLabel && ',' !in RollLabel && ',' !in GradeLabel && ',' !in DeptLabel;
    SplitFour(p0, p1, p2, p3, ',');
    assert p0[..|NameLabel|] == NameLabel && p0[|NameLabel|..] == r.name;
    assert p1[..|RollLabel|] == RollLabel && p1[|RollLabel|..] == r.rollNumber;
    assert p2[..|GradeLabel|] == GradeLabel && p2[|GradeLabel|..] == r.grade;
    assert p3[..|DeptLabel|] == DeptLabel && p3[|DeptLabel|..] == r.department;
  }

  /** Whatever `Parse` accepts is exactly the display line of the record it returns. */
  lemma ToStringParse(s: string)
    requires Parse(s).Some?
    ensures ToString(Parse(s).value) == s
  {
    var p := Split(s, ',');
    var r := Parse(s).value;
    JoinSplit(s, ',');
    JoinFour(p, ',');
    assert p[0] == NameLabel + r.name;
    assert p[1] == RollLabel + r.rollNumber;
    assert p[2] == GradeLabel + r.grade;
    assert p[3] == DeptLabel + r.department;
  }

  /**
   * With a comma in a field, two different records share one display line:
   * a name ending in ", Roll No: " followed by text reads the same as a
   * roll number that carries that text. This is the witness that
   * `ParseToString` cannot drop its no-comma requirement.
   */
  lemma DisplayIsAmbiguousWithCommas(name: string, x: string, y: string, grade: string, dept: string)
    ensures StudentRecord(name + [','] + RollLabel + x, y, grade, dept) != StudentRecord(name, x + [','] + RollLabel + y, grade, dept)
    ensures ToString(StudentRecord(name + [','] + RollLabel + x, y, grade, dept))
         == ToString(StudentRecord(name, x + [','] + RollLabel + y, grade, dept))
  {
  }
}
