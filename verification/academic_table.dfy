/** The Maestría-style academic-record table
    (src/components/dashboard/academic-record-table.tsx), modelled as written:
    the name-based grade ranges, the sum/25 average, the 25-row layout with
    its thesis row, and the course groups. The dashboard renders its Maestría
    kárdex from a different component (main-dashboard.tsx:8), so this table
    is not the one shown there. */
module AcademicTable {
  import opened Wrappers
  import opened Text
  import opened Seqs
  import opened AcademicData
  import opened GradeScale

  const TotalRows := 25

  datatype Range = Range(lo: int, hi: int)

  const EightyRangeNames: seq<string> :=
    ["Dirección del Factor Humano", "Logística Administrativa", "Operaciones Financieras"]

  predicate AnalysisOrFramework(name: string) {
    StartsWith(name, "Análisis") || StartsWith(name, "Marco")
  }

  lemma DiffersAt(s: string, prefix: string, k: nat)
    requires k < |s| && k < |prefix| && s[k] != prefix[k]
    ensures !StartsWith(s, prefix)
  {
  }

  /** None of the names with a rule of their own starts with "Análisis" or
      "Marco". */
  lemma RuleNamesDisjoint()
    ensures !AnalysisOrFramework("Hombre Trabajo y Sociedad")
    ensures !AnalysisOrFramework("Microeconomía")
    ensures !AnalysisOrFramework("Metodología de la investigación")
    ensures forall n :: n in EightyRangeNames ==> !AnalysisOrFramework(n)
  {
    DiffersAt("Hombre Trabajo y Sociedad", "Análisis", 0);
    DiffersAt("Hombre Trabajo y Sociedad", "Marco", 0);
    DiffersAt("Microeconomía", "Análisis", 0);
    DiffersAt("Microeconomía", "Marco", 1);
    DiffersAt("Metodología de la investigación", "Análisis", 0);
    DiffersAt("Metodología de la investigación", "Marco", 1);
    DiffersAt(EightyRangeNames[0], "Análisis", 0);
    DiffersAt(EightyRangeNames[0], "Marco", 0);
    DiffersAt(EightyRangeNames[1], "Análisis", 0);
    DiffersAt(EightyRangeNames[1], "Marco", 0);
    DiffersAt(EightyRangeNames[2], "Análisis", 0);
    DiffersAt(EightyRangeNames[2], "Marco", 0);
  }

  /** The rule table the effect applies, first match wins. The contract
      states each range by the names that receive it; the rules are
      disjoint, so their order does not matter. */
  function GradeRange(name: string): (r: Range)
    ensures 1 <= r.lo <= r.hi <= 100
    ensures r == Range(70, 79) <==> name == "Hombre Trabajo y Sociedad"
    ensures r == Range(1, 69) <==> name == "Microeconomía"
    ensures r == Range(80, 89) <==> name in EightyRangeNames
    ensures r == Range(73, 89) <==> AnalysisOrFramework(name)
    ensures r == Range(83, 100) <==> name == "Metodología de la investigación"
    ensures r == Range(90, 100) <==>
      name != "Hombre Trabajo y Sociedad" && name != "Microeconomía" && name !in EightyRangeNames
      && !AnalysisOrFramework(name) && name != "Metodología de la investigación"
  {
    RuleNamesDisjoint();
    if name == "Hombre Trabajo y Sociedad" then Range(70, 79)
    else if name == "Microeconomía" then Range(1, 69)
    else if name in EightyRangeNames then Range(80, 89)
    else if AnalysisOrFramework(name) then Range(73, 89)
    else if name == "Metodología de la investigación" then Range(83, 100)
    else Range(90, 100)
  }

  /** Among the Maestría basic courses, the research-methods course draws
      from 83-100 and the "Análisis"/"Marco" courses from 73-89. */
  lemma MaestriaBasicRanges()
    ensures GradeRange(MaestriaBasicCourses[1].name) == Range(83, 100)
    ensures GradeRange(MaestriaBasicCourses[2].name) == Range(73, 89)
    ensures GradeRange(MaestriaBasicCourses[3].name) == Range(73, 89)
  {
    assert StartsWith(MaestriaBasicCourses[2].name, "Análisis");
    assert StartsWith(MaestriaBasicCourses[3].name, "Marco");
  }

  /** The grade synthesized for one course. */
  function SynthGrade(name: string, draw: real): (n: int)
    requires 0.0 <= draw < 1.0
    ensures GradeRange(name).lo <= n <= GradeRange(name).hi
    ensures 1 <= n <= 100
  {
    var r := GradeRange(name);
    RandomInt(draw, r.lo, r.hi)
  }

  /** The effect's `grades`: one synthesized grade per record, in order. */
  function CourseGrades(courses: seq<Course>, draws: seq<real>): (g: seq<(string, int)>)
    requires |draws| == |courses| && ValidDraws(draws)
    ensures |g| == |courses|
    ensures forall i :: 0 <= i < |g| ==> g[i].0 == courses[i].name && 1 <= g[i].1 <= 100
  {
    seq(|courses|, i requires 0 <= i < |courses| => (courses[i].name, SynthGrade(courses[i].name, draws[i])))
  }

  function Numerics(grades: seq<(string, int)>): (n: seq<int>)
    ensures |n| == |grades| && forall i :: 0 <= i < |n| ==> n[i] == grades[i].1
  {
    seq(|grades|, i requires 0 <= i < |grades| => grades[i].1)
  }

  /** The reported average: none without courses, otherwise the grade sum
      divided by 25 whatever the number of courses, rounded. */
  function Average(grades: seq<int>): (avg: Option<int>)
    ensures avg.None? <==> grades == []
    ensures avg.Some? && |grades| <= TotalRows && InRange(grades, 0, 100) ==> 0 <= avg.value <= 100
  {
    if grades == [] then None
    else
      var avg := Round(Sum(grades) as real / TotalRows as real);
      assert InRange(grades, 0, 100) && |grades| <= TotalRows ==> 0 <= avg <= 100 by {
        if InRange(grades, 0, 100) && |grades| <= TotalRows {
          SumBounds(grades, 0, 100);
        }
      }
      Some(avg)
  }

  predicate InRange(s: seq<int>, lo: int, hi: int) {
    forall i :: 0 <= i < |s| ==> lo <= s[i] <= hi
  }

  /** The average the table reports for a student's records: present
      exactly when there is a course, and a grade in [0, 100] when there are
      at most 25 courses. */
  function ReportedAverage(records: seq<Course>, draws: seq<real>): (avg: Option<int>)
    requires |draws| == |records| && ValidDraws(draws)
    ensures avg.None? <==> records == []
    ensures avg.Some? && |records| <= TotalRows ==> 0 <= avg.value <= 100
  {
    var grades := Numerics(CourseGrades(records, draws));
    assert InRange(grades, 0, 100);
    Average(grades)
  }

  /** Dividing by 25 whatever the count is the mean of the grades padded to
      25 entries with zeros: a missing course counts as a zero. */
  lemma AverageCountsMissingAsZero(grades: seq<int>)
    requires 0 < |grades| <= TotalRows
    ensures Average(grades) == Some(Round(Sum(grades + Zeros(TotalRows - |grades|)) as real / TotalRows as real))
  {
    var z := Zeros(TotalRows - |grades|);
    SumAppend(grades, z);
    SumZeros(TotalRows - |grades|);
    assert Sum(grades + z) == Sum(grades);
  }

  /** `remainingRows`: blank rows up to 25, none once the courses fill it. */
  function EmptyRowCount(count: nat): (r: nat)
    ensures count <= TotalRows ==> count + r == TotalRows
    ensures count >= TotalRows ==> r == 0
  {
    if TotalRows - count > 0 then TotalRows - count else 0
  }

  /** The thesis row is shown whenever there are at most 25 courses; the
      student's thesis credits play no part. */
  predicate ShowsThesisRow(count: nat) {
    count < TotalRows + 1
  }

  predicate InInduction(c: Course) { NameIn(c.name, InductionCourses) }
  predicate InMaestriaBasic(c: Course) { NameIn(c.name, MaestriaBasicCourses) }
  predicate InProfessional(c: Course) { NameIn(c.name, ProfessionalCourses) }
  predicate InSpecialization(c: Course) { NameIn(c.name, SpecializationCourses) }

  /** The four groups in display order, all selected by catalog name. */
  function Groups(courses: seq<Course>): (g: seq<seq<Course>>)
    ensures |g| == 4
    ensures g[3] == []
  {
    CatalogShape();
    FilterNonePass(courses, InSpecialization);
    [ Filter(courses, InInduction), Filter(courses, InMaestriaBasic),
      Filter(courses, InProfessional), Filter(courses, InSpecialization) ]
  }

  function Shown(courses: seq<Course>): seq<Course> {
    var g := Groups(courses);
    g[0] + g[1] + g[2] + g[3]
  }

  /** A course appears exactly when its name is in the induction, Maestría
      basic or professional catalog; the specialization group stays empty. */
  lemma ShownMembers(courses: seq<Course>)
    ensures forall c :: c in Shown(courses) <==>
      c in courses && (InInduction(c) || InMaestriaBasic(c) || InProfessional(c))
  {
    FilterMembers(courses, InInduction);
    FilterMembers(courses, InMaestriaBasic);
    FilterMembers(courses, InProfessional);
    assert Groups(courses)[3] == [];
  }

  datatype Row =
    | CourseRow(no: nat, course: Course, grade: Grade)
    | ThesisRow(no: nat, grade: Grade)
    | EmptyRow(no: nat)

  /** What the body shows, numbering aside: the shown courses in group
      order, each with the first grade recorded under its name; then the
      thesis row with an A grade whenever at most 25 courses are listed;
      then blank rows. */
  predicate RowsShape(rows: seq<Row>, records: seq<Course>, draws: seq<real>, thesisDraw: real)
    requires |draws| == |records| && ValidDraws(draws) && 0.0 <= thesisDraw < 1.0
  {
    var shown := Shown(records);
    var t := if ShowsThesisRow(|records|) then 1 else 0;
    && |rows| == |shown| + t + EmptyRowCount(|records|)
    && (forall i :: 0 <= i < |shown| ==>
          rows[i].CourseRow? && rows[i].course == shown[i]
          && rows[i].grade == DisplayGrade(CourseGrades(records, draws), shown[i].name))
    && (ShowsThesisRow(|records|) ==>
          rows[|shown|].ThesisRow? && rows[|shown|].grade == DrawGrade(thesisDraw, 83, 100))
    && (forall i :: |shown| + t <= i < |rows| ==> rows[i].EmptyRow?)
  }

  /** The table body as the component numbers it: the first blank row is
      numbered after the thesis row only when the student has thesis
      credits, although the thesis row is shown whenever it fits. */
  function RowsAsWritten(student: Student, records: seq<Course>, draws: seq<real>, thesisDraw: real): (rows: seq<Row>)
    requires |draws| == |records| && ValidDraws(draws) && 0.0 <= thesisDraw < 1.0
    ensures |rows| == |Shown(records)| + (if ShowsThesisRow(|records|) then 1 else 0) + EmptyRowCount(|records|)
    ensures RowsShape(rows, records, draws, thesisDraw)
    ensures forall i :: |Shown(records)| + (if ShowsThesisRow(|records|) then 1 else 0) <= i < |rows| ==>
      rows[i].no == i + 1 + (if student.thesisCredits > 0.0 then 1 else 0) - (if ShowsThesisRow(|records|) then 1 else 0)
  {
    var shown := Shown(records);
    var grades := CourseGrades(records, draws);
    var courseRows := seq(|shown|, i requires 0 <= i < |shown| =>
      CourseRow(i + 1, shown[i], DisplayGrade(grades, shown[i].name)));
    var thesisRows := if ShowsThesisRow(|records|) then [ThesisRow(|shown| + 1, DrawGrade(thesisDraw, 83, 100))] else [];
    var offset := |shown| + (if student.thesisCredits > 0.0 then 1 else 0);
    var emptyRows := seq(EmptyRowCount(|records|), (i: int) requires 0 <= i => EmptyRow(offset + i + 1));
    courseRows + thesisRows + emptyRows
  }

  /** A student without thesis credits and without courses gets a thesis row
      and a first blank row that are both numbered 1. */
  lemma RowsAsWrittenRepeatNumber(student: Student, thesisDraw: real)
    requires student.thesisCredits == 0.0 && 0.0 <= thesisDraw < 1.0
    ensures RowsAsWritten(student, [], [], thesisDraw)[0].no == 1
    ensures RowsAsWritten(student, [], [], thesisDraw)[1].no == 1
  {
    assert Shown([]) == [];
    var rows := RowsAsWritten(student, [], [], thesisDraw);
    assert rows[0] == ThesisRow(1, DrawGrade(thesisDraw, 83, 100));
  }

  /** The table body with the blank rows numbered after the thesis row
      whenever that row is shown. */
  function Rows(records: seq<Course>, draws: seq<real>, thesisDraw: real): (rows: seq<Row>)
    requires |draws| == |records| && ValidDraws(draws) && 0.0 <= thesisDraw < 1.0
    ensures |rows| == |Shown(records)| + (if ShowsThesisRow(|records|) then 1 else 0) + EmptyRowCount(|records|)
    ensures RowsShape(rows, records, draws, thesisDraw)
    ensures forall i :: 0 <= i < |rows| ==> rows[i].no == i + 1
  {
    var shown := Shown(records);
    var grades := CourseGrades(records, draws);
    var courseRows := seq(|shown|, i requires 0 <= i < |shown| =>
      CourseRow(i + 1, shown[i], DisplayGrade(grades, shown[i].name)));
    var thesisRows := if ShowsThesisRow(|records|) then [ThesisRow(|shown| + 1, DrawGrade(thesisDraw, 83, 100))] else [];
    var offset := |shown| + |thesisRows|;
    var emptyRows := seq(EmptyRowCount(|records|), (i: int) requires 0 <= i => EmptyRow(offset + i + 1));
    courseRows + thesisRows + emptyRows
  }

  /** The corrected body differs from the body as written only in the
      numbers of the blank rows, and not at all for a student with thesis
      credits. */
  lemma RowsDifferOnlyInBlankNumbers(student: Student, records: seq<Course>, draws: seq<real>, thesisDraw: real)
    requires |draws| == |records| && ValidDraws(draws) && 0.0 <= thesisDraw < 1.0
    ensures |Rows(records, draws, thesisDraw)| == |RowsAsWritten(student, records, draws, thesisDraw)|
    ensures forall i :: 0 <= i < |Rows(records, draws, thesisDraw)| ==>
      var r := Rows(records, draws, thesisDraw)[i];
      var w := RowsAsWritten(student, records, draws, thesisDraw)[i];
      (r.EmptyRow? <==> w.EmptyRow?) && (!r.EmptyRow? ==> r == w)
    ensures student.thesisCredits > 0.0 ==> Rows(records, draws, thesisDraw) == RowsAsWritten(student, records, draws, thesisDraw)
  {
    var r := Rows(records, draws, thesisDraw);
    var w := RowsAsWritten(student, records, draws, thesisDraw);
    var shown := Shown(records);
    var t := if ShowsThesisRow(|records|) then 1 else 0;
    forall i | 0 <= i < |r| && !r[i].EmptyRow?
      ensures r[i] == w[i]
    {
      if i < |shown| {
        assert r[i] == CourseRow(i + 1, shown[i], DisplayGrade(CourseGrades(records, draws), shown[i].name));
      }
    }
    if student.thesisCredits > 0.0 {
      forall i | 0 <= i < |r| ensures r[i] == w[i] {
        if |shown| + t <= i {
          assert t == 1 || EmptyRowCount(|records|) == 0;
        }
      }
    }
  }

  /** The thesis row's grade is always in [83, 100], an A. */
  lemma ThesisRowGrade(records: seq<Course>, draws: seq<real>, thesisDraw: real)
    requires |draws| == |records| && ValidDraws(draws) && 0.0 <= thesisDraw < 1.0
    requires ShowsThesisRow(|records|)
    ensures Rows(records, draws, thesisDraw)[|Shown(records)|].ThesisRow?
    ensures 83 <= Rows(records, draws, thesisDraw)[|Shown(records)|].grade.numeric <= 100
    ensures Rows(records, draws, thesisDraw)[|Shown(records)|].grade.details.alphabetic == A
  {
  }
}
