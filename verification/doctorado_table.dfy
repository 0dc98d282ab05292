/** The doctoral academic-record table
    (src/components/dashboard/doctorado-record-table.tsx): which courses it
    lists and in which groups, the synthesized 80-100 grades, the
    hours/credits per course, the 24-row layout and the padded average. */
module DoctoradoTable {
  import opened Wrappers
  import opened Text
  import opened Seqs
  import opened AcademicData
  import opened GradeScale

  const TotalRows := 24
  const HorasLectivas := 1230
  const TotalCredits := 123.0
  const ThesisName := "tesis de graduación"
  const GradeLow := 80
  const GradeHigh := 100

  predicate IsThesisName(name: string) {
    ToLower(name) == ThesisName
  }

  predicate IsSpecialization(c: Course) {
    StartsWith(c.id, "spec-")
  }

  /** `studentCourses`: the records without the thesis course. */
  function StudentCourses(records: seq<Course>): (r: seq<Course>)
    ensures |r| <= |records|
  {
    Filter(records, (c: Course) => !IsThesisName(c.name))
  }

  /** A record is listed exactly when its lower-cased name is not the thesis
      name, and the listed records keep their order. */
  lemma StudentCoursesKeep(records: seq<Course>) returns (idx: seq<nat>)
    ensures forall c :: c in StudentCourses(records) <==> c in records && !IsThesisName(c.name)
    ensures |idx| == |StudentCourses(records)| && StrictlyIncreasing(idx)
    ensures forall i :: 0 <= i < |idx| ==> idx[i] < |records| && StudentCourses(records)[i] == records[idx[i]]
  {
    FilterMembers(records, (c: Course) => !IsThesisName(c.name));
    idx := FilterPositions(records, (c: Course) => !IsThesisName(c.name));
  }

  /** The capitalised thesis course produced elsewhere in the application
      is the one the filter removes. */
  lemma ThesisCourseExcluded()
    ensures IsThesisName("Tesis de Graduación")
    ensures !IsThesisName("Tesis")
  {
    assert ToLower("Tesis de Graduación") == ThesisName;
  }

  /** One row is reserved for the thesis when the student has thesis credits. */
  function ThesisRowCount(student: Student): (n: nat)
    ensures n <= 1 && (n == 1 <==> student.thesisCredits > 0.0)
  {
    if student.thesisCredits > 0.0 then 1 else 0
  }

  /** `remainingRows`: the blank rows that fill the table up to 24. */
  function RemainingRows(count: nat, student: Student): (r: nat)
    ensures count + ThesisRowCount(student) <= TotalRows ==> count + ThesisRowCount(student) + r == TotalRows
    ensures count + ThesisRowCount(student) >= TotalRows ==> r == 0
  {
    var n := TotalRows - count - ThesisRowCount(student);
    if n > 0 then n else 0
  }

  /** `horasPromedio`: the 1230 programme hours spread over the listed
      courses, rounded; a table without courses divides by one. */
  function HorasPromedio(count: nat): (h: int)
    ensures count == 0 ==> h == HorasLectivas
    ensures count > 0 ==> (h as real - 0.5) * count as real <= HorasLectivas as real < (h as real + 0.5) * count as real
  {
    var divisor := if count > 0 then count else 1;
    var x := HorasLectivas as real / divisor as real;
    var h := Round(x);
    ScaleBounds(h as real - 0.5, x, h as real + 0.5, HorasLectivas as real, divisor as real);
    h
  }

  /** Bounds on a quotient `n / d` give bounds on `n`. */
  lemma ScaleBounds(lo: real, x: real, hi: real, n: real, d: real)
    requires d > 0.0 && x == n / d && lo <= x < hi
    ensures lo * d <= n < hi * d
  {
    assert x * d == n;
    var below := x - lo;
    var above := hi - x;
    assert below * d >= 0.0;
    assert above * d > 0.0;
    assert x * d - lo * d == below * d;
    assert hi * d - x * d == above * d;
  }

  /** `creditosPromedio`: the 123 programme credits spread over the listed
      courses; with no course the table shows 0.00. */
  function CreditosPromedio(count: nat): (c: real)
    ensures count == 0 ==> c == 0.0
    ensures count > 0 ==> c * count as real == TotalCredits
  {
    if count > 0 then TotalCredits / count as real else 0.0
  }

  /** The grades the table's effect computes: one draw in [80, 100] per
      listed course, paired with the course name. */
  function CourseGrades(courses: seq<Course>, draws: seq<real>): (g: seq<(string, int)>)
    requires |draws| == |courses| && ValidDraws(draws)
    ensures |g| == |courses|
    ensures forall i :: 0 <= i < |g| ==> g[i].0 == courses[i].name && GradeLow <= g[i].1 <= GradeHigh
  {
    seq(|courses|, i requires 0 <= i < |courses| => (courses[i].name, RandomInt(draws[i], GradeLow, GradeHigh)))
  }

  /** Every listed course shows a grade in [80, 100]: an A or a B, EXCELENTE
      or BUENO. */
  lemma DisplayedCourseGrade(courses: seq<Course>, draws: seq<real>, c: Course)
    requires |draws| == |courses| && ValidDraws(draws) && c in courses
    ensures GradeLow <= DisplayGrade(CourseGrades(courses, draws), c.name).numeric <= GradeHigh
    ensures DisplayGrade(CourseGrades(courses, draws), c.name).details.alphabetic in {A, B}
    ensures DisplayGrade(CourseGrades(courses, draws), c.name).details.systemE in {Excelente, Bueno}
  {
    var grades := CourseGrades(courses, draws);
    var i :| 0 <= i < |courses| && courses[i] == c;
    assert grades[i].0 == c.name;
  }

  /** The grades averaged: the course grades, then the thesis grade when
      there is one. */
  function AverageInputs(grades: seq<int>, thesis: Option<int>): seq<int> {
    grades + (if thesis.Some? then [thesis.value] else [])
  }

  /** The average as a closed formula: the first 24 inputs summed and
      divided by 24; missing inputs count as zero. */
  function ReferenceAverage(inputs: seq<int>): int {
    var k := if |inputs| < TotalRows then |inputs| else TotalRows;
    Round(Sum(inputs[..k]) as real / TotalRows as real)
  }

  predicate InGradeRange(s: seq<int>) {
    forall i :: 0 <= i < |s| ==> 0 <= s[i] <= 100
  }

  /** The table's average: append the thesis grade, pad with zeros to 24
      entries, keep the first 24, sum and round the mean. */
  method PaddedAverage(grades: seq<int>, thesis: Option<int>) returns (avg: int)
    ensures avg == ReferenceAverage(AverageInputs(grades, thesis))
    ensures InGradeRange(AverageInputs(grades, thesis)) ==> 0 <= avg <= 100
  {
    var inputs := AverageInputs(grades, thesis);
    var padded := inputs;
    while |padded| < TotalRows
      invariant |padded| >= |inputs|
      invariant padded == inputs + Zeros(|padded| - |inputs|)
      invariant |inputs| < TotalRows ==> |padded| <= TotalRows
      decreases TotalRows - |padded|
    {
      padded := padded + [0];
      assert Zeros(|padded| - |inputs|) == Zeros(|padded| - 1 - |inputs|) + [0];
    }
    var total := 0;
    var i := 0;
    while i < TotalRows
      invariant 0 <= i <= TotalRows
      invariant total == Sum(padded[..i])
    {
      assert padded[..i + 1] == padded[..i] + [padded[i]];
      total := total + padded[i];
      i := i + 1;
    }
    PaddedPrefixSum(inputs, padded);
    avg := Round(total as real / TotalRows as real);
    if InGradeRange(inputs) {
      var k := if |inputs| < TotalRows then |inputs| else TotalRows;
      SumBounds(inputs[..k], 0, 100);
    }
  }

  lemma PaddedPrefixSum(inputs: seq<int>, padded: seq<int>)
    requires |padded| >= TotalRows && |padded| >= |inputs|
    requires padded == inputs + Zeros(|padded| - |inputs|)
    requires |inputs| < TotalRows ==> |padded| == TotalRows
    ensures Sum(padded[..TotalRows]) == Sum(inputs[..if |inputs| < TotalRows then |inputs| else TotalRows])
  {
    if |inputs| < TotalRows {
      assert padded[..TotalRows] == padded;
      assert inputs[..|inputs|] == inputs;
      SumAppend(inputs, Zeros(|padded| - |inputs|));
      SumZeros(|padded| - |inputs|);
    } else {
      assert padded[..TotalRows] == inputs[..TotalRows];
    }
  }

  predicate InInduction(c: Course) { NameIn(c.name, InductionCourses) }
  predicate InDoctoradoBasic(c: Course) { NameIn(c.name, DoctoradoBasicCourses) }
  predicate InDoctoradoProfessional(c: Course) { NameIn(c.name, DoctoradoProfessionalCourses) }

  /** The four groups in display order: induction, basic, professional
      electives (by catalog name), specialization electives (by id). */
  function Groups(courses: seq<Course>): (g: seq<seq<Course>>)
    ensures |g| == 4
  {
    [ Filter(courses, InInduction), Filter(courses, InDoctoradoBasic),
      Filter(courses, InDoctoradoProfessional), Filter(courses, IsSpecialization) ]
  }

  function Shown(courses: seq<Course>): seq<Course> {
    var g := Groups(courses);
    g[0] + g[1] + g[2] + g[3]
  }

  /** A course appears in the table exactly when it is listed and its name
      is in one of the three doctoral catalogs or its id marks it as a
      specialization elective. */
  lemma ShownMembers(courses: seq<Course>)
    ensures forall c :: c in Shown(courses) <==>
      c in courses && (InInduction(c) || InDoctoradoBasic(c) || InDoctoradoProfessional(c) || IsSpecialization(c))
  {
    FilterMembers(courses, InInduction);
    FilterMembers(courses, InDoctoradoBasic);
    FilterMembers(courses, InDoctoradoProfessional);
    FilterMembers(courses, IsSpecialization);
  }

  datatype Row =
    | CourseRow(no: nat, course: Course, hours: int, grade: Grade, credits: real)
    | ThesisRow(no: nat, grade: Grade, credits: real)
    | EmptyRow(no: nat)

  /** What the body shows for the listed courses: row i of the first |shown|
      rows is shown course i, numbered i + 1, with the average hours, the
      first grade recorded under its name and the average credits; the
      thesis row follows exactly when the student has thesis credits and a
      grade; every later row is blank. */
  predicate RowsShape(rows: seq<Row>, student: Student, listed: seq<Course>, draws: seq<real>, thesisGrade: Option<Grade>)
    requires |draws| == |listed| && ValidDraws(draws)
  {
    var shown := Shown(listed);
    var thesis := student.thesisCredits > 0.0 && thesisGrade.Some?;
    && |rows| >= |shown|
    && (forall i :: 0 <= i < |shown| ==>
          rows[i] == CourseRow(i + 1, shown[i], HorasPromedio(|listed|),
                               DisplayGrade(CourseGrades(listed, draws), shown[i].name), CreditosPromedio(|listed|)))
    && (thesis ==> |rows| > |shown| && rows[|shown|] == ThesisRow(|shown| + 1, thesisGrade.value, student.thesisCredits))
    && (forall i :: |shown| <= i < |rows| ==> (rows[i].ThesisRow? <==> thesis && i == |shown|))
    && (forall i :: |shown| <= i < |rows| && !rows[i].ThesisRow? ==> rows[i].EmptyRow?)
  }

  /** The rows of the table body, numbered as the component numbers them. */
  function Rows(student: Student, records: seq<Course>, draws: seq<real>, thesisGrade: Option<Grade>): (rows: seq<Row>)
    requires |draws| == |StudentCourses(records)| && ValidDraws(draws)
    ensures |rows| == |Shown(StudentCourses(records))|
      + (if student.thesisCredits > 0.0 && thesisGrade.Some? then 1 else 0)
      + RemainingRows(|StudentCourses(records)|, student)
    ensures RowsShape(rows, student, StudentCourses(records), draws, thesisGrade)
  {
    var listed := StudentCourses(records);
    BodyShape(student, listed, draws, thesisGrade);
    Body(student, listed, draws, thesisGrade)
  }

  function CourseRows(listed: seq<Course>, draws: seq<real>): (rows: seq<Row>)
    requires |draws| == |listed| && ValidDraws(draws)
  {
    var shown := Shown(listed);
    var grades := CourseGrades(listed, draws);
    seq(|shown|, i requires 0 <= i < |shown| =>
      CourseRow(i + 1, shown[i], HorasPromedio(|listed|), DisplayGrade(grades, shown[i].name), CreditosPromedio(|listed|)))
  }

  function ThesisRows(student: Student, first: nat, thesisGrade: Option<Grade>): seq<Row> {
    if student.thesisCredits > 0.0 && thesisGrade.Some?
    then [ThesisRow(first, thesisGrade.value, student.thesisCredits)]
    else []
  }

  function EmptyRows(count: nat, offset: nat): seq<Row> {
    seq(count, (i: int) requires 0 <= i => EmptyRow(offset + i + 1))
  }

  /** The course rows, the thesis row and the blank rows, in that order. */
  function Body(student: Student, listed: seq<Course>, draws: seq<real>, thesisGrade: Option<Grade>): seq<Row>
    requires |draws| == |listed| && ValidDraws(draws)
  {
    var shown := Shown(listed);
    CourseRows(listed, draws) + ThesisRows(student, |shown| + 1, thesisGrade)
      + EmptyRows(RemainingRows(|listed|, student), |shown| + ThesisRowCount(student))
  }

  lemma BodyShape(student: Student, listed: seq<Course>, draws: seq<real>, thesisGrade: Option<Grade>)
    requires |draws| == |listed| && ValidDraws(draws)
    ensures RowsShape(Body(student, listed, draws, thesisGrade), student, listed, draws, thesisGrade)
  {
    var shown := Shown(listed);
    var c := CourseRows(listed, draws);
    var t := ThesisRows(student, |shown| + 1, thesisGrade);
    var e := EmptyRows(RemainingRows(|listed|, student), |shown| + ThesisRowCount(student));
    var rows := Body(student, listed, draws, thesisGrade);
    assert rows == c + t + e;
    forall i | 0 <= i < |shown| ensures rows[i] == c[i] { }
    forall i | |shown| <= i < |rows|
      ensures rows[i] == if i < |shown| + |t| then t[i - |shown|] else e[i - |shown| - |t|]
    { }
  }

  /** With the thesis grade present exactly when the student has thesis
      credits (as the dashboard supplies it), the rows are numbered 1, 2, 3,
      ... without a gap. */
  lemma RowsNumberedConsecutively(student: Student, records: seq<Course>, draws: seq<real>, thesisGrade: Option<Grade>)
    requires |draws| == |StudentCourses(records)| && ValidDraws(draws)
    requires student.thesisCredits > 0.0 <==> thesisGrade.Some?
    ensures forall i :: 0 <= i < |Rows(student, records, draws, thesisGrade)| ==>
      Rows(student, records, draws, thesisGrade)[i].no == i + 1
  {
  }

  /** When every listed course falls in exactly one group and the courses
      and the thesis fit, the table has exactly 24 rows. */
  lemma RowsFillTable(student: Student, records: seq<Course>, draws: seq<real>, thesisGrade: Option<Grade>)
    requires |draws| == |StudentCourses(records)| && ValidDraws(draws)
    requires student.thesisCredits > 0.0 <==> thesisGrade.Some?
    requires |Shown(StudentCourses(records))| == |StudentCourses(records)|
    requires |StudentCourses(records)| + ThesisRowCount(student) <= TotalRows
    ensures |Rows(student, records, draws, thesisGrade)| == TotalRows
  {
  }
}
