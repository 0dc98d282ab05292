/** The student list's search and tier filter and the specialization upload
    it starts (src/components/dashboard/student-selector.tsx). */
module StudentSelector {
  import opened Wrappers
  import opened Text
  import opened Seqs
  import opened AcademicData

  /** `GradeLevelFilter`. */
  datatype LevelFilter = FilterLicenciatura | FilterMaestria | FilterDoctorado | Todos

  function FilterText(f: LevelFilter): string {
    match f
    case FilterLicenciatura => "Licenciatura"
    case FilterMaestria => "Maestria"
    case FilterDoctorado => "Doctorado"
    case Todos => "Todos"
  }

  predicate MatchesSearch(s: Student, term: string) {
    var t := ToLower(term);
    Contains(ToLower(s.firstName), t) || Contains(ToLower(s.lastName), t) || Contains(ToLower(s.studentId), t)
  }

  predicate MatchesLevel(s: Student, f: LevelFilter) {
    f == Todos || Contains(ToLower(s.gradeLevel), ToLower(FilterText(f)))
  }

  /** `filteredStudents`. */
  function FilteredStudents(students: seq<Student>, term: string, f: LevelFilter): (r: seq<Student>)
    ensures |r| <= |students|
  {
    Filter(students, (s: Student) => MatchesSearch(s, term) && MatchesLevel(s, f))
  }

  /** The list shows, in roster order, exactly the students matching both
      the search term and the tier filter. */
  lemma FilteredStudentsExactly(students: seq<Student>, term: string, f: LevelFilter) returns (idx: seq<nat>)
    ensures |idx| == |FilteredStudents(students, term, f)| && StrictlyIncreasing(idx)
    ensures forall i :: 0 <= i < |idx| ==>
      idx[i] < |students| && FilteredStudents(students, term, f)[i] == students[idx[i]]
    ensures forall j :: 0 <= j < |students| ==>
      (MatchesSearch(students[j], term) && MatchesLevel(students[j], f) <==> j in idx)
  {
    idx := FilterPositions(students, (s: Student) => MatchesSearch(s, term) && MatchesLevel(s, f));
  }

  lemma ContainsEmpty(s: string)
    ensures Contains(s, "")
  {
    assert "" <= s[0..];
  }

  /** With an empty search term and the 'Todos' filter every student is
      listed. */
  lemma EmptySearchListsAll(students: seq<Student>)
    ensures FilteredStudents(students, "", Todos) == students
  {
    forall i | 0 <= i < |students|
      ensures MatchesSearch(students[i], "")
    {
      assert ToLower("") == "";
      ContainsEmpty(ToLower(students[i].firstName));
    }
    FilterAllPass(students, (s: Student) => MatchesSearch(s, "") && MatchesLevel(s, Todos));
  }

  /** The 'Doctorado' filter also passes Posdoctorado students. */
  lemma DoctoradoFilterPassesPosdoctorado(s: Student)
    requires Contains(ToLower(s.gradeLevel), "posdoctorado")
    ensures MatchesLevel(s, FilterDoctorado)
  {
    assert ToLower("Doctorado") == "doctorado";
    assert "doctorado" <= "posdoctorado"[3..];
    ContainsTransitive(ToLower(s.gradeLevel), "posdoctorado", "doctorado");
  }

  const SpecPrefixLicenciatura := "especializacion licenciatura"
  const SpecPrefixMaestria := "especializacion maestria"
  const SpecPrefixDoctorado := "especializacion doctorado"

  /** The specialization file-name check: the lower-cased, accent-stripped
      name must start with one of three prefixes; any other name is rejected
      and nothing is uploaded. The técnico key is never produced. */
  function SpecFileKey(fileName: string): (k: Option<SpecKey>)
    ensures k != Some(SpecTecnico)
    ensures k == Some(SpecLicenciatura) <==> StartsWith(Fold(fileName), SpecPrefixLicenciatura)
    ensures k == Some(SpecMaestria) <==> StartsWith(Fold(fileName), SpecPrefixMaestria)
    ensures k == Some(SpecDoctorado) <==> StartsWith(Fold(fileName), SpecPrefixDoctorado)
    ensures k.None? <==>
      !StartsWith(Fold(fileName), SpecPrefixLicenciatura) && !StartsWith(Fold(fileName), SpecPrefixMaestria)
      && !StartsWith(Fold(fileName), SpecPrefixDoctorado)
  {
    var f := Fold(fileName);
    SpecPrefixesDisjoint(f);
    if StartsWith(f, SpecPrefixLicenciatura) then Some(SpecLicenciatura)
    else if StartsWith(f, SpecPrefixMaestria) then Some(SpecMaestria)
    else if StartsWith(f, SpecPrefixDoctorado) then Some(SpecDoctorado)
    else None
  }

  /** No name starts with two of the prefixes: they differ at position 16. */
  lemma SpecPrefixesDisjoint(f: string)
    ensures !(StartsWith(f, SpecPrefixLicenciatura) && StartsWith(f, SpecPrefixMaestria))
    ensures !(StartsWith(f, SpecPrefixLicenciatura) && StartsWith(f, SpecPrefixDoctorado))
    ensures !(StartsWith(f, SpecPrefixMaestria) && StartsWith(f, SpecPrefixDoctorado))
  {
    assert SpecPrefixLicenciatura[16] == 'l';
    assert SpecPrefixMaestria[16] == 'm';
    assert SpecPrefixDoctorado[16] == 'd';
  }

  /** A row of the specialization sheet; an absent name is "". */
  datatype SpecRow = SpecRow(name: string)

  /** One catalog entry per sheet row: the row's name, with 5.4 credits. */
  function SpecRowsToCourses(rows: seq<SpecRow>): (courses: seq<CourseTemplate>)
    ensures |courses| == |rows|
    ensures forall i :: 0 <= i < |rows| ==> courses[i] == CourseTemplate(rows[i].name, 5.4)
  {
    seq(|rows|, i requires 0 <= i < |rows| => CourseTemplate(rows[i].name, 5.4))
  }
}
