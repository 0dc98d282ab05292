/** The spreadsheet import of the upload screen
    (src/components/dashboard/file-uploader.tsx, `handleFileChange`): the
    file-name check, the header normalisation, the student records built
    from the first sheet, the catalog courses every student receives and
    the graded courses read from the second sheet.

    A workbook is its list of sheets; a sheet is its list of data rows; a
    row is its list of (header, cell) pairs in column order, every cell
    already rendered as text (the reader fills empty cells with ""). */
module Importer {
  import opened Wrappers
  import opened Text
  import opened Seqs
  import opened AcademicData
  import opened Shuffle

  /** The button the user pressed: which kind of file is being uploaded. */
  datatype Tier = Licenciatura | Maestria | Doctorado | Tecnico | Posdoctorado

  /** The `GradeLevel` string the tier is stored as. */
  function TierLabel(t: Tier): string {
    match t
    case Licenciatura => "Licenciatura"
    case Maestria => "Maestria"
    case Doctorado => "Doctorado"
    case Tecnico => "Técnico"
    case Posdoctorado => "Posdoctorado"
  }

  lemma TierLabelsDistinct(a: Tier, b: Tier)
    ensures TierLabel(a) == TierLabel(b) <==> a == b
  {
    if a != b {
      assert TierLabel(a)[0] != TierLabel(b)[0] || |TierLabel(a)| != |TierLabel(b)|;
    }
  }

  // ---------------------------------------------------------------------
  // The file-name check
  // ---------------------------------------------------------------------

  /** The word the error message asks for. */
  function ExpectedKeyword(t: Tier): string {
    match t
    case Licenciatura => "licenciatura"
    case Maestria => "maestria"
    case Doctorado => "doctorado"
    case Tecnico => "tecnico"
    case Posdoctorado => "posdoctorado"
  }

  /** The lower-cased, accent-stripped file name must mention the tier; a
      Posdoctorado file may also say "pos doctorado" or "postdoctorado". */
  predicate FileNameAccepted(t: Tier, fileName: string) {
    var f := Fold(fileName);
    match t
    case Posdoctorado =>
      Contains(f, "posdoctorado") || Contains(f, "pos doctorado") || Contains(f, "postdoctorado")
    case _ => Contains(f, ExpectedKeyword(t))
  }

  /** Whatever is accepted as a Posdoctorado file is accepted as a Doctorado
      file too: each accepted spelling contains "doctorado". */
  lemma PosdoctoradoFileIsDoctoradoFile(fileName: string)
    requires FileNameAccepted(Posdoctorado, fileName)
    ensures FileNameAccepted(Doctorado, fileName)
  {
    var f := Fold(fileName);
    DoctoradoInPosdoctoradoSpellings();
    if Contains(f, "posdoctorado") {
      ContainsTransitive(f, "posdoctorado", "doctorado");
    } else if Contains(f, "pos doctorado") {
      ContainsTransitive(f, "pos doctorado", "doctorado");
    } else {
      ContainsTransitive(f, "postdoctorado", "doctorado");
    }
  }

  lemma DoctoradoInPosdoctoradoSpellings()
    ensures Contains("posdoctorado", "doctorado")
    ensures Contains("pos doctorado", "doctorado")
    ensures Contains("postdoctorado", "doctorado")
  {
    assert "doctorado" <= "posdoctorado"[3..];
    assert "doctorado" <= "pos doctorado"[4..];
    assert "doctorado" <= "postdoctorado"[4..];
  }

  // ---------------------------------------------------------------------
  // Header normalisation and row lookup
  // ---------------------------------------------------------------------

  /** `normalizeKey`: trimmed, lower-cased, accents stripped, ñ turned into
      n and all whitespace removed; the empty header stays empty. */
  function NormalizeKey(key: string): (r: string)
    ensures forall i :: 0 <= i < |r| ==> !IsWhitespace(r[i]) && !IsUpper(r[i])
    ensures forall i :: 0 <= i < |r| ==> !IsAccented(r[i]) && !IsCombiningMark(r[i])
    ensures |r| <= |key|
  {
    NormalizedCharacters(key);
    if key == "" then "" else RemoveWhitespace(ReplaceChar(StripAccents(ToLower(Trim(key))), 'ñ', 'n'))
  }

  /** After accent stripping no ñ is left, so what survives the whitespace
      removal is a lower-case letter without accents. */
  lemma NormalizedCharacters(key: string)
    ensures var r := RemoveWhitespace(ReplaceChar(StripAccents(ToLower(Trim(key))), 'ñ', 'n'));
      && |r| <= |key|
      && forall i :: 0 <= i < |r| ==> !IsWhitespace(r[i]) && !IsUpper(r[i]) && !IsAccented(r[i]) && !IsCombiningMark(r[i])
  {
    var s := StripAccents(ToLower(Trim(key)));
    var t := ReplaceChar(s, 'ñ', 'n');
    assert t == s by {
      forall i | 0 <= i < |s| ensures t[i] == s[i] {
        assert !IsAccented(s[i]);
      }
    }
    var r := RemoveWhitespace(t);
    assert forall i :: 0 <= i < |r| ==> r[i] in s;
  }

  /** A key already trimmed of whitespace, lower-cased and free of accents
      is left as it is. */
  lemma CleanKeyFixed(r: string)
    requires forall i :: 0 <= i < |r| ==> !IsWhitespace(r[i]) && !IsUpper(r[i])
    requires forall i :: 0 <= i < |r| ==> !IsAccented(r[i]) && !IsCombiningMark(r[i])
    ensures NormalizeKey(r) == r
  {
    if r != "" {
      assert Trim(r) == r;
      assert ToLower(r) == r;
      assert StripAccents(r) == r;
      NoEnye(r);
      assert RemoveWhitespace(r) == r;
    }
  }

  /** A string without accented letters has no ñ to replace. */
  lemma NoEnye(r: string)
    requires forall i :: 0 <= i < |r| ==> !IsAccented(r[i])
    ensures ReplaceChar(r, 'ñ', 'n') == r
  {
    forall i | 0 <= i < |r| ensures ReplaceChar(r, 'ñ', 'n')[i] == r[i] {
      assert !IsAccented(r[i]);
    }
  }

  /** A normalised header normalises to itself. */
  lemma NormalizeKeyIdempotent(key: string)
    ensures NormalizeKey(NormalizeKey(key)) == NormalizeKey(key)
  {
    CleanKeyFixed(NormalizeKey(key));
  }

  type SheetRow = seq<(string, string)>
  type Sheet = seq<SheetRow>
  type Workbook = seq<Sheet>

  /** The row with every header normalised. */
  function NormalizeHeaders(row: SheetRow): (r: SheetRow)
    ensures |r| == |row|
    ensures forall i :: 0 <= i < |row| ==> r[i] == (NormalizeKey(row[i].0), row[i].1)
  {
    seq(|row|, i requires 0 <= i < |row| => (NormalizeKey(row[i].0), row[i].1))
  }

  /** Copying key/value pairs into an object, in order: a later pair
      overwrites an earlier one with the same key. */
  function Assign(pairs: seq<(string, string)>): map<string, string> {
    if pairs == [] then map[]
    else Assign(pairs[..|pairs| - 1])[pairs[|pairs| - 1].0 := pairs[|pairs| - 1].1]
  }

  /** The lookup object built by copying the row under normalised headers,
      column by column. */
  function Lookup(row: SheetRow): map<string, string> {
    Assign(NormalizeHeaders(row))
  }

  /** The last pair with the key. */
  function LastWithKey(pairs: seq<(string, string)>, key: string): (j: Option<nat>)
    ensures j.Some? ==> j.value < |pairs| && pairs[j.value].0 == key
    ensures j.Some? ==> forall i :: j.value < i < |pairs| ==> pairs[i].0 != key
    ensures j.None? ==> forall i :: 0 <= i < |pairs| ==> pairs[i].0 != key
  {
    if pairs == [] then None
    else if pairs[|pairs| - 1].0 == key then Some(|pairs| - 1)
    else LastWithKey(pairs[..|pairs| - 1], key)
  }

  /** The last column whose header normalises to `key`. */
  function LastColumn(row: SheetRow, key: string): (j: Option<nat>)
    ensures j.Some? ==> j.value < |row| && NormalizeKey(row[j.value].0) == key
    ensures j.Some? ==> forall i :: j.value < i < |row| ==> NormalizeKey(row[i].0) != key
    ensures j.None? ==> forall i :: 0 <= i < |row| ==> NormalizeKey(row[i].0) != key
  {
    LastWithKey(NormalizeHeaders(row), key)
  }

  /** The object holds, under each key, the value of the last pair with
      that key. */
  lemma {:induction false} AssignIsLastWithKey(pairs: seq<(string, string)>, key: string)
    ensures key in Assign(pairs) <==> LastWithKey(pairs, key).Some?
    ensures key in Assign(pairs) ==> Assign(pairs)[key] == pairs[LastWithKey(pairs, key).value].1
  {
    if pairs != [] && pairs[|pairs| - 1].0 != key {
      AssignIsLastWithKey(pairs[..|pairs| - 1], key);
    }
  }

  /** The lookup holds, under each key, the cell of the last column whose
      header normalises to that key. */
  lemma LookupIsLastColumn(row: SheetRow, key: string)
    ensures key in Lookup(row) <==> LastColumn(row, key).Some?
    ensures key in Lookup(row) ==> Lookup(row)[key] == row[LastColumn(row, key).value].1
  {
    AssignIsLastWithKey(NormalizeHeaders(row), key);
  }

  /** Writing the headers already normalised reads the same lookup. */
  lemma LookupOfNormalizedHeaders(row: SheetRow)
    ensures Lookup(NormalizeHeaders(row)) == Lookup(row)
  {
    var norm := NormalizeHeaders(row);
    forall i | 0 <= i < |row|
      ensures NormalizeHeaders(norm)[i] == norm[i]
    {
      NormalizeKeyIdempotent(row[i].0);
    }
    assert NormalizeHeaders(norm) == norm;
  }

  /** The cell under `key`, or `None` where the source reads `undefined`. */
  function Raw(m: map<string, string>, key: string): Option<string> {
    if key in m then Some(m[key]) else None
  }

  /** A text cell with a fallback: an absent or empty cell yields the
      fallback. */
  function TextOr(m: map<string, string>, key: string, fallback: string): (r: string)
    ensures key in m && m[key] != "" ==> r == m[key]
    ensures key !in m || m[key] == "" ==> r == fallback
  {
    if key in m && m[key] != "" then m[key] else fallback
  }

  /** A numeric cell with a fallback: an absent or non-numeric cell (NaN)
      and zero both give the fallback. */
  function NumberOr(value: Option<string>, fallback: real): (r: real)
    ensures r != fallback ==> value.Some? && ParseNumber(value.value) == Some(r) && r != 0.0
    ensures value.Some? && ParseNumber(value.value).Some? && ParseNumber(value.value).value != 0.0
      ==> r == ParseNumber(value.value).value
  {
    match value
    case None => fallback
    case Some(s) =>
      match ParseNumber(s)
      case Some(x) => if x != 0.0 then x else fallback
      case None => fallback
  }

  // ---------------------------------------------------------------------
  // Students
  // ---------------------------------------------------------------------

  const SpanishGradeKeys: seq<string> :=
    ["sistemaespanoldenotas", "sistemaespanoldenotas_1", "sistemaespanoldenotas_2", "sistemaespanoldenotas_3"]

  /** The Spanish-system grade columns, in order, keeping the non-blank
      cells; an absent column reads as "". */
  function SpanishGrades(m: map<string, string>): (r: seq<string>)
    ensures |r| <= 4
    ensures forall i :: 0 <= i < |r| ==> !IsBlank(r[i])
  {
    FilterSatisfies(seq(4, i requires 0 <= i < 4 => TextOr(m, SpanishGradeKeys[i], "")), (s: string) => !IsBlank(s));
    Filter(seq(4, i requires 0 <= i < 4 => TextOr(m, SpanishGradeKeys[i], "")), (s: string) => !IsBlank(s))
  }

  /** Exactly the non-blank Spanish-grade cells are kept, in column order. */
  lemma SpanishGradesExactly(m: map<string, string>) returns (idx: seq<nat>)
    ensures |idx| == |SpanishGrades(m)| && StrictlyIncreasing(idx)
    ensures forall i :: 0 <= i < |idx| ==>
      idx[i] < 4 && SpanishGrades(m)[i] == TextOr(m, SpanishGradeKeys[idx[i]], "")
    ensures forall j :: 0 <= j < 4 ==> (!IsBlank(TextOr(m, SpanishGradeKeys[j], "")) <==> j in idx)
  {
    var cells := seq(4, i requires 0 <= i < 4 => TextOr(m, SpanishGradeKeys[i], ""));
    idx := FilterPositions(cells, (s: string) => !IsBlank(s));
  }

  function TempId(index: nat, now: nat): string {
    "temp-id-" + NatToString(index) + "-" + NatToString(now)
  }

  /** The thesis credits a student of `tier` gets when the sheet gives none. */
  function ThesisDefault(tier: Tier): real {
    if tier == Tecnico || tier == Posdoctorado then 10.0 else 0.0
  }

  /** The work-experience cell: the misspelt header's cell when it is
      non-empty, otherwise the correctly spelt one's. */
  function ExperienceCell(m: map<string, string>): Option<string> {
    if TextOr(m, "creditosporexpiritualaboral", "") != "" then Raw(m, "creditosporexpiritualaboral")
    else Raw(m, "creditosporexperiencialaboral")
  }

  /** The text fields every student card shows. */
  predicate TextFieldsFilled(s: Student) {
    && s.university != "" && s.school != "" && s.firstName != "" && s.lastName != ""
    && s.address != "" && s.country != "" && s.city != "" && s.studentId != ""
    && s.birthDate != "" && s.curriculumCloseDate != "" && s.affectation != "" && s.careerName != ""
  }

  /** The student built from row `index` of the first sheet. */
  function BuildStudent(row: SheetRow, index: nat, tier: Tier, batchId: string, now: nat): (s: Student)
    ensures s.batchId == batchId && s.gradeLevel == TierLabel(tier)
    ensures TextFieldsFilled(s)
    ensures s.assignedTutor == "N/A" && s.emphasis == "N/A" && s.affectation == s.school
    ensures var m := Lookup(row);
      "iddeestudiante" in m && m["iddeestudiante"] != "" ==> s.studentId == m["iddeestudiante"]
    ensures var m := Lookup(row);
      "iddeestudiante" !in m || m["iddeestudiante"] == "" ==> s.studentId == TempId(index, now)
    ensures tier == Tecnico || tier == Posdoctorado ==> s.thesisCredits != 0.0
    ensures tier != Tecnico && tier != Posdoctorado && "creditosportesisdegraduacion" !in Lookup(row)
      ==> s.thesisCredits == 0.0
    ensures forall i :: 0 <= i < |s.spanishGrades| ==> !IsBlank(s.spanishGrades[i])
    ensures s.university == TextOr(Lookup(row), "nombredelauniversidad", "N/A")
    ensures s.school == TextOr(Lookup(row), "nombredelafacultad", "N/A")
    ensures s.firstName == TextOr(Lookup(row), "nombrealumno", "N/A")
    ensures s.lastName == TextOr(Lookup(row), "apellidoalumno", "N/A")
    ensures s.address == TextOr(Lookup(row), "direccion", "N/A")
    ensures s.country == TextOr(Lookup(row), "pais", "N/A")
    ensures s.city == TextOr(Lookup(row), "ciudad", "N/A")
    ensures s.birthDate == TextOr(Lookup(row), "fechadenacimiento", "N/A")
    ensures s.curriculumCloseDate == TextOr(Lookup(row), "nofechadecierredelpensum", "N/A")
    ensures s.careerName == TextOr(Lookup(row), "nombredelacarrera", TextOr(Lookup(row), "carrera", "N/A"))
    ensures s.transferCredits == NumberOr(Raw(Lookup(row), "creditostransferidospreviamente"), 0.0)
    ensures s.workExperienceCredits == NumberOr(ExperienceCell(Lookup(row)), 0.0)
    ensures s.meritCredits == NumberOr(Raw(Lookup(row), "creditosobtenidospormeritodeestudio"), 0.0)
    ensures s.average == NumberOr(Raw(Lookup(row), "promedio"), 0.0)
    ensures s.thesisCredits == NumberOr(Raw(Lookup(row), "creditosportesisdegraduacion"), ThesisDefault(tier))
    ensures s.spanishGrades == SpanishGrades(Lookup(row))
  {
    var m := Lookup(row);
    var thesisDefault := ThesisDefault(tier);
    var experience := ExperienceCell(m);
    Student(
      batchId := batchId,
      university := TextOr(m, "nombredelauniversidad", "N/A"),
      school := TextOr(m, "nombredelafacultad", "N/A"),
      firstName := TextOr(m, "nombrealumno", "N/A"),
      lastName := TextOr(m, "apellidoalumno", "N/A"),
      address := TextOr(m, "direccion", "N/A"),
      country := TextOr(m, "pais", "N/A"),
      city := TextOr(m, "ciudad", "N/A"),
      studentId := TextOr(m, "iddeestudiante", TempId(index, now)),
      birthDate := TextOr(m, "fechadenacimiento", "N/A"),
      assignedTutor := "N/A",
      emphasis := "N/A",
      transferCredits := NumberOr(Raw(m, "creditostransferidospreviamente"), 0.0),
      workExperienceCredits := NumberOr(experience, 0.0),
      meritCredits := NumberOr(Raw(m, "creditosobtenidospormeritodeestudio"), 0.0),
      thesisCredits := NumberOr(Raw(m, "creditosportesisdegraduacion"), thesisDefault),
      gradeLevel := TierLabel(tier),
      affectation := TextOr(m, "nombredelafacultad", "N/A"),
      curriculumCloseDate := TextOr(m, "nofechadecierredelpensum", "N/A"),
      average := NumberOr(Raw(m, "promedio"), 0.0),
      spanishGrades := SpanishGrades(m),
      careerName := TextOr(m, "nombredelacarrera", TextOr(m, "carrera", "N/A")))
  }

  /** The cell of the last column whose header normalises to `key`, or
      `None` when no header does. */
  function ColumnCell(row: SheetRow, key: string): Option<string> {
    match LastColumn(row, key)
    case Some(j) => Some(row[j].1)
    case None => None
  }

  /** A present, non-empty cell, or the fallback. */
  function CellOr(cell: Option<string>, fallback: string): string {
    if cell.Some? && cell.value != "" then cell.value else fallback
  }

  /** Reading a key of the lookup is reading the last column whose header
      normalises to it. */
  lemma RawIsColumnCell(row: SheetRow, key: string)
    ensures Raw(Lookup(row), key) == ColumnCell(row, key)
    ensures forall fallback :: TextOr(Lookup(row), key, fallback) == CellOr(ColumnCell(row, key), fallback)
  {
    LookupIsLastColumn(row, key);
  }

  /** Each field of the built student, stated on the sheet row itself: a
      text field is the last matching column's cell when present and
      non-empty, otherwise "N/A"; a numeric field is that cell's nonzero
      value, otherwise 0 (10 thesis credits for Técnico and Posdoctorado). */
  lemma BuildStudentReadsColumns(row: SheetRow, index: nat, tier: Tier, batchId: string, now: nat)
    ensures var s := BuildStudent(row, index, tier, batchId, now);
      && s.university == CellOr(ColumnCell(row, "nombredelauniversidad"), "N/A")
      && s.school == CellOr(ColumnCell(row, "nombredelafacultad"), "N/A")
      && s.affectation == CellOr(ColumnCell(row, "nombredelafacultad"), "N/A")
      && s.firstName == CellOr(ColumnCell(row, "nombrealumno"), "N/A")
      && s.lastName == CellOr(ColumnCell(row, "apellidoalumno"), "N/A")
      && s.address == CellOr(ColumnCell(row, "direccion"), "N/A")
      && s.country == CellOr(ColumnCell(row, "pais"), "N/A")
      && s.city == CellOr(ColumnCell(row, "ciudad"), "N/A")
      && s.studentId == CellOr(ColumnCell(row, "iddeestudiante"), TempId(index, now))
      && s.birthDate == CellOr(ColumnCell(row, "fechadenacimiento"), "N/A")
      && s.curriculumCloseDate == CellOr(ColumnCell(row, "nofechadecierredelpensum"), "N/A")
      && s.careerName == CellOr(ColumnCell(row, "nombredelacarrera"), CellOr(ColumnCell(row, "carrera"), "N/A"))
    ensures var s := BuildStudent(row, index, tier, batchId, now);
      && s.transferCredits == NumberOr(ColumnCell(row, "creditostransferidospreviamente"), 0.0)
      && s.meritCredits == NumberOr(ColumnCell(row, "creditosobtenidospormeritodeestudio"), 0.0)
      && s.average == NumberOr(ColumnCell(row, "promedio"), 0.0)
      && s.thesisCredits == NumberOr(ColumnCell(row, "creditosportesisdegraduacion"),
                                     if tier == Tecnico || tier == Posdoctorado then 10.0 else 0.0)
  {
    RawIsColumnCell(row, "nombredelauniversidad");
    RawIsColumnCell(row, "nombredelafacultad");
    RawIsColumnCell(row, "nombrealumno");
    RawIsColumnCell(row, "apellidoalumno");
    RawIsColumnCell(row, "direccion");
    RawIsColumnCell(row, "pais");
    RawIsColumnCell(row, "ciudad");
    RawIsColumnCell(row, "iddeestudiante");
    RawIsColumnCell(row, "fechadenacimiento");
    RawIsColumnCell(row, "nofechadecierredelpensum");
    RawIsColumnCell(row, "nombredelacarrera");
    RawIsColumnCell(row, "carrera");
    RawIsColumnCell(row, "creditostransferidospreviamente");
    RawIsColumnCell(row, "creditosobtenidospormeritodeestudio");
    RawIsColumnCell(row, "promedio");
    RawIsColumnCell(row, "creditosportesisdegraduacion");
  }

  // ---------------------------------------------------------------------
  // Catalog courses
  // ---------------------------------------------------------------------

  /** The catalog entries as courses whose id is the prefix followed by the
      name. */
  function Tagged(list: seq<CourseTemplate>, prefix: string): (r: seq<Course>)
    ensures |r| == |list|
  {
    seq(|list|, i requires 0 <= i < |list| => Course(prefix + list[i].name, "", list[i].name, list[i].credits, "", "", ""))
  }

  /** The catalog entry a course came from. */
  function Untag(courses: seq<Course>): (r: seq<CourseTemplate>)
    ensures |r| == |courses|
  {
    seq(|courses|, i requires 0 <= i < |courses| => CourseTemplate(courses[i].name, courses[i].credits))
  }

  /** A course copied from the catalog: id = prefix + name, and no code,
      grade, term or owner. */
  predicate CatalogEntry(c: Course, prefix: string) {
    c.id == prefix + c.name && c.code == "" && c.grade == "" && c.term == "" && c.studentId == ""
  }

  predicate AllCatalogEntries(cs: seq<Course>, prefix: string) {
    forall i :: 0 <= i < |cs| ==> CatalogEntry(cs[i], prefix)
  }

  /** Tagging copies the catalog entries and marks each with the prefix. */
  lemma TaggedEntries(list: seq<CourseTemplate>, prefix: string)
    ensures Untag(Tagged(list, prefix)) == list
    ensures AllCatalogEntries(Tagged(list, prefix), prefix)
  {
  }

  /** `n` picks (or the whole pool, if smaller) of distinct entries of
      `pool`, tagged with `prefix`. */
  predicate Electives(cs: seq<Course>, pool: seq<CourseTemplate>, n: nat, prefix: string) {
    |cs| == Min(n, |pool|) && multiset(Untag(cs)) <= multiset(pool) && AllCatalogEntries(cs, prefix)
  }

  function ElectivesOf(pool: seq<CourseTemplate>, n: nat, seed: string, prefix: string, order: Oracle): (r: seq<Course>)
    requires ValidOracle(order)
    ensures Electives(r, pool, n, prefix)
  {
    TaggedEntries(GetRandomSubarray(pool, n, seed, order), prefix);
    Tagged(GetRandomSubarray(pool, n, seed, order), prefix)
  }

  lemma ConcatSlices<T>(a: seq<T>, c: seq<T>)
    ensures (a + c)[..|a|] == a && (a + c)[|a|..] == c
  {
  }

  /** A block of mandatory catalog courses tagged `prefix`, then electives
      drawn from `pool` tagged `electivePrefix`. */
  predicate PlanShape(r: seq<Course>, mandatory: seq<CourseTemplate>, prefix: string,
                      pool: seq<CourseTemplate>, n: nat, electivePrefix: string) {
    && |r| == |mandatory| + Min(n, |pool|)
    && Untag(r[..|mandatory|]) == mandatory && AllCatalogEntries(r[..|mandatory|], prefix)
    && Electives(r[|mandatory|..], pool, n, electivePrefix)
  }

  function WithElectives(mandatory: seq<CourseTemplate>, prefix: string, pool: seq<CourseTemplate>, n: nat,
                         seed: string, electivePrefix: string, order: Oracle): (r: seq<Course>)
    requires ValidOracle(order)
    ensures PlanShape(r, mandatory, prefix, pool, n, electivePrefix)
  {
    TaggedEntries(mandatory, prefix);
    ConcatSlices(Tagged(mandatory, prefix), ElectivesOf(pool, n, seed, electivePrefix, order));
    Tagged(mandatory, prefix) + ElectivesOf(pool, n, seed, electivePrefix, order)
  }

  /** The catalog lists the import draws from. */
  datatype Catalog = Catalog(
    induction: seq<CourseTemplate>,
    licenciaturaBasic: seq<CourseTemplate>,
    licenciaturaProfessional: seq<CourseTemplate>,
    doctoradoBasic: seq<CourseTemplate>,
    doctoradoProfessional: seq<CourseTemplate>,
    tecnicoProfessional: seq<CourseTemplate>,
    maestriaBasic: seq<CourseTemplate>,
    professional: seq<CourseTemplate>)

  /** The lists of src/lib/academic-data.ts. */
  function SourceCatalog(): Catalog {
    Catalog(InductionCourses, LicenciaturaBasicCourses, LicenciaturaProfessionalCourses,
      DoctoradoBasicCourses, DoctoradoProfessionalCourses, TecnicoProfessionalCourses,
      MaestriaBasicCourses, ProfessionalCourses)
  }

  /** The induction courses, tagged "ind-", then two more blocks. */
  predicate InductionFirst(r: seq<Course>, cat: Catalog) {
    && |r| >= |cat.induction|
    && Untag(r[..|cat.induction|]) == cat.induction && AllCatalogEntries(r[..|cat.induction|], "ind-")
  }

  function AfterInduction(cat: Catalog, rest: seq<Course>): (r: seq<Course>)
    ensures |r| == |cat.induction| + |rest| && r[|cat.induction|..] == rest
    ensures InductionFirst(r, cat)
  {
    TaggedEntries(cat.induction, "ind-");
    ConcatSlices(Tagged(cat.induction, "ind-"), rest);
    Tagged(cat.induction, "ind-") + rest
  }

  /** The Licenciatura plan: the induction courses, the basic courses and
      10 professional courses picked with the seed `id + "lic-prof"`. */
  function LicenciaturaCourses(cat: Catalog, studentId: string, order: Oracle): (r: seq<Course>)
    requires ValidOracle(order)
    ensures InductionFirst(r, cat)
    ensures PlanShape(r[|cat.induction|..], cat.licenciaturaBasic, "lic-bas-", cat.licenciaturaProfessional, 10, "lic-prof-")
  {
    AfterInduction(cat, WithElectives(cat.licenciaturaBasic, "lic-bas-", cat.licenciaturaProfessional, 10,
      studentId + "lic-prof", "lic-prof-", order))
  }

  /** The Doctorado plan before its final shuffle: the induction courses,
      the basic courses and 4 professional courses picked with the seed
      `id + "doc-prof"`. */
  function DoctoradoCourses(cat: Catalog, studentId: string, order: Oracle): (r: seq<Course>)
    requires ValidOracle(order)
    ensures InductionFirst(r, cat)
    ensures PlanShape(r[|cat.induction|..], cat.doctoradoBasic, "doc-bas-", cat.doctoradoProfessional, 4, "doc-prof-")
  {
    AfterInduction(cat, WithElectives(cat.doctoradoBasic, "doc-bas-", cat.doctoradoProfessional, 4,
      studentId + "doc-prof", "doc-prof-", order))
  }

  /** The Técnico plan: the induction courses and 5 professional courses
      picked with the seed `id + "tec-prof"`. */
  function TecnicoCourses(cat: Catalog, studentId: string, order: Oracle): (r: seq<Course>)
    requires ValidOracle(order)
    ensures PlanShape(r, cat.induction, "ind-", cat.tecnicoProfessional, 5, "tec-prof-")
  {
    WithElectives(cat.induction, "ind-", cat.tecnicoProfessional, 5, studentId + "tec-prof", "tec-prof-", order)
  }

  /** The Maestría plan: the induction courses, the basic courses and 5
      professional courses picked with the seed `id + "prof"`. */
  function MaestriaCourses(cat: Catalog, studentId: string, order: Oracle): (r: seq<Course>)
    requires ValidOracle(order)
    ensures InductionFirst(r, cat)
    ensures PlanShape(r[|cat.induction|..], cat.maestriaBasic, "bas-", cat.professional, 5, "prof-")
  {
    AfterInduction(cat, WithElectives(cat.maestriaBasic, "bas-", cat.professional, 5, studentId + "prof", "prof-", order))
  }

  /** Which plan a stored grade level selects; the tests run on the
      lower-cased level in this order, Maestría being the fallback. */
  datatype Plan = LicenciaturaPlan | DoctoradoPlan | TecnicoPlan | MaestriaPlan

  function PlanFor(gradeLevel: string): Plan {
    var g := ToLower(gradeLevel);
    if Contains(g, "licenciatura") then LicenciaturaPlan
    else if Contains(g, "doctorado") || Contains(g, "posdoctorado") then DoctoradoPlan
    else if Contains(g, "técnico") then TecnicoPlan
    else MaestriaPlan
  }

  /** A word whose first letter occurs at no candidate position is absent. */
  lemma Absent(s: string, part: string)
    requires part != []
    requires forall i :: 0 <= i <= |s| - |part| ==> s[i] != part[0]
    ensures !Contains(s, part)
  {
    forall i | 0 <= i <= |s| - |part|
      ensures !(part <= s[i..])
    {
      assert s[i..][0] == s[i];
    }
  }

  /** The lower-cased tier label. */
  function LowerLabel(t: Tier): string {
    match t
    case Licenciatura => "licenciatura"
    case Maestria => "maestria"
    case Doctorado => "doctorado"
    case Tecnico => "técnico"
    case Posdoctorado => "posdoctorado"
  }

  lemma TierLabelLower(t: Tier)
    ensures ToLower(TierLabel(t)) == LowerLabel(t)
  {
    var l := TierLabel(t);
    assert forall i :: 1 <= i < |l| ==> !IsUpper(l[i]);
    assert ToLower(l)[0] == LowerLabel(t)[0];
    assert forall i :: 1 <= i < |l| ==> ToLower(l)[i] == l[i];
  }

  /** Each tier's stored label selects that tier's plan; Posdoctorado
      students receive the Doctorado plan. */
  lemma PlanForTier(t: Tier)
    ensures PlanFor(TierLabel(t)) == match t
      case Licenciatura => LicenciaturaPlan
      case Doctorado => DoctoradoPlan
      case Posdoctorado => DoctoradoPlan
      case Tecnico => TecnicoPlan
      case Maestria => MaestriaPlan
  {
    TierLabelLower(t);
    var g := LowerLabel(t);
    match t
    case Licenciatura =>
      assert "licenciatura" <= g[0..];
    case Doctorado =>
      Absent(g, "licenciatura");
      assert "doctorado" <= g[0..];
    case Posdoctorado =>
      Absent(g, "licenciatura");
      assert "doctorado" <= g[3..];
    case Tecnico =>
      Absent(g, "licenciatura");
      Absent(g, "doctorado");
      Absent(g, "posdoctorado");
      assert "técnico" <= g[0..];
    case Maestria =>
      Absent(g, "licenciatura");
      Absent(g, "doctorado");
      Absent(g, "posdoctorado");
      Absent(g, "técnico");
  }

  /** The courses a plan gives one student before the second sheet is
      read. The Doctorado plan is then put in an arbitrary order (a sort by
      `Math.random`), the Lehmer code `shuffle(len)` for its length. */
  function PlanCourses(plan: Plan, cat: Catalog, studentId: string, order: Oracle, shuffle: nat -> seq<nat>): (r: seq<Course>)
    requires ValidOracle(order) && ValidShuffle(shuffle)
    ensures plan == DoctoradoPlan ==> multiset(r) == multiset(DoctoradoCourses(cat, studentId, order))
  {
    match plan
    case LicenciaturaPlan => LicenciaturaCourses(cat, studentId, order)
    case DoctoradoPlan =>
      var d := DoctoradoCourses(cat, studentId, order);
      Permute(d, shuffle(|d|))
    case TecnicoPlan => TecnicoCourses(cat, studentId, order)
    case MaestriaPlan => MaestriaCourses(cat, studentId, order)
  }

  ghost predicate ValidShuffle(shuffle: nat -> seq<nat>) {
    forall len :: IsLehmerCode(shuffle(len), len)
  }

  /** With the source catalog a Licenciatura student receives 35 courses. */
  lemma LicenciaturaPlanSize(studentId: string, order: Oracle, shuffle: nat -> seq<nat>)
    requires ValidOracle(order) && ValidShuffle(shuffle)
    ensures |PlanCourses(LicenciaturaPlan, SourceCatalog(), studentId, order, shuffle)| == 35
  {
    CatalogSizes();
  }

  /** With the source catalog a Doctorado student receives 15 courses. */
  lemma DoctoradoPlanSize(studentId: string, order: Oracle, shuffle: nat -> seq<nat>)
    requires ValidOracle(order) && ValidShuffle(shuffle)
    ensures |PlanCourses(DoctoradoPlan, SourceCatalog(), studentId, order, shuffle)| == 15
  {
    CatalogSizes();
    var r := PlanCourses(DoctoradoPlan, SourceCatalog(), studentId, order, shuffle);
    var d := DoctoradoCourses(SourceCatalog(), studentId, order);
    assert |r| == |multiset(r)| == |multiset(d)|;
  }

  /** With the source catalog a Técnico student receives 10 courses. */
  lemma TecnicoPlanSize(studentId: string, order: Oracle, shuffle: nat -> seq<nat>)
    requires ValidOracle(order) && ValidShuffle(shuffle)
    ensures |PlanCourses(TecnicoPlan, SourceCatalog(), studentId, order, shuffle)| == 10
  {
    CatalogSizes();
  }

  /** With the source catalog a Maestría student receives 17 courses. */
  lemma MaestriaPlanSize(studentId: string, order: Oracle, shuffle: nat -> seq<nat>)
    requires ValidOracle(order) && ValidShuffle(shuffle)
    ensures |PlanCourses(MaestriaPlan, SourceCatalog(), studentId, order, shuffle)| == 17
  {
    CatalogSizes();
  }

  /** The catalog courses of one student, chosen by the stored grade level. */
  function CatalogCourses(s: Student, cat: Catalog, order: Oracle, shuffle: nat -> seq<nat>): seq<Course>
    requires ValidOracle(order) && ValidShuffle(shuffle)
  {
    PlanCourses(PlanFor(s.gradeLevel), cat, s.studentId, order, shuffle)
  }

  /** The courses under `prefix` that tagging `list` produces. */
  predicate HasAllTagged(r: seq<Course>, list: seq<CourseTemplate>, prefix: string) {
    forall j :: 0 <= j < |list| ==> Course(prefix + list[j].name, "", list[j].name, list[j].credits, "", "", "") in r
  }

  /** A block of `r` that tags all of `list` puts each tagged course in `r`. */
  lemma MandatoryBlock(r: seq<Course>, start: nat, list: seq<CourseTemplate>, prefix: string)
    requires start + |list| <= |r|
    requires Untag(r[start..start + |list|]) == list && AllCatalogEntries(r[start..start + |list|], prefix)
    ensures HasAllTagged(r, list, prefix)
  {
    var block := r[start..start + |list|];
    forall j | 0 <= j < |list|
      ensures Course(prefix + list[j].name, "", list[j].name, list[j].credits, "", "", "") in r
    {
      assert Untag(block)[j] == list[j];
      assert block[j] == r[start + j];
      assert r[start + j] == Course(prefix + list[j].name, "", list[j].name, list[j].credits, "", "", "");
    }
  }

  lemma HasAllTaggedRearranged(r: seq<Course>, q: seq<Course>, list: seq<CourseTemplate>, prefix: string)
    requires HasAllTagged(q, list, prefix) && multiset(q) == multiset(r)
    ensures HasAllTagged(r, list, prefix)
  {
    forall j | 0 <= j < |list|
      ensures Course(prefix + list[j].name, "", list[j].name, list[j].credits, "", "", "") in r
    {
      var c := Course(prefix + list[j].name, "", list[j].name, list[j].credits, "", "", "");
      assert c in multiset(q);
    }
  }

  /** The induction courses and the given basic courses head a plan. */
  lemma PlanHeads(r: seq<Course>, cat: Catalog, basic: seq<CourseTemplate>, basicPrefix: string,
                  pool: seq<CourseTemplate>, n: nat, electivePrefix: string)
    requires InductionFirst(r, cat)
    requires PlanShape(r[|cat.induction|..], basic, basicPrefix, pool, n, electivePrefix)
    ensures HasAllTagged(r, cat.induction, "ind-") && HasAllTagged(r, basic, basicPrefix)
  {
    var k := |cat.induction|;
    assert r[0..k] == r[..k];
    MandatoryBlock(r, 0, cat.induction, "ind-");
    assert r[k..][..|basic|] == r[k..k + |basic|];
    MandatoryBlock(r, k, basic, basicPrefix);
  }

  /** Every plan holds all the induction courses, and the Licenciatura,
      Doctorado and Maestría plans hold all of their tier's basic courses. */
  lemma PlanHasMandatoryCourses(plan: Plan, cat: Catalog, studentId: string, order: Oracle, shuffle: nat -> seq<nat>)
    requires ValidOracle(order) && ValidShuffle(shuffle)
    ensures HasAllTagged(PlanCourses(plan, cat, studentId, order, shuffle), cat.induction, "ind-")
    ensures plan == LicenciaturaPlan ==>
      HasAllTagged(PlanCourses(plan, cat, studentId, order, shuffle), cat.licenciaturaBasic, "lic-bas-")
    ensures plan == DoctoradoPlan ==>
      HasAllTagged(PlanCourses(plan, cat, studentId, order, shuffle), cat.doctoradoBasic, "doc-bas-")
    ensures plan == MaestriaPlan ==>
      HasAllTagged(PlanCourses(plan, cat, studentId, order, shuffle), cat.maestriaBasic, "bas-")
  {
    var r := PlanCourses(plan, cat, studentId, order, shuffle);
    match plan
    case LicenciaturaPlan =>
      PlanHeads(r, cat, cat.licenciaturaBasic, "lic-bas-", cat.licenciaturaProfessional, 10, "lic-prof-");
    case MaestriaPlan =>
      PlanHeads(r, cat, cat.maestriaBasic, "bas-", cat.professional, 5, "prof-");
    case DoctoradoPlan =>
      var d := DoctoradoCourses(cat, studentId, order);
      PlanHeads(d, cat, cat.doctoradoBasic, "doc-bas-", cat.doctoradoProfessional, 4, "doc-prof-");
      HasAllTaggedRearranged(r, d, cat.induction, "ind-");
      HasAllTaggedRearranged(r, d, cat.doctoradoBasic, "doc-bas-");
    case TecnicoPlan =>
      assert r[0..|cat.induction|] == r[..|cat.induction|];
      MandatoryBlock(r, 0, cat.induction, "ind-");
  }

  // ---------------------------------------------------------------------
  // Course lists
  // ---------------------------------------------------------------------

  /** The random order of each student's Doctorado plan: a Lehmer code per
      (student position, length). */
  type Shuffles = (nat, nat) -> seq<nat>

  ghost predicate ValidShuffles(shuffles: Shuffles) {
    forall i, len :: IsLehmerCode(shuffles(i, len), len)
  }

  function StudentIds(students: seq<Student>): set<string> {
    set i | 0 <= i < |students| :: students[i].studentId
  }

  predicate UniqueIds(students: seq<Student>) {
    forall i, j :: 0 <= i < j < |students| ==> students[i].studentId != students[j].studentId
  }

  /** Each student's list, initially empty. */
  function EmptyLists(students: seq<Student>): (m: map<string, seq<Course>>)
    ensures m.Keys == StudentIds(students)
    ensures forall k :: k in m ==> m[k] == []
  {
    map k | k in StudentIds(students) :: []
  }

  /** The Doctorado order of the student at `index`. */
  function ShuffleOf(shuffles: Shuffles, index: nat): (f: nat -> seq<nat>)
    requires ValidShuffles(shuffles)
    ensures ValidShuffle(f)
  {
    len => shuffles(index, len)
  }

  /** Each student, in roster order, appends the courses `catalog` gives
      them (by student and roster position) to the list under their id; a
      repeated id therefore collects the courses of every student carrying
      it. */
  function AddCatalogs(students: seq<Student>, m: map<string, seq<Course>>, catalog: (Student, nat) -> seq<Course>)
    : (r: map<string, seq<Course>>)
    requires StudentIds(students) <= m.Keys
    ensures r.Keys == m.Keys
    ensures forall k :: k in m && k !in StudentIds(students) ==> r[k] == m[k]
  {
    if students == [] then m
    else
      var n := |students| - 1;
      StudentIdsSnoc(students);
      var prev := AddCatalogs(students[..n], m, catalog);
      var id := students[n].studentId;
      prev[id := prev[id] + catalog(students[n], n)]
  }

  lemma StudentIdsSnoc(students: seq<Student>)
    requires students != []
    ensures StudentIds(students) == StudentIds(students[..|students| - 1]) + {students[|students| - 1].studentId}
  {
    var n := |students| - 1;
    var init := students[..n];
    forall k | k in StudentIds(init) ensures k in StudentIds(students) {
      var i :| 0 <= i < n && init[i].studentId == k;
      assert students[i].studentId == k;
    }
    forall k | k in StudentIds(students) ensures k in StudentIds(init) + {students[n].studentId} {
      var i :| 0 <= i < |students| && students[i].studentId == k;
      if i < n {
        assert init[i] == students[i];
      }
    }
  }

  /** Dropping the last student keeps the ids distinct and no longer
      mentions the last id. */
  lemma UniqueInit(students: seq<Student>)
    requires students != [] && UniqueIds(students)
    ensures UniqueIds(students[..|students| - 1])
    ensures students[|students| - 1].studentId !in StudentIds(students[..|students| - 1])
  {
    var n := |students| - 1;
    var init := students[..n];
    forall i, j | 0 <= i < j < n ensures init[i].studentId != init[j].studentId {
      assert init[i] == students[i] && init[j] == students[j];
    }
    forall i | 0 <= i < n ensures init[i].studentId != students[n].studentId {
      assert init[i] == students[i];
    }
  }

  /** One step of `AddCatalogs`: the last student's list is extended and
      every other list is as the earlier students left it. */
  lemma AddCatalogsLast(students: seq<Student>, m: map<string, seq<Course>>, catalog: (Student, nat) -> seq<Course>)
    requires students != [] && StudentIds(students) <= m.Keys
    ensures var n := |students| - 1;
      StudentIds(students[..n]) <= m.Keys &&
      var prev := AddCatalogs(students[..n], m, catalog);
      var r := AddCatalogs(students, m, catalog);
      var id := students[n].studentId;
      && r[id] == prev[id] + catalog(students[n], n)
      && forall k :: k in m && k != id ==> r[k] == prev[k]
  {
    StudentIdsSnoc(students);
  }

  /** With distinct ids, each student's list is what it held before followed
      by that student's catalog courses. */
  lemma {:induction false} AddCatalogsUnique(students: seq<Student>, m: map<string, seq<Course>>, catalog: (Student, nat) -> seq<Course>)
    requires StudentIds(students) <= m.Keys && UniqueIds(students)
    ensures forall i :: 0 <= i < |students| ==>
      AddCatalogs(students, m, catalog)[students[i].studentId] == m[students[i].studentId] + catalog(students[i], i)
  {
    if students != [] {
      var n := |students| - 1;
      var init := students[..n];
      var last := students[n];
      StudentIdsSnoc(students);
      UniqueInit(students);
      AddCatalogsUnique(init, m, catalog);
      var prev := AddCatalogs(init, m, catalog);
      var r := AddCatalogs(students, m, catalog);
      AddCatalogsLast(students, m, catalog);
      assert prev[last.studentId] == m[last.studentId];
      forall i | 0 <= i < |students|
        ensures r[students[i].studentId] == m[students[i].studentId] + catalog(students[i], i)
      {
        if i < n {
          assert init[i] == students[i];
          assert students[i].studentId != last.studentId;
        }
      }
    }
  }

  /** The catalog courses the upload gives the student at each position. */
  function UploadCatalog(order: Oracle, shuffles: Shuffles): (Student, nat) -> seq<Course>
    requires ValidOracle(order) && ValidShuffles(shuffles)
  {
    (s: Student, i: nat) => CatalogCourses(s, SourceCatalog(), order, ShuffleOf(shuffles, i))
  }

  /** Row `index` of the second sheet as a course; its id is the row number
      counted from 1. */
  function SheetCourse(row: SheetRow, index: nat): Course {
    var m := Lookup(row);
    Course(
      id := NatToString(index + 1),
      code := TextOr(m, "code", ""),
      name := TextOr(m, "name", ""),
      credits := NumberOr(Raw(m, "credits"), 0.0),
      grade := TextOr(m, "grade", "N/A"),
      term := TextOr(m, "term", ""),
      studentId := TextOr(m, "iddeestudiante", ""))
  }

  function SheetCourses(sheet: Sheet): (r: seq<Course>)
    ensures |r| == |sheet|
    ensures forall i :: 0 <= i < |r| ==> r[i].grade != "" && ParseNumber(r[i].id) == Some((i + 1) as real)
  {
    RowNumbersRead(|sheet| + 1);
    seq(|sheet|, i requires 0 <= i < |sheet| => SheetCourse(sheet[i], i))
  }

  lemma RowNumbersRead(n: nat)
    ensures forall k: nat :: k < n ==> ParseNumber(NatToString(k)) == Some(k as real)
  {
    forall k: nat | k < n ensures ParseNumber(NatToString(k)) == Some(k as real) {
      NumberOfNatToString(k);
    }
  }

  /** The courses of the second sheet carry distinct ids. */
  lemma SheetCourseIdsDistinct(sheet: Sheet)
    ensures forall i, j :: 0 <= i < j < |sheet| ==> SheetCourses(sheet)[i].id != SheetCourses(sheet)[j].id
  {
    var r := SheetCourses(sheet);
    forall i, j | 0 <= i < j < |sheet| ensures r[i].id != r[j].id {
      assert ParseNumber(r[i].id) != ParseNumber(r[j].id);
    }
  }

  /** Each course of the second sheet is appended to the list of the student
      it names, when that student exists; other courses are dropped. */
  function AttachCourses(m: map<string, seq<Course>>, courses: seq<Course>): (r: map<string, seq<Course>>)
    ensures r.Keys == m.Keys
  {
    if courses == [] then m
    else
      var prev := AttachCourses(m, courses[..|courses| - 1]);
      var c := courses[|courses| - 1];
      if c.studentId != "" && c.studentId in prev then prev[c.studentId := prev[c.studentId] + [c]]
      else prev
  }

  /** Every list gains, in sheet order, exactly the courses naming its
      student. */
  lemma {:induction false} AttachCoursesExactly(m: map<string, seq<Course>>, courses: seq<Course>, k: string)
    requires k in m
    ensures AttachCourses(m, courses)[k] == m[k] + Filter(courses, (c: Course) => k != "" && c.studentId == k)
  {
    var p := (c: Course) => k != "" && c.studentId == k;
    if courses != [] {
      var n := |courses| - 1;
      AttachCoursesExactly(m, courses[..n], k);
      FilterSnoc(courses, p);
    }
  }

  // ---------------------------------------------------------------------
  // The whole upload
  // ---------------------------------------------------------------------

  datatype ImportError =
    | WrongFileName(expectedKeyword: string)
    | UnreadableFirstSheet
    | EmptyFirstSheet

  /** The text of the toast each error raises. */
  function ImportErrorMessage(e: ImportError): string {
    match e
    case WrongFileName(kw) => "El nombre del archivo debe contener la palabra '" + kw + "'."
    case UnreadableFirstSheet => "La primera hoja de cálculo no pudo ser leída."
    case EmptyFirstSheet => "La primera hoja de cálculo (Estudiantes) está vacía."
  }

  function BatchId(t: Tier, now: nat): string {
    TierLabel(t) + "-" + NatToString(now)
  }

  function Students(sheet: Sheet, tier: Tier, now: nat): (r: seq<Student>)
    ensures |r| == |sheet|
    ensures forall i :: 0 <= i < |r| ==> r[i] == BuildStudent(sheet[i], i, tier, BatchId(tier, now), now)
  {
    seq(|sheet|, i requires 0 <= i < |sheet| => BuildStudent(sheet[i], i, tier, BatchId(tier, now), now))
  }

  /** The courses of every student after an upload. */
  function CourseLists(students: seq<Student>, wb: Workbook, order: Oracle, shuffles: Shuffles): (m: map<string, seq<Course>>)
    requires ValidOracle(order) && ValidShuffles(shuffles)
    ensures m.Keys == StudentIds(students)
  {
    var withCatalog := AddCatalogs(students, EmptyLists(students), UploadCatalog(order, shuffles));
    if |wb| > 1 then AttachCourses(withCatalog, SheetCourses(wb[1])) else withCatalog
  }

  /** `handleFileChange` up to `onUpload`: the records of one upload, or the
      error it reports. `now` is the clock, `order` the seeded shuffle and
      `shuffles` the random order of each Doctorado plan. */
  function Import(tier: Tier, fileName: string, wb: Workbook, now: nat, order: Oracle, shuffles: Shuffles)
    : (r: Result<Records, ImportError>)
    requires ValidOracle(order) && ValidShuffles(shuffles)
    ensures r == Failure(WrongFileName(ExpectedKeyword(tier))) <==> !FileNameAccepted(tier, fileName)
    ensures r == Failure(UnreadableFirstSheet) <==> FileNameAccepted(tier, fileName) && wb == []
    ensures r == Failure(EmptyFirstSheet) <==> FileNameAccepted(tier, fileName) && wb != [] && wb[0] == []
    ensures r.Success? ==> wb != [] && |r.value.students| == |wb[0]| > 0
    ensures r.Success? ==> forall i :: 0 <= i < |r.value.students| ==>
      r.value.students[i].batchId == BatchId(tier, now) && r.value.students[i].gradeLevel == TierLabel(tier)
    ensures r.Success? ==> r.value.coursesByStudent.Keys == StudentIds(r.value.students)
  {
    if !FileNameAccepted(tier, fileName) then Failure(WrongFileName(ExpectedKeyword(tier)))
    else if wb == [] then Failure(UnreadableFirstSheet)
    else if wb[0] == [] then Failure(EmptyFirstSheet)
    else
      var students := Students(wb[0], tier, now);
      Success(Records(students, CourseLists(students, wb, order, shuffles)))
  }

  /** With distinct ids, each student's list is their catalog courses
      followed, in sheet order, by the second sheet's courses that name
      them. */
  lemma CourseListOfStudent(students: seq<Student>, wb: Workbook, order: Oracle, shuffles: Shuffles, i: nat)
    requires ValidOracle(order) && ValidShuffles(shuffles)
    requires UniqueIds(students) && i < |students|
    ensures var s := students[i];
      CourseLists(students, wb, order, shuffles)[s.studentId]
        == CatalogCourses(s, SourceCatalog(), order, ShuffleOf(shuffles, i))
          + (if |wb| > 1 then Filter(SheetCourses(wb[1]), (c: Course) => s.studentId != "" && c.studentId == s.studentId) else [])
  {
    var empty := EmptyLists(students);
    var catalog := UploadCatalog(order, shuffles);
    AddCatalogsUnique(students, empty, catalog);
    var withCatalog := AddCatalogs(students, empty, catalog);
    var s := students[i];
    assert s.studentId in StudentIds(students);
    assert withCatalog[s.studentId] == catalog(s, i);
    if |wb| > 1 {
      AttachCoursesExactly(withCatalog, SheetCourses(wb[1]), s.studentId);
    }
  }

  /** A successful upload's course lists are those of its students. */
  lemma ImportedCourseLists(tier: Tier, fileName: string, wb: Workbook, now: nat, order: Oracle, shuffles: Shuffles)
    requires ValidOracle(order) && ValidShuffles(shuffles)
    requires Import(tier, fileName, wb, now, order, shuffles).Success?
    ensures var recs := Import(tier, fileName, wb, now, order, shuffles).value;
      recs.students == Students(wb[0], tier, now) && recs.coursesByStudent == CourseLists(recs.students, wb, order, shuffles)
  {
  }
}
