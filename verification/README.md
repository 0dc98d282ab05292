# Academic records dashboard — a Dafny model of its record-keeping core

The dashboard is a client-side Next.js/React application. It turns spreadsheets of
students and courses into academic transcripts ("kárdex"), equivalency memos
("homologación"), thesis-grade reports and curriculum-closure certificates. This
project models the pure logic underneath the screens:

- **Roster store** (`Roster`, the page component). The page state is
  `{students, coursesByStudent}` plus the logo, the signatures and the
  specialization catalogs. The model covers five transitions over it:
  - upload, which merges by `studentId` and lets the last write win;
  - batch deletion;
  - specialization-course injection;
  - renaming a single course;
  - reset.

  The JS `Map` used by the merge is modelled as an insertion-ordered entry list.
  It is related to an independent reference: first-occurrence key order
  (`Dedupe`) together with last-writer-wins values (`LastWithId`).
- **Import pipeline** (`Importer`, `Shuffle`, the uploader component). It covers:
  - the file-name/tier check;
  - header-key normalisation;
  - field defaulting;
  - the seeded LCG subset picker;
  - per-tier catalog assembly with id prefixes;
  - attaching second-sheet courses to known students.
- **Catalog, validation and GPA** (`AcademicData`, `Gpa`).
- **Grade scale and the two record tables** (`GradeScale`, `DoctoradoTable`,
  `AcademicTable`). These cover the threshold table, the name-based grade ranges,
  both average formulas and the row arithmetic. `AcademicTable` models
  academic-record-table.tsx as written. That component is a Maestría-style table,
  but the dashboard renders its Maestría kárdex from maestria-record-table.tsx
  (main-dashboard.tsx:8), which is not part of this model, so no page reaches it.
- **Document-side projections**:
  - `Homologacion` — the equivalency memo;
  - `StudentSelector` — the student list filter and the specialization file-name check;
  - `InfoCards` — the tier credit and hour totals;
  - `Dashboard` — the document selector, the thesis grade, the kárdex table dispatch
    and the PDF file name.
- **Display-name state machines** (`DisplayName`): the institution-name context, the
  editable title and the uploader's name dialog.

Modelling conventions:

- **Random draws.** Every `Math.random()` draw is a `real` parameter in `[0, 1)`.
- **Random-comparator sorts.** Each is an arbitrary permutation, given as a Lehmer
  code (`code[i] < len - i`).
- **The seeded sort in `getRandomSubarray`.** Its comparator never looks at the
  elements, so the permutation depends only on the seed state and the length. It is
  an oracle parameter `(state, len) -> code`.
- **Time.** `Date.now()` is a `now: nat` parameter.
- **Spreadsheets.** A sheet is a sequence of rows. Each row is a sequence of
  (header, cell text) pairs, so that the order in which normalised headers overwrite
  one another is explicit.
- **Numbers.** Credits and GPA are `real`. `Math.round` is `floor(x + 1/2)`.

## Model

| member | source | states |
|---|---|---|
| AcademicData.CatalogShape | src/lib/academic-data.ts:68-213 | each catalog list has its fixed size (5, 7, 11, 20, 23, 15, 6, 8, 20) and every entry has positive credits; the specialization list is empty |
| AcademicData.ValidateCourse | src/lib/academic-data.ts:216-230 | no errors exactly when credits > 0 and the grade is one of the eleven letters or "N/A"; the credits error appears exactly when credits <= 0 and is then first; a blank grade yields the missing-grade error and never the invalid-grade one; a non-blank unknown grade yields the invalid-grade error; at most two errors |
| Gpa.GradePoints | src/lib/gpa-calculator.ts:3-13 | exactly the nine letters A … F carry points, all within [0, 4]; P, W, N/A and anything else carry none |
| Gpa.TotalsBounds | src/lib/gpa-calculator.ts:19-24 | counted credits are non-negative and zero exactly when no course counts; counted points lie between 0 and 4 per counted credit |
| Gpa.CalculateGpa | src/lib/gpa-calculator.ts:15-32 | totalCredits is the sum of the counted courses' credits; the GPA lies in [0, 4] and times totalCredits gives the counted points; the result is {0, 0} exactly when no course counts |
| Gpa.SingleCourseGpa | src/lib/gpa-calculator.ts:21-30 | one counted course gives a GPA equal to its own grade points and its own credits |
| Gpa.AppendUncounted | src/lib/gpa-calculator.ts:19-24 | appending a course with no points or no positive credits leaves the result unchanged |
| GradeScale.GetNewGradeDetails | src/components/dashboard/main-dashboard.tsx:34-42 | for every letter and every Sistema-E label, the exact numeric interval that receives it (A iff >= 83, B iff 73..82, …, EXCELENTE iff >= 90, INSUFICIENTE iff < 70) |
| GradeScale.GradeDetailsMonotone | src/components/dashboard/main-dashboard.tsx:34-42 | a higher numeric grade never gets a worse letter or a worse label |
| GradeScale.Round | src/components/dashboard/doctorado-record-table.tsx:74 | the rounded value is within one half of the input, halves going up |
| GradeScale.RandomInt | src/components/dashboard/doctorado-record-table.tsx:56 | a draw in [0, 1) scaled to the inclusive range [lo, hi] lands in that range |
| GradeScale.RandomIntCoversRange | src/components/dashboard/doctorado-record-table.tsx:56 | every value of [lo, hi] is produced by some draw |
| GradeScale.DrawGrade | src/components/dashboard/main-dashboard.tsx:75-77 | a drawn grade lies in its range and carries the letter and label the threshold table gives it |
| GradeScale.FindName | src/components/dashboard/doctorado-record-table.tsx:87 | the result is the first position recorded under the name, or none exactly when no entry has that name |
| GradeScale.DisplayGrade | src/components/dashboard/doctorado-record-table.tsx:87-89 | a course with no recorded grade shows 0 with F / INSUFICIENTE; otherwise it shows the first grade recorded under its name |
| DoctoradoTable.StudentCoursesKeep | src/components/dashboard/doctorado-record-table.tsx:35 | the listed courses are, in order, exactly the records whose lower-cased name is not "tesis de graduación" |
| DoctoradoTable.ThesisCourseExcluded | src/components/dashboard/doctorado-record-table.tsx:35 | the thesis course name is recognised in its accented spelling and a bare "Tesis" is not |
| DoctoradoTable.ThesisRowCount | src/components/dashboard/doctorado-record-table.tsx:39 | one thesis row exactly when the student has positive thesis credits |
| DoctoradoTable.RemainingRows | src/components/dashboard/doctorado-record-table.tsx:39 | blank rows top the courses and the thesis row up to exactly 24, and there are none once those reach 24 |
| DoctoradoTable.HorasPromedio | src/components/dashboard/doctorado-record-table.tsx:46-48 | hours per course is 1230 with no courses, otherwise the integer nearest to 1230 / count |
| DoctoradoTable.CreditosPromedio | src/components/dashboard/doctorado-record-table.tsx:50-51 | credits per course times the count gives 123, and 0 with no courses |
| DoctoradoTable.CourseGrades | src/components/dashboard/doctorado-record-table.tsx:54-58 | one grade per listed course, under its name, each in [80, 100] |
| DoctoradoTable.DisplayedCourseGrade | src/components/dashboard/doctorado-record-table.tsx:55-57 | every listed course shows a grade in [80, 100], hence letter A or B and label EXCELENTE or BUENO |
| DoctoradoTable.PaddedAverage | src/components/dashboard/doctorado-record-table.tsx:61-74 | the loop's result equals the closed formula: the first 24 of (course grades followed by the thesis grade), zero-padded, summed, divided by 24 and rounded; it lies in [0, 100] when the inputs do |
| DoctoradoTable.ShownMembers | src/components/dashboard/doctorado-record-table.tsx:154-157 | a course is shown exactly when its name is in the induction, doctorate basic or doctorate professional catalog or its id starts with "spec-" |
| DoctoradoTable.Rows | src/components/dashboard/doctorado-record-table.tsx:154-173 | row i of the first |shown| rows is shown course i with the average hours, the first grade recorded under its name and the average credits, numbered i + 1; the thesis row follows exactly when the student has thesis credits and a grade; every later row is blank |
| DoctoradoTable.RowsNumberedConsecutively | src/components/dashboard/doctorado-record-table.tsx:159-163 | when the thesis grade is present exactly for students with thesis credits, the rows are numbered 1, 2, 3, … without gap or repeat |
| DoctoradoTable.RowsFillTable | src/components/dashboard/doctorado-record-table.tsx:39-40 | when every listed course is shown once and courses plus thesis fit, the table has exactly 24 rows |
| AcademicTable.GradeRange | src/components/dashboard/academic-record-table.tsx:48-61 | each range is chosen exactly by its rule (Hombre Trabajo y Sociedad 70–79, Microeconomía 1–69, three named courses 80–89, "Análisis"/"Marco" prefixes 73–89, the research-methods course 83–100, anything else 90–100), all within [1, 100] |
| AcademicTable.RuleNamesDisjoint | src/components/dashboard/academic-record-table.tsx:48-57 | no course named by an earlier rule is also caught by the prefix rule, so the first-match order does not hide a rule |
| AcademicTable.MaestriaBasicRanges | src/components/dashboard/academic-record-table.tsx:54-57 | among the Maestría basic courses, the research-methods course draws from 83–100 and the two "Análisis"/"Marco" courses from 73–89 |
| AcademicTable.SynthGrade | src/components/dashboard/academic-record-table.tsx:48-61 | a synthesized grade lies in its course's range and in [1, 100] |
| AcademicTable.CourseGrades | src/components/dashboard/academic-record-table.tsx:43-63 | one grade per record, under its name, each in [1, 100] |
| AcademicTable.Average | src/components/dashboard/academic-record-table.tsx:66-69 | no average without grades; with at most 25 grades in [0, 100] the average lies in [0, 100] |
| AcademicTable.AverageCountsMissingAsZero | src/components/dashboard/academic-record-table.tsx:67 | dividing by 25 whatever the count equals averaging over 25 slots with the missing ones counted as zero |
| AcademicTable.ReportedAverage | src/components/dashboard/academic-record-table.tsx:66-69 | the average is reported exactly when there are records, and lies in [0, 100] for at most 25 records |
| AcademicTable.EmptyRowCount | src/components/dashboard/academic-record-table.tsx:36 | blank rows top the courses up to 25, and there are none beyond |
| AcademicTable.Groups | src/components/dashboard/academic-record-table.tsx:145-148 | four groups, the specialization group always empty |
| AcademicTable.ShownMembers | src/components/dashboard/academic-record-table.tsx:145-148 | a course is shown exactly when its name is in the induction, Maestría basic or professional catalog |
| AcademicTable.RowsAsWritten | src/components/dashboard/academic-record-table.tsx:150-154 | the body as written: the shown courses with their first recorded grades, a thesis row with an A grade whenever the count is at most 25, then the blank rows, numbered after the thesis row only when the student has thesis credits |
| AcademicTable.RowsAsWrittenRepeatNumber | src/components/dashboard/academic-record-table.tsx:154 | for a student without thesis credits and without courses, the thesis row and the first blank row are both numbered 1 |
| AcademicTable.Rows | src/components/dashboard/academic-record-table.tsx:145-163 | the corrected body shows the same courses, thesis row and blank rows, numbered 1, 2, 3, … consecutively |
| AcademicTable.RowsDifferOnlyInBlankNumbers | src/components/dashboard/academic-record-table.tsx:145-163 | the corrected and the as-written bodies have the same length and agree on every row except the numbers of blank rows; for a student with thesis credits they are identical |
| AcademicTable.ThesisRowGrade | src/components/dashboard/academic-record-table.tsx:108-110 | the thesis row's grade lies in [83, 100], hence an A |
| Homologacion.FilteredCoursesExactly | src/components/dashboard/homologacion-cursos.tsx:24-28 | the memo lists, in their original order, exactly the courses that are neither induction courses, nor "spec-" courses, nor named with "tesis" |
| Homologacion.FilteredCoursesIdempotent | src/components/dashboard/homologacion-cursos.tsx:24-28 | filtering the memo's list again changes nothing |
| Homologacion.TableRows | src/components/dashboard/homologacion-cursos.tsx:30-35 | one row per listed course, pairing that course with itself |
| StudentSelector.FilteredStudentsExactly | src/components/dashboard/student-selector.tsx:120-131 | the list shows, in roster order, exactly the students matching both the search term and the tier filter |
| StudentSelector.EmptySearchListsAll | src/components/dashboard/student-selector.tsx:120-131 | an empty search with the "Todos" filter lists every student |
| StudentSelector.DoctoradoFilterPassesPosdoctorado | src/components/dashboard/student-selector.tsx:126-128 | the "Doctorado" filter also passes Posdoctorado students |
| StudentSelector.SpecFileKey | src/components/dashboard/student-selector.tsx:60-85 | each specialization key is chosen exactly when the folded file name starts with its prefix; no key when no prefix matches; técnico is never chosen |
| StudentSelector.SpecRowsToCourses | src/components/dashboard/student-selector.tsx:94 | each row becomes one course with the row's name and 5.4 credits |
| InfoCards.CardTierOf | src/components/dashboard/info-cards.tsx:29-35 | the tier is chosen by the first of "licenciatura", "maestria", "doctorado" in the lower-cased level |
| InfoCards.TotalCredits | src/components/dashboard/info-cards.tsx:29-35 | 285, 135, 123 or 0 exactly by that tier order |
| InfoCards.HorasLectivas | src/components/dashboard/info-cards.tsx:38-44 | ten hours per credit written as "N horas", and "N/A" exactly when there are no credits |
| InfoCards.PosdoctoradoTotals | src/components/dashboard/info-cards.tsx:29-44 | Posdoctorado gets the doctorate totals, 123 and "1230 horas" |
| InfoCards.TecnicoHasNoTotals | src/components/dashboard/info-cards.tsx:29-44 | Técnico gets 0 credits and "N/A" hours |
| InfoCards.ImportedFieldVisible | src/components/dashboard/info-cards.tsx:9-10 | a student field the uploader defaulted to "N/A" is shown exactly when its cell was present, non-empty and not itself "N/A" |
| Dashboard.TitlesDistinct | src/components/dashboard/main-dashboard.tsx:84-102 | the four documents have four different titles |
| Dashboard.InitialView | src/components/dashboard/main-dashboard.tsx:61-63 | the dashboard opens on the kárdex with its title and the info cards visible |
| Dashboard.Select | src/components/dashboard/main-dashboard.tsx:84-102 | any document can be selected from any view, and the title and card visibility then follow it; only the memo hides the cards |
| Dashboard.SelectIdempotent | src/components/dashboard/main-dashboard.tsx:84-102 | selecting twice is selecting once, and selecting the shown document changes nothing |
| Dashboard.ThesisGrade | src/components/dashboard/main-dashboard.tsx:73-81 | no thesis grade exactly when thesis credits are <= 0; otherwise a grade in [83, 100], an A, with the table's label |
| Dashboard.KardexTableFor | src/components/dashboard/main-dashboard.tsx:165-218 | each record table is chosen exactly under its condition, in the order licenciatura, posdoctorado, doctorado, técnico, else Maestría |
| Dashboard.UnaccentedTecnicoGetsMaestria | src/components/dashboard/main-dashboard.tsx:198-218 | a level written "Tecnico" without the accent falls through to the Maestría table |
| Dashboard.PdfFileName | src/components/dashboard/main-dashboard.tsx:146 | the title with every space made a dash and every other character kept, then a dash, the student id and ".pdf" |
| Dashboard.PdfFileNameDeterminesId | src/components/dashboard/main-dashboard.tsx:146 | under one title, two students' files never share a name |
| Dashboard.PdfFileNamesDistinct | src/components/dashboard/main-dashboard.tsx:84-146 | the four documents of one student download under four different names |
| Dashboard.StoredUniversityName | src/components/dashboard/main-dashboard.tsx:67-70 | the stored name, untrimmed, unless it is missing or blank, in which case the default; never blank |
| DisplayName.DefaultNameWellFormed | src/context/UniversityNameContext.tsx:11 | the default name is non-blank and has no surrounding whitespace |
| DisplayName.InitialUniversityName | src/context/UniversityNameContext.tsx:19-21 | the provider starts with the default name |
| DisplayName.SetUniversityName | src/context/UniversityNameContext.tsx:23-28 | the stored name is the trimmed input, or the default when the input is blank; it is never blank or untrimmed, and a well-formed name is kept as is |
| DisplayName.SetUniversityNameIdempotent | src/context/UniversityNameContext.tsx:23-28 | setting the result again changes nothing |
| DisplayName.ResetUniversityName | src/context/UniversityNameContext.tsx:30-32 | reset restores the initial default name whatever the current one |
| DisplayName.NameAfter | src/context/UniversityNameContext.tsx:19-32 | after any sequence of set and reset calls the name is never blank or untrimmed, and it is the default after a reset |
| DisplayName.NameDependsOnLastCall | src/context/UniversityNameContext.tsx:23-32 | neither call reads the current name: the name after a sequence of calls is what the last call makes of the default |
| DisplayName.UseUniversityName | src/context/UniversityNameContext.tsx:43-51 | the hook fails, with its message, exactly outside a provider, and otherwise returns the provider's value |
| DisplayName.Mount | src/components/ui/EditableTitle.tsx:15-35 | the title is the saved value when it is non-blank, otherwise the default; the dialog is closed; other storage keys are untouched; the title invariant holds |
| DisplayName.Open | src/components/ui/EditableTitle.tsx:38-43 | opening copies the current title into the input field |
| DisplayName.Save | src/components/ui/EditableTitle.tsx:45-50 | a blank input changes nothing and keeps the dialog open; otherwise the title becomes the trimmed input and the dialog closes; the invariant is kept |
| DisplayName.Reset | src/components/ui/EditableTitle.tsx:52-55 | reset sets the default title, closes the dialog and keeps the invariant |
| DisplayName.Step | src/components/ui/EditableTitle.tsx:22-55 | every action keeps the invariant: the title is stored under "appTitle" and is never blank |
| DisplayName.Run | src/components/ui/EditableTitle.tsx:22-55 | any sequence of actions keeps the invariant |
| DisplayName.SaveSurvivesReload | src/components/ui/EditableTitle.tsx:22-35 | after a successful save, mounting from the stored value shows the saved title again |
| DisplayName.HandleNameSave | src/components/dashboard/file-uploader.tsx:119-123 | the dialog closes and the shown name is the trimmed input, or the default when it is blank |
| Shuffle.SeedAccumulator | src/components/dashboard/file-uploader.tsx:65-66 | the accumulator stays in 0..999 |
| Shuffle.SeedAccumulatorClosedForm | src/components/dashboard/file-uploader.tsx:65-66 | the accumulator equals (1 + the sum of the seed's code units) mod 1000 |
| Shuffle.SeedAccumulatorSwap | src/components/dashboard/file-uploader.tsx:66 | the accumulator ignores the order of the seed's characters, so swapped seed halves give the same state |
| Shuffle.LcgNext | src/components/dashboard/file-uploader.tsx:68 | the LCG state stays in 0..233279 |
| Shuffle.RndValue | src/components/dashboard/file-uploader.tsx:67-70 | every generated value lies in [0, 1) |
| Shuffle.RndValues | src/components/dashboard/file-uploader.tsx:67-70 | a run of k draws has k values, all in [0, 1) |
| Shuffle.Permute | src/components/dashboard/file-uploader.tsx:71 | a sort with an element-blind comparator is a rearrangement: same length, same multiset |
| Shuffle.EveryPermutationHasCode | src/components/dashboard/file-uploader.tsx:71 | every rearrangement is produced by some code, so the model leaves out no possible sort result |
| Shuffle.GetRandomSubarray | src/components/dashboard/file-uploader.tsx:64-73 | min(n, length) elements, multiset-included in the input, each an element of the input |
| Shuffle.PrefixOfRearrangement | src/components/dashboard/file-uploader.tsx:71-72 | any prefix of a rearrangement is multiset-included in the original |
| Shuffle.SwappedSeedsPickAlike | src/components/dashboard/file-uploader.tsx:66 | two seeds that are each other's halves swapped pick the same subarray |
| Importer.TierLabelsDistinct | src/components/dashboard/file-uploader.tsx:56-61 | the five tier labels are pairwise different |
| Importer.PosdoctoradoFileIsDoctoradoFile | src/components/dashboard/file-uploader.tsx:149-161 | every file name the Posdoctorado check accepts is accepted by the Doctorado check too |
| Importer.NormalizeKey | src/components/dashboard/file-uploader.tsx:75-84 | the key has no whitespace, no upper-case letters, no accented letters or combining marks, and is no longer than the input; "" for "" |
| Importer.NormalizeKeyIdempotent | src/components/dashboard/file-uploader.tsx:75-84 | normalising a normalised key changes nothing |
| Importer.LastColumn | src/components/dashboard/file-uploader.tsx:199-203 | the last column whose normalised header is the key, or none exactly when no header normalises to it |
| Importer.AssignIsLastWithKey | src/components/dashboard/file-uploader.tsx:200-203 | writing pairs in order into an object leaves each key with the value of its last pair |
| Importer.LookupIsLastColumn | src/components/dashboard/file-uploader.tsx:199-203 | the lookup has a key exactly when some header normalises to it, and holds the cell of the last such column |
| Importer.LookupOfNormalizedHeaders | src/components/dashboard/file-uploader.tsx:199-203 | normalising the headers before the lookup builds the same lookup |
| Importer.TextOr | src/components/dashboard/file-uploader.tsx:218-226 | the cell text when present and non-empty, otherwise the fallback |
| Importer.NumberOr | src/components/dashboard/file-uploader.tsx:229-246 | the parsed number when the cell parses to a nonzero number, otherwise the fallback |
| Importer.SpanishGrades | src/components/dashboard/file-uploader.tsx:209-214 | at most four grades, none blank |
| Importer.SpanishGradesExactly | src/components/dashboard/file-uploader.tsx:209-214 | the grades are, in column order, exactly the non-blank Spanish-grade cells |
| Importer.BuildStudent | src/components/dashboard/file-uploader.tsx:197-258 | the batch id and tier are stamped in; each text field is its cell when present and non-empty, else "N/A" (the career falls back to the second career column first); the id is the sheet's id or "temp-id-index-now"; each numeric field is its cell's nonzero number, else 0, the work-experience field reading the misspelt column first; thesis credits are the nonzero cell, else 10 for Técnico and Posdoctorado and 0 otherwise; Spanish grades are the non-blank grade cells |
| Importer.RawIsColumnCell | src/components/dashboard/file-uploader.tsx:199-203 | reading a key of the lookup, with or without a fallback, reads the last column whose header normalises to that key |
| Importer.BuildStudentReadsColumns | src/components/dashboard/file-uploader.tsx:205-258 | every field of the built student stated on the sheet row itself: the last matching column's non-empty cell or "N/A", its nonzero number or 0, thesis credits 10 for Técnico and Posdoctorado when missing |
| Importer.TaggedEntries | src/components/dashboard/file-uploader.tsx:276 | tagging a catalog list keeps its names and credits and gives each entry the prefixed id and empty code, grade, term and student id |
| Importer.ElectivesOf | src/components/dashboard/file-uploader.tsx:281-285 | the electives are min(n, pool size) tagged entries taken from the pool without repetition beyond the pool's |
| Importer.WithElectives | src/components/dashboard/file-uploader.tsx:274-286 | a plan is its mandatory tagged block followed by the electives |
| Importer.LicenciaturaCourses | src/components/dashboard/file-uploader.tsx:274-286 | induction ("ind-"), then all basic courses ("lic-bas-"), then 10 professional electives ("lic-prof-") |
| Importer.DoctoradoCourses | src/components/dashboard/file-uploader.tsx:291-309 | induction, then all doctorate basic courses ("doc-bas-"), then 4 professional electives ("doc-prof-") |
| Importer.TecnicoCourses | src/components/dashboard/file-uploader.tsx:315-323 | induction followed by 5 professional electives ("tec-prof-") |
| Importer.MaestriaCourses | src/components/dashboard/file-uploader.tsx:324-337 | induction, then all Maestría basic courses ("bas-"), then 5 professional electives ("prof-") |
| Importer.PlanForTier | src/components/dashboard/file-uploader.tsx:271-338 | each tier label selects its plan: Posdoctorado the doctorate plan, Técnico the técnico plan |
| Importer.PlanCourses | src/components/dashboard/file-uploader.tsx:311-314 | the doctorate plan is a rearrangement of the assembled doctorate list |
| Importer.LicenciaturaPlanSize | src/components/dashboard/file-uploader.tsx:274-286 | a Licenciatura student receives 5 + 20 + 10 = 35 catalog courses |
| Importer.DoctoradoPlanSize | src/components/dashboard/file-uploader.tsx:287-314 | a Doctorado or Posdoctorado student receives 5 + 6 + 4 = 15 catalog courses |
| Importer.TecnicoPlanSize | src/components/dashboard/file-uploader.tsx:315-323 | a Técnico student receives 5 + 5 = 10 catalog courses |
| Importer.MaestriaPlanSize | src/components/dashboard/file-uploader.tsx:324-337 | a Maestría student receives 5 + 7 + 5 = 17 catalog courses |
| Importer.PlanHasMandatoryCourses | src/components/dashboard/file-uploader.tsx:270-338 | every plan contains every induction course, and every plan with a basic block contains all of its basic courses, whatever the shuffles |
| Importer.EmptyLists | src/components/dashboard/file-uploader.tsx:264-267 | every student id gets an empty list and there are no other keys |
| Importer.AddCatalogs | src/components/dashboard/file-uploader.tsx:270-342 | the keys do not change and lists of ids outside the batch are untouched |
| Importer.AddCatalogsUnique | src/components/dashboard/file-uploader.tsx:339-341 | with distinct ids, each student's list is its previous list followed by its own catalog courses |
| Importer.SheetCourses | src/components/dashboard/file-uploader.tsx:350-365 | one course per row, numbered "1", "2", … by position, with grade defaulting to "N/A" |
| Importer.SheetCourseIdsDistinct | src/components/dashboard/file-uploader.tsx:357 | the second sheet's course ids are pairwise distinct |
| Importer.AttachCourses | src/components/dashboard/file-uploader.tsx:367-371 | attaching never adds or removes a student key |
| Importer.AttachCoursesExactly | src/components/dashboard/file-uploader.tsx:367-371 | each list receives, in sheet order, exactly the sheet courses carrying its non-empty student id |
| Importer.Students | src/components/dashboard/file-uploader.tsx:197-258 | one student per first-sheet row, all sharing one batch id |
| Importer.CourseLists | src/components/dashboard/file-uploader.tsx:260-372 | the course lists are keyed by exactly the imported student ids |
| Importer.Import | src/components/dashboard/file-uploader.tsx:131-374 | each error happens exactly under its condition (wrong file name, unreadable first sheet, empty first sheet); on success every student has the batch id "tier-now" and the chosen tier, and the course-list keys are exactly the student ids |
| Importer.CourseListOfStudent | src/components/dashboard/file-uploader.tsx:264-371 | with distinct ids, a student's list is its catalog courses followed by its second-sheet courses |
| Importer.ImportedCourseLists | src/components/dashboard/file-uploader.tsx:264-374 | the same, for the records a successful import hands to the page |
| Roster.WithSpec | src/app/page.tsx:134-137 | only the named tier's specialization list is replaced |
| Roster.Initial | src/app/page.tsx:39-63 | no data, no selection, the default logo, no signatures, empty specialization lists, no course being edited |
| Roster.Reset | src/app/page.tsx:193-207 | data, selection, logo, signatures and specialization lists return to their initial values; the course-edit fields are kept |
| Roster.ResetIsInitial | src/app/page.tsx:193-207 | reset is the initial state except for the course-edit fields, and resetting twice is resetting once |
| Roster.UpsertAllIsMap | src/app/page.tsx:108-114 | the Map built from a student list keeps the ids in first-occurrence order and each id's last record |
| Roster.UpsertAllAppend | src/app/page.tsx:108-113 | setting two lists one after the other is setting their concatenation |
| Roster.MergeIsMap | src/app/page.tsx:108-114 | the merged roster has the ids of previous-then-new in first-occurrence order, each with its last record |
| Roster.MergeLastWriteWins | src/app/page.tsx:108-114 | merged ids are distinct; an id in the import takes the import's record wholesale; any other id keeps its previous record |
| Roster.MergeOrder | src/app/page.tsx:108-114 | previous students keep their order and new ids follow in import order |
| Roster.MergeRecords | src/app/page.tsx:108-124 | distinct ids; the course-list keys are the union; each imported key takes the new list; every other key keeps its previous list |
| Roster.HandleUpload | src/app/page.tsx:102-127 | uploading into empty state yields exactly the import; otherwise a merge with distinct ids; the selection is cleared and nothing else changes |
| Roster.UploadFile | src/app/page.tsx:102-106 | a failed import leaves the page unchanged; a successful one is an upload of the imported records |
| Roster.RestrictCourses | src/app/page.tsx:222-228 | the kept keys are exactly those of remaining students that had a list, each list unchanged |
| Roster.HandleDeleteBatch | src/app/page.tsx:209-235 | no data stays no data; deleting every student resets the page; otherwise the roster is exactly the students of other batches, every course key belongs to a remaining student, kept lists are unchanged and nothing but the data changes |
| Roster.DeleteBatchKeepsOthers | src/app/page.tsx:213-215 | the remaining students are, in their original order, exactly those of other batches |
| Roster.DeleteBatchIdempotent | src/app/page.tsx:209-235 | deleting the same batch twice is deleting it once |
| Roster.NumToSelect | src/app/page.tsx:142-156 | the number of electives is always 0, 8, 15 or 18 |
| Roster.NumToSelectForTier | src/app/page.tsx:142-156 | Licenciatura 15, Maestría 8, Doctorado and Posdoctorado 8, Técnico 18 |
| Roster.SpecCourse | src/app/page.tsx:162-168 | an injected course keeps the template's name and credits, has a "spec-" id, the student's id and empty grade and term |
| Roster.SpecPicks | src/app/page.tsx:159-168 | min(n, catalog size) picks, each a "spec-" course of the student, drawn from the catalog without repetition beyond the catalog's |
| Roster.InjectSpec | src/app/page.tsx:170-186 | the students are unchanged; the student gains a list if they had none; every other list is unchanged |
| Roster.InjectSpecShape | src/app/page.tsx:173-181 | the student's list is their old non-"spec-" courses in order followed by the picks |
| Roster.InjectSpecReplaces | src/app/page.tsx:173-181 | a second injection for the same student discards the first one's courses |
| Roster.HandleSpecializationUpload | src/app/page.tsx:129-191 | only the tier's specialization list is replaced; no data stays no data; an empty catalog or a zero count leaves the data unchanged; otherwise the data is the injection |
| Roster.FindCourse | src/app/page.tsx:84-86 | the first position holding the id, or none exactly when no course has it |
| Roster.RenameFirst | src/app/page.tsx:82-90 | same length; only the first course with the id is renamed; every other course is unchanged |
| Roster.RenameFirstIdempotent | src/app/page.tsx:82-90 | renaming twice is renaming once |
| Roster.HandleUpdateCourseName | src/app/page.tsx:70-100 | a no-op without an edited course, data or selected student; otherwise the trimmed name lands on the selected student's first matching course, every other list is untouched, and the edit is cleared |
| Roster.EditWithoutChangeKeepsRecords | src/app/page.tsx:65-100 | starting to edit a course and saving without typing leaves the records unchanged when the name is already trimmed |

## Left out

- Spreadsheet parsing (`XLSX.read`, `sheet_to_json`) and `File.arrayBuffer` are foreign I/O. A workbook is a sequence of sheets of (header, text) rows. An unreadable workbook is modelled as an empty one, with the first-sheet error; the parser's own messages are not modelled.
- JavaScript object key order for integer-like headers is left out. Rows keep the sheet's column order.
- `normalize("NFD")` and `toLowerCase` beyond Latin-1 are left out: only ASCII, the Latin-1 accented letters and the combining marks U+0300–U+036F are modelled.
- `Date.now()` is read several times in one import or injection, but the model passes one `now` to each operation.
- `Math.random()` and `Array.prototype.sort` with a random comparator are engine-dependent. Draws are parameters and sorts are arbitrary permutations. The seeded sort is an oracle from (seed state, length), because its comparator never looks at the elements.
- `toFixed(2)`, `toLocaleDateString` and number-to-text formatting are left out. Credits and hours per course are exact `real`/`int` values.
- The deep copies the page makes through a JSON round trip are plain value semantics in the model.
- Logo and signature uploads (`FileReader` data URLs) are left out. The state keeps the fields, and reset clears them.
- PDF export (html2canvas/jsPDF geometry, DOM hiding), toasts, dialogs' focus handling and all rendering are left out.
- The record tables the dashboard imports but whose source is not part of this model are left out: maestria, licenciatura, técnico and posdoctorado. `Dashboard.KardexTableFor` says which one is chosen.
- The header, skeletons, curriculum-closure and thesis-report components, the layout, and the institution-name button are left out. The button's one rule duplicates `DisplayName.SetUniversityName`.
- The student list's batch display name (`getBatchDisplayName`) is left out. It only formats dates.
- The equivalency memo is modelled as the code filters it: every course except induction, "spec-" and thesis courses. The component's comment (homologacion-cursos.tsx:17) asks for only basic and professional courses, but the professional set it builds is never consulted, so this model does not restrict to it.
- When a batch deletion removes every student, the reset it triggers and the cleared data are modelled as one transition, `Roster.Reset`. When students remain, the selected student is kept, as in the source.
- Roster.MergeOrder: requires the previous roster's ids to be distinct. That is the case after any upload into a non-empty state. `Roster.MergeIsMap` covers every input.
- Importer.NumberOr: parses the decimal notation a sheet cell holds (optional sign, digits, optional fraction). Exponents, hexadecimal and `Infinity` are not recognised.
- AcademicTable.Average: bounds the average only for at most 25 grades, because beyond that the source's division by 25 can exceed 100.
- Importer.ElectivesOf: states membership and count, not which electives a given seed picks, because the order comes from the engine's sort.
- Importer.AttachCourses: drops a second-sheet course whose student id is not a known student. In the source the course lists are a plain object (file-uploader.tsx:367-369). An id that names an inherited object member, such as "constructor" or "toString", therefore finds a truthy value with no `push`. The resulting exception aborts the whole import, and the catch at file-uploader.tsx:375-377 reports it. JavaScript's prototype chain is not modelled, so neither is this failure.
- StudentSelector.SpecRowsToCourses: a specialization sheet row without a name column gives an undefined name (student-selector.tsx:94). The doctorate table then throws when it lower-cases that name (doctorado-record-table.tsx:35). The model has no undefined strings: such a row's name is the empty string, and the table shows it.

## Findings

| source | as written | input that shows it | evidently intended | confidence | as-written member | corrected member |
|---|---|---|---|---|---|---|
| src/components/dashboard/academic-record-table.tsx:150-154 | the thesis row is shown whenever there are at most 25 courses, but the blank rows are numbered after it only when the student has thesis credits | a student with thesis credits 0 and no courses: the thesis row and the first blank row are both numbered 1 | blank rows numbered after every row actually shown, 1, 2, 3, … | not executed | AcademicTable.RowsAsWrittenRepeatNumber | AcademicTable.Rows |
