/** The page's record store and its state transitions (src/app/page.tsx):
    merging an upload, deleting a batch, injecting specialization courses,
    renaming a course and resetting. */
module Roster {
  import opened Wrappers
  import opened Text
  import opened Seqs
  import opened AcademicData
  import opened Shuffle
  import Importer

  // ---------------------------------------------------------------------
  // Page state
  // ---------------------------------------------------------------------

  const DefaultLogoUrl := "/logo.png"

  /** The uploaded specialization catalogs, one per key. */
  datatype SpecCatalogs = SpecCatalogs(
    tecnico: seq<CourseTemplate>,
    licenciatura: seq<CourseTemplate>,
    maestria: seq<CourseTemplate>,
    doctorado: seq<CourseTemplate>)

  const NoSpecCatalogs := SpecCatalogs([], [], [], [])

  function SpecOf(c: SpecCatalogs, k: SpecKey): seq<CourseTemplate> {
    match k
    case SpecTecnico => c.tecnico
    case SpecLicenciatura => c.licenciatura
    case SpecMaestria => c.maestria
    case SpecDoctorado => c.doctorado
  }

  /** The catalogs with the list of one tier replaced. */
  function WithSpec(c: SpecCatalogs, k: SpecKey, courses: seq<CourseTemplate>): (r: SpecCatalogs)
    ensures SpecOf(r, k) == courses
    ensures forall other :: other != k ==> SpecOf(r, other) == SpecOf(c, other)
  {
    match k
    case SpecTecnico => c.(tecnico := courses)
    case SpecLicenciatura => c.(licenciatura := courses)
    case SpecMaestria => c.(maestria := courses)
    case SpecDoctorado => c.(doctorado := courses)
  }

  /** The page's state. The university name lives in its own context and is
      not part of it. */
  datatype PageState = PageState(
    data: Option<Records>,
    selected: Option<Student>,
    logoUrl: string,
    counselorSignature: Option<string>,
    secretarySignature: Option<string>,
    coordinatorSignature: Option<string>,
    specialization: SpecCatalogs,
    editingCourse: Option<Course>,
    newCourseName: string)

  function Initial(): (st: PageState)
    ensures st.data.None? && st.selected.None? && st.logoUrl == DefaultLogoUrl
    ensures st.counselorSignature.None? && st.secretarySignature.None? && st.coordinatorSignature.None?
    ensures forall k :: SpecOf(st.specialization, k) == []
    ensures st.editingCourse.None? && st.newCourseName == ""
  {
    PageState(None, None, DefaultLogoUrl, None, None, None, NoSpecCatalogs, None, "")
  }

  /** `handleReset`: clears the records, the selection, the logo, the
      signatures and the specialization catalogs; the course being edited
      and its draft name are left alone. */
  function Reset(st: PageState): (r: PageState)
    ensures r.data.None? && r.selected.None? && r.logoUrl == DefaultLogoUrl
    ensures r.counselorSignature.None? && r.secretarySignature.None? && r.coordinatorSignature.None?
    ensures forall k :: SpecOf(r.specialization, k) == []
    ensures r.editingCourse == st.editingCourse && r.newCourseName == st.newCourseName
  {
    st.(data := None, selected := None, logoUrl := DefaultLogoUrl,
        counselorSignature := None, secretarySignature := None, coordinatorSignature := None,
        specialization := NoSpecCatalogs)
  }

  /** Resetting is the initial state up to the edit fields, and doing it
      twice is doing it once. */
  lemma ResetIsInitial(st: PageState)
    ensures Reset(st) == Initial().(editingCourse := st.editingCourse, newCourseName := st.newCourseName)
    ensures Reset(Reset(st)) == Reset(st)
  {
  }

  // ---------------------------------------------------------------------
  // Merging an upload
  // ---------------------------------------------------------------------

  function Ids(xs: seq<Student>): (ids: seq<string>)
    ensures |ids| == |xs| && forall i :: 0 <= i < |xs| ==> ids[i] == xs[i].studentId
  {
    seq(|xs|, i requires 0 <= i < |xs| => xs[i].studentId)
  }

  predicate Distinct(ids: seq<string>) {
    forall i, j :: 0 <= i < j < |ids| ==> ids[i] != ids[j]
  }

  lemma IdsAppend(a: seq<Student>, b: seq<Student>)
    ensures Ids(a + b) == Ids(a) + Ids(b)
  {
  }

  /** The ids in order of first occurrence: the key order of a `Map` built
      by inserting them one after another. */
  function Dedupe(ids: seq<string>): seq<string> {
    if ids == [] then []
    else
      var d := Dedupe(ids[..|ids| - 1]);
      if ids[|ids| - 1] in d then d else d + [ids[|ids| - 1]]
  }

  /** Dedupe keeps every id once and nothing else. */
  lemma {:induction false} DedupeMembers(ids: seq<string>)
    ensures Distinct(Dedupe(ids))
    ensures forall x :: x in Dedupe(ids) <==> x in ids
  {
    if ids != [] {
      var n := |ids| - 1;
      DedupeMembers(ids[..n]);
      assert ids == ids[..n] + [ids[n]];
    }
  }

  lemma DedupeSnoc(ids: seq<string>, x: string)
    ensures Dedupe(ids + [x]) == if x in ids then Dedupe(ids) else Dedupe(ids) + [x]
  {
    DedupeMembers(ids);
    assert (ids + [x])[..|ids|] == ids;
  }

  /** Distinct ids are their own first occurrences. */
  lemma {:induction false} DedupeDistinct(ids: seq<string>)
    requires Distinct(ids)
    ensures Dedupe(ids) == ids
  {
    if ids != [] {
      var n := |ids| - 1;
      DedupeDistinct(ids[..n]);
      assert ids == ids[..n] + [ids[n]];
      DedupeSnoc(ids[..n], ids[n]);
    }
  }

  /** The test for an id not among `a`. */
  function NotIn(a: seq<string>): string -> bool {
    (x: string) => x !in a
  }

  lemma InFilter(s: seq<string>, p: string -> bool, x: string)
    ensures x in Filter(s, p) <==> x in s && p(x)
  {
    FilterMembers(s, p);
  }

  /** One step of `DedupeAppend`: the last id of `b`. */
  lemma DedupeAppendStep(a: seq<string>, front: seq<string>, kept: seq<string>, filtered: seq<string>, x: string)
    requires Dedupe(front) == Dedupe(a) + Dedupe(kept)
    requires forall y :: y in front <==> y in a || y in kept
    requires filtered == if x in a then kept else kept + [x]
    ensures Dedupe(front + [x]) == Dedupe(a) + Dedupe(filtered)
  {
    DedupeSnoc(front, x);
    if x !in a {
      DedupeSnoc(kept, x);
    }
  }

  /** An id is among `a` and the first `n` ids of `b` exactly when it is
      among `a` or among those of the `n` that are new. */
  lemma DedupeAppendMembers(a: seq<string>, b: seq<string>, n: nat)
    requires n <= |b|
    ensures forall y :: y in a + b[..n] <==> y in a || y in Filter(b[..n], NotIn(a))
  {
    forall y
      ensures y in a + b[..n] <==> y in a || y in Filter(b[..n], NotIn(a))
    {
      InFilter(b[..n], NotIn(a), y);
      assert y in a + b[..n] <==> y in a || y in b[..n];
    }
  }

  /** The new ids of `b`, one more element at a time. */
  lemma NewIdsSnoc(a: seq<string>, b: seq<string>)
    requires b != []
    ensures Filter(b, NotIn(a)) == if b[|b| - 1] in a then Filter(b[..|b| - 1], NotIn(a))
      else Filter(b[..|b| - 1], NotIn(a)) + [b[|b| - 1]]
  {
    FilterSnoc(b, NotIn(a));
    assert NotIn(a)(b[|b| - 1]) == (b[|b| - 1] !in a);
  }

  /** The ids first seen in `a` come first, in their order, followed by the
      new ids of `b` in theirs. */
  lemma {:induction false} DedupeAppend(a: seq<string>, b: seq<string>)
    ensures Dedupe(a + b) == Dedupe(a) + Dedupe(Filter(b, NotIn(a)))
    decreases |b|
  {
    if b == [] {
      assert a + b == a;
    } else {
      var n := |b| - 1;
      DedupeAppend(a, b[..n]);
      DedupeAppendMembers(a, b, n);
      NewIdsSnoc(a, b);
      assert a + b == (a + b[..n]) + [b[n]];
      DedupeAppendStep(a, a + b[..n], Filter(b[..n], NotIn(a)), Filter(b, NotIn(a)), b[n]);
    }
  }

  /** The last student with the id, or None: the value a `Map` keeps for it
      after all the insertions. */
  function LastWithId(xs: seq<Student>, id: string): (o: Option<Student>)
    ensures o.Some? <==> id in Ids(xs)
    ensures o.Some? ==> o.value in xs && o.value.studentId == id
  {
    if xs == [] then None
    else
      var init := xs[..|xs| - 1];
      var x := xs[|xs| - 1];
      assert xs == init + [x];
      IdsAppend(init, [x]);
      if x.studentId == id then Some(x) else LastWithId(init, id)
  }

  lemma LastWithIdSnoc(xs: seq<Student>, x: Student, id: string)
    ensures LastWithId(xs + [x], id) == if x.studentId == id then Some(x) else LastWithId(xs, id)
  {
    assert (xs + [x])[..|xs|] == xs;
  }

  /** A later occurrence overrides an earlier one. */
  lemma {:induction false} LastWithIdAppend(a: seq<Student>, b: seq<Student>, id: string)
    ensures LastWithId(a + b, id) == if id in Ids(b) then LastWithId(b, id) else LastWithId(a, id)
    decreases |b|
  {
    if b == [] {
      assert a + b == a;
    } else {
      var n := |b| - 1;
      LastWithIdAppend(a, b[..n], id);
      assert a + b == (a + b[..n]) + [b[n]];
      assert b == b[..n] + [b[n]];
      LastWithIdSnoc(a + b[..n], b[n], id);
      LastWithIdSnoc(b[..n], b[n], id);
      IdsAppend(b[..n], [b[n]]);
    }
  }

  /** Overwriting an entry that does not carry the id, with one that does
      not either, leaves the lookup of the id alone. */
  lemma {:induction false} LastWithIdUpdate(r: seq<Student>, j: nat, x: Student, id: string)
    requires j < |r| && r[j].studentId != id && x.studentId != id
    ensures LastWithId(r[j := x], id) == LastWithId(r, id)
  {
    var n := |r| - 1;
    var u := r[j := x];
    assert u == u[..n] + [u[n]];
    assert r == r[..n] + [r[n]];
    LastWithIdSnoc(u[..n], u[n], id);
    LastWithIdSnoc(r[..n], r[n], id);
    if j < n {
      assert u[..n] == r[..n][j := x];
      LastWithIdUpdate(r[..n], j, x, id);
    } else {
      assert u[..n] == r[..n];
    }
  }

  /** In a list of distinct ids, the lookup finds the one entry. */
  lemma {:induction false} LastWithIdDistinct(r: seq<Student>, k: nat)
    requires Distinct(Ids(r)) && k < |r|
    ensures LastWithId(r, r[k].studentId) == Some(r[k])
  {
    var n := |r| - 1;
    assert r == r[..n] + [r[n]];
    LastWithIdSnoc(r[..n], r[n], r[k].studentId);
    if k < n {
      assert Ids(r)[k] != Ids(r)[n];
      assert Ids(r[..n]) == Ids(r)[..n];
      LastWithIdDistinct(r[..n], k);
    }
  }

  /** The first position holding the id. */
  function IndexOfId(entries: seq<Student>, id: string): (j: nat)
    requires id in Ids(entries)
    ensures j < |entries| && entries[j].studentId == id
    ensures forall i :: 0 <= i < j ==> entries[i].studentId != id
  {
    if entries[0].studentId == id then 0
    else
      assert Ids(entries[1..]) == Ids(entries)[1..];
      1 + IndexOfId(entries[1..], id)
  }

  /** Setting a student under its id in a `Map` held as its entries in key order:
      an existing key keeps its place and takes the new value, a new key is
      appended. */
  function Upsert(entries: seq<Student>, s: Student): seq<Student> {
    if s.studentId in Ids(entries) then entries[IndexOfId(entries, s.studentId) := s]
    else entries + [s]
  }

  /** Inserting the students one after another. */
  function UpsertAll(entries: seq<Student>, xs: seq<Student>): seq<Student> {
    if xs == [] then entries
    else Upsert(UpsertAll(entries, xs[..|xs| - 1]), xs[|xs| - 1])
  }

  lemma UpsertStep(r: seq<Student>, xs: seq<Student>, x: Student)
    requires Ids(r) == Dedupe(Ids(xs))
    requires forall id :: LastWithId(r, id) == LastWithId(xs, id)
    ensures Ids(Upsert(r, x)) == Dedupe(Ids(xs + [x]))
    ensures forall id :: LastWithId(Upsert(r, x), id) == LastWithId(xs + [x], id)
  {
    var u := Upsert(r, x);
    IdsAppend(xs, [x]);
    DedupeSnoc(Ids(xs), x.studentId);
    DedupeMembers(Ids(xs));
    if x.studentId in Ids(r) {
      var j := IndexOfId(r, x.studentId);
      assert Ids(u) == Ids(r);
      forall id
        ensures LastWithId(u, id) == LastWithId(xs + [x], id)
      {
        LastWithIdSnoc(xs, x, id);
        if id == x.studentId {
          assert u[j].studentId == id;
          LastWithIdDistinct(u, j);
        } else {
          LastWithIdUpdate(r, j, x, id);
        }
      }
    } else {
      IdsAppend(r, [x]);
      forall id
        ensures LastWithId(u, id) == LastWithId(xs + [x], id)
      {
        LastWithIdSnoc(xs, x, id);
        LastWithIdSnoc(r, x, id);
      }
    }
  }

  /** Inserting a sequence of students into an empty `Map` gives their ids
      in order of first occurrence, each holding its last student. */
  lemma {:induction false} UpsertAllIsMap(xs: seq<Student>)
    ensures Ids(UpsertAll([], xs)) == Dedupe(Ids(xs))
    ensures forall id :: LastWithId(UpsertAll([], xs), id) == LastWithId(xs, id)
  {
    if xs != [] {
      var n := |xs| - 1;
      UpsertAllIsMap(xs[..n]);
      assert xs == xs[..n] + [xs[n]];
      UpsertStep(UpsertAll([], xs[..n]), xs[..n], xs[n]);
    }
  }

  lemma {:induction false} UpsertAllAppend(e: seq<Student>, a: seq<Student>, b: seq<Student>)
    ensures UpsertAll(e, a + b) == UpsertAll(UpsertAll(e, a), b)
    decreases |b|
  {
    if b == [] {
      assert a + b == a;
    } else {
      var n := |b| - 1;
      UpsertAllAppend(e, a, b[..n]);
      assert (a + b)[..|a + b| - 1] == a + b[..n];
    }
  }

  /** The students after an upload: a `Map` keyed by id filled with the
      previous students, then with the uploaded ones. */
  function MergeStudents(prev: seq<Student>, incoming: seq<Student>): seq<Student> {
    UpsertAll(UpsertAll([], prev), incoming)
  }

  /** The merged roster is the `Map` of all the students, previous first:
      ids in order of first occurrence, each with its last record. */
  lemma MergeIsMap(prev: seq<Student>, incoming: seq<Student>)
    ensures Ids(MergeStudents(prev, incoming)) == Dedupe(Ids(prev + incoming))
    ensures forall id :: LastWithId(MergeStudents(prev, incoming), id) == LastWithId(prev + incoming, id)
  {
    UpsertAllAppend([], prev, incoming);
    UpsertAllIsMap(prev + incoming);
  }

  /** After a merge the ids are distinct; an uploaded id holds its last
      uploaded record; any other id holds its previous record. */
  lemma MergeLastWriteWins(prev: seq<Student>, incoming: seq<Student>, id: string)
    ensures Distinct(Ids(MergeStudents(prev, incoming)))
    ensures id in Ids(incoming) ==> LastWithId(MergeStudents(prev, incoming), id) == LastWithId(incoming, id)
    ensures id !in Ids(incoming) ==> LastWithId(MergeStudents(prev, incoming), id) == LastWithId(prev, id)
  {
    MergeIsMap(prev, incoming);
    DedupeMembers(Ids(prev + incoming));
    LastWithIdAppend(prev, incoming, id);
  }

  /** When the previous roster has distinct ids, it keeps its order at the
      front and the new ids follow in upload order. */
  lemma MergeOrder(prev: seq<Student>, incoming: seq<Student>)
    requires Distinct(Ids(prev))
    ensures Ids(MergeStudents(prev, incoming))
      == Ids(prev) + Dedupe(Filter(Ids(incoming), NotIn(Ids(prev))))
  {
    MergeIsMap(prev, incoming);
    IdsAppend(prev, incoming);
    DedupeAppend(Ids(prev), Ids(incoming));
    DedupeDistinct(Ids(prev));
  }

  /** The merged course lists, where an imported list replaces the previous
      one for the same id, and the merged roster. */
  function MergeRecords(prev: Records, incoming: Records): (r: Records)
    ensures Distinct(Ids(r.students))
    ensures r.coursesByStudent.Keys == prev.coursesByStudent.Keys + incoming.coursesByStudent.Keys
    ensures forall k :: k in incoming.coursesByStudent ==> r.coursesByStudent[k] == incoming.coursesByStudent[k]
    ensures forall k :: k in prev.coursesByStudent && k !in incoming.coursesByStudent ==>
      r.coursesByStudent[k] == prev.coursesByStudent[k]
  {
    MergeIsMap(prev.students, incoming.students);
    DedupeMembers(Ids(prev.students + incoming.students));
    Records(MergeStudents(prev.students, incoming.students), prev.coursesByStudent + incoming.coursesByStudent)
  }

  /** `handleUpload`: the first upload is taken as is, later ones are merged
      in; the selection is cleared and nothing else changes. */
  function HandleUpload(st: PageState, incoming: Records): (r: PageState)
    ensures st.data.None? ==> r.data == Some(incoming)
    ensures st.data.Some? ==> r.data.Some? && Distinct(Ids(r.data.value.students))
    ensures r.selected.None?
    ensures r == st.(data := r.data, selected := None)
  {
    if st.data.None? then st.(data := Some(incoming), selected := None)
    else st.(data := Some(MergeRecords(st.data.value, incoming)), selected := None)
  }

  /** The file uploader's `onUpload`: only a successful import reaches the
      store. */
  function UploadFile(st: PageState, tier: Importer.Tier, fileName: string, wb: Importer.Workbook,
                      now: nat, order: Oracle, shuffles: Importer.Shuffles): (r: PageState)
    requires ValidOracle(order) && Importer.ValidShuffles(shuffles)
    ensures Importer.Import(tier, fileName, wb, now, order, shuffles).Failure? ==> r == st
    ensures Importer.Import(tier, fileName, wb, now, order, shuffles).Success? ==>
      r == HandleUpload(st, Importer.Import(tier, fileName, wb, now, order, shuffles).value)
  {
    match Importer.Import(tier, fileName, wb, now, order, shuffles)
    case Success(d) => HandleUpload(st, d)
    case Failure(_) => st
  }

  // ---------------------------------------------------------------------
  // Deleting a batch
  // ---------------------------------------------------------------------

  function OtherBatch(batchId: string): Student -> bool {
    (s: Student) => s.batchId != batchId
  }

  function Remaining(students: seq<Student>, batchId: string): (r: seq<Student>)
    ensures |r| <= |students|
  {
    Filter(students, OtherBatch(batchId))
  }

  /** The course lists of the remaining students that have one. */
  function RestrictCourses(m: map<string, seq<Course>>, students: seq<Student>): (r: map<string, seq<Course>>)
    ensures forall k :: k in r <==> k in m && k in Ids(students)
    ensures forall k :: k in r ==> r[k] == m[k]
  {
    map k | k in m && k in Ids(students) :: m[k]
  }

  /** `handleDeleteBatch`. */
  function HandleDeleteBatch(st: PageState, batchId: string): (r: PageState)
    ensures st.data.None? ==> r == st
    ensures st.data.Some? && Remaining(st.data.value.students, batchId) == [] ==> r == Reset(st)
    ensures r.data.Some? ==> st.data.Some? && r == st.(data := r.data)
    ensures r.data.Some? ==> r.data.value.students == Remaining(st.data.value.students, batchId)
    ensures r.data.Some? ==> forall i :: 0 <= i < |r.data.value.students| ==>
      r.data.value.students[i].batchId != batchId
    ensures r.data.Some? ==> forall k :: k in r.data.value.coursesByStudent <==>
      k in st.data.value.coursesByStudent && k in Ids(r.data.value.students)
    ensures r.data.Some? ==> forall k :: k in r.data.value.coursesByStudent ==>
      r.data.value.coursesByStudent[k] == st.data.value.coursesByStudent[k]
  {
    if st.data.None? then st
    else
      var rest := Remaining(st.data.value.students, batchId);
      FilterSatisfies(st.data.value.students, OtherBatch(batchId));
      if rest == [] then Reset(st)
      else st.(data := Some(Records(rest, RestrictCourses(st.data.value.coursesByStudent, rest))))
  }

  /** The remaining students are, in their original order, exactly those of
      other batches. */
  lemma DeleteBatchKeepsOthers(students: seq<Student>, batchId: string) returns (idx: seq<nat>)
    ensures |idx| == |Remaining(students, batchId)| && StrictlyIncreasing(idx)
    ensures forall i :: 0 <= i < |idx| ==> idx[i] < |students| && Remaining(students, batchId)[i] == students[idx[i]]
    ensures forall j :: 0 <= j < |students| ==> (students[j].batchId != batchId <==> j in idx)
  {
    idx := FilterPositions(students, OtherBatch(batchId));
  }

  /** Deleting the same batch twice is deleting it once. */
  lemma DeleteBatchIdempotent(st: PageState, batchId: string)
    ensures HandleDeleteBatch(HandleDeleteBatch(st, batchId), batchId) == HandleDeleteBatch(st, batchId)
  {
    if st.data.Some? {
      var d := st.data.value;
      var rest := Remaining(d.students, batchId);
      FilterIdempotent(d.students, OtherBatch(batchId));
      if rest != [] {
        var m := RestrictCourses(d.coursesByStudent, rest);
        assert RestrictCourses(m, rest) == m;
      }
    }
  }

  // ---------------------------------------------------------------------
  // Specialization courses
  // ---------------------------------------------------------------------

  predicate IsSpecId(id: string) {
    StartsWith(id, "spec-")
  }

  predicate NotSpec(c: Course) {
    !IsSpecId(c.id)
  }

  /** How many specialization courses a student of the grade level gets. */
  function NumToSelect(gradeLevel: string): (n: nat)
    ensures n == 0 || n == 8 || n == 15 || n == 18
  {
    var g := ToLower(gradeLevel);
    if Contains(g, "licenciatura") then 15
    else if Contains(g, "maestria") then 8
    else if Contains(g, "doctorado") then 8
    else if Contains(g, "técnico") || Contains(g, "tecnico") then 18
    else 0
  }

  /** The grade level an import stores selects 15 courses for Licenciatura,
      8 for Maestría, Doctorado and Posdoctorado, and 18 for Técnico. */
  lemma NumToSelectForTier(t: Importer.Tier)
    ensures NumToSelect(Importer.TierLabel(t)) == match t
      case Licenciatura => 15
      case Maestria => 8
      case Doctorado => 8
      case Posdoctorado => 8
      case Tecnico => 18
  {
    Importer.TierLabelLower(t);
    var g := Importer.LowerLabel(t);
    match t
    case Licenciatura =>
      assert "licenciatura" <= g[0..];
    case Maestria =>
      Importer.Absent(g, "licenciatura");
      assert "maestria" <= g[0..];
    case Doctorado =>
      Importer.Absent(g, "licenciatura");
      Importer.Absent(g, "maestria");
      assert "doctorado" <= g[0..];
    case Posdoctorado =>
      Importer.Absent(g, "licenciatura");
      Importer.Absent(g, "maestria");
      assert "doctorado" <= g[3..];
    case Tecnico =>
      Importer.Absent(g, "licenciatura");
      Importer.Absent(g, "maestria");
      Importer.Absent(g, "doctorado");
      assert "técnico" <= g[0..];
  }

  /** A picked catalog entry as a course of the student:
      `spec-{key}-{index}-{now}`, with no grade and no term. */
  function SpecCourse(t: CourseTemplate, key: SpecKey, index: nat, now: nat, studentId: string): (c: Course)
    ensures IsSpecId(c.id) && c.code == "" && c.grade == "" && c.term == ""
    ensures CourseTemplate(c.name, c.credits) == t && c.studentId == studentId
  {
    Course("spec-" + SpecKeyText(key) + "-" + NatToString(index) + "-" + NatToString(now),
           "", t.name, t.credits, "", "", studentId)
  }

  function Templates(cs: seq<Course>): (ts: seq<CourseTemplate>)
    ensures |ts| == |cs| && forall i :: 0 <= i < |cs| ==> ts[i] == CourseTemplate(cs[i].name, cs[i].credits)
  {
    seq(|cs|, i requires 0 <= i < |cs| => CourseTemplate(cs[i].name, cs[i].credits))
  }

  /** The first `n` entries of the shuffled catalog (`code` is the order
      the sort by `Math.random` produced), as courses of the student. */
  function SpecPicks(courses: seq<CourseTemplate>, key: SpecKey, code: seq<nat>, n: nat, now: nat, studentId: string)
    : (picks: seq<Course>)
    requires IsLehmerCode(code, |courses|)
    ensures |picks| == Min(n, |courses|)
    ensures forall i :: 0 <= i < |picks| ==>
      IsSpecId(picks[i].id) && picks[i].studentId == studentId && picks[i].grade == "" && picks[i].term == ""
    ensures multiset(Templates(picks)) <= multiset(courses)
  {
    var shuffled := Permute(courses, code);
    var k := Min(n, |courses|);
    var picks := seq(k, i requires 0 <= i < k => SpecCourse(shuffled[i], key, i, now, studentId));
    PicksFromCatalog(picks, shuffled, courses, k);
    picks
  }

  lemma PicksFromCatalog(picks: seq<Course>, shuffled: seq<CourseTemplate>, courses: seq<CourseTemplate>, k: nat)
    requires multiset(shuffled) == multiset(courses) && k <= |shuffled| && |picks| == k
    requires forall i :: 0 <= i < k ==> CourseTemplate(picks[i].name, picks[i].credits) == shuffled[i]
    ensures multiset(Templates(picks)) <= multiset(courses)
  {
    assert Templates(picks) == shuffled[..k];
    PrefixOfRearrangement(shuffled, courses, k);
  }

  /** The student's courses before the injection; none when the student has no list. */
  function CoursesOf(d: Records, studentId: string): seq<Course> {
    if studentId in d.coursesByStudent then d.coursesByStudent[studentId] else []
  }

  /** The student's non-`spec-` courses, in order, followed by the picks. */
  function InjectSpec(d: Records, student: Student, courses: seq<CourseTemplate>, key: SpecKey, code: seq<nat>, now: nat)
    : (r: Records)
    requires IsLehmerCode(code, |courses|)
    ensures r.students == d.students
    ensures r.coursesByStudent.Keys == d.coursesByStudent.Keys + {student.studentId}
    ensures forall k :: k in d.coursesByStudent && k != student.studentId ==>
      r.coursesByStudent[k] == d.coursesByStudent[k]
  {
    var kept := Filter(CoursesOf(d, student.studentId), NotSpec);
    var picks := SpecPicks(courses, key, code, NumToSelect(student.gradeLevel), now, student.studentId);
    d.(coursesByStudent := d.coursesByStudent[student.studentId := kept + picks])
  }

  /** After an injection the student's list holds their earlier non-`spec-`
      courses unchanged and in order, then as many new `spec-` courses as
      the grade level asks for (fewer if the catalog is shorter), each an
      entry of the catalog, owned by the student, without grade or term. */
  lemma InjectSpecShape(d: Records, student: Student, courses: seq<CourseTemplate>, key: SpecKey, code: seq<nat>, now: nat)
    requires IsLehmerCode(code, |courses|)
    ensures var l := InjectSpec(d, student, courses, key, code, now).coursesByStudent[student.studentId];
      var kept := Filter(CoursesOf(d, student.studentId), NotSpec);
      && |l| == |kept| + Min(NumToSelect(student.gradeLevel), |courses|)
      && Filter(l, NotSpec) == kept
      && (forall i :: 0 <= i < |l| ==> (i < |kept| <==> NotSpec(l[i])))
      && (forall i :: |kept| <= i < |l| ==>
            l[i].studentId == student.studentId && l[i].grade == "" && l[i].term == "")
      && multiset(Templates(l[|kept|..])) <= multiset(courses)
  {
    var before := CoursesOf(d, student.studentId);
    var kept := Filter(before, NotSpec);
    var picks := SpecPicks(courses, key, code, NumToSelect(student.gradeLevel), now, student.studentId);
    var l := kept + picks;
    FilterSatisfies(before, NotSpec);
    FilterAppend(kept, picks, NotSpec);
    FilterIdempotent(before, NotSpec);
    FilterNonePass(picks, NotSpec);
    assert l[|kept|..] == picks;
  }

  /** The injection reads only the other students' lists and the
      student's non-`spec-` courses. */
  lemma InjectSpecCongruent(d: Records, e: Records, student: Student, courses: seq<CourseTemplate>, key: SpecKey,
                            code: seq<nat>, now: nat)
    requires IsLehmerCode(code, |courses|)
    requires e.students == d.students
    requires forall k :: k != student.studentId ==> (k in e.coursesByStudent <==> k in d.coursesByStudent)
    requires forall k :: k != student.studentId && k in d.coursesByStudent ==> e.coursesByStudent[k] == d.coursesByStudent[k]
    requires Filter(CoursesOf(e, student.studentId), NotSpec) == Filter(CoursesOf(d, student.studentId), NotSpec)
    ensures InjectSpec(e, student, courses, key, code, now) == InjectSpec(d, student, courses, key, code, now)
  {
    var sid := student.studentId;
    var l := Filter(CoursesOf(d, sid), NotSpec)
      + SpecPicks(courses, key, code, NumToSelect(student.gradeLevel), now, sid);
    assert e.coursesByStudent[sid := l] == d.coursesByStudent[sid := l];
  }

  /** Injecting again replaces the earlier picks: only the last upload's
      specialization courses remain. */
  lemma InjectSpecReplaces(d: Records, student: Student, c1: seq<CourseTemplate>, k1: SpecKey, code1: seq<nat>, now1: nat,
                           c2: seq<CourseTemplate>, k2: SpecKey, code2: seq<nat>, now2: nat)
    requires IsLehmerCode(code1, |c1|) && IsLehmerCode(code2, |c2|)
    ensures InjectSpec(InjectSpec(d, student, c1, k1, code1, now1), student, c2, k2, code2, now2)
      == InjectSpec(d, student, c2, k2, code2, now2)
  {
    InjectSpecShape(d, student, c1, k1, code1, now1);
    InjectSpecCongruent(d, InjectSpec(d, student, c1, k1, code1, now1), student, c2, k2, code2, now2);
  }

  /** `handleSpecializationUpload`: the catalog under the key is replaced;
      when there are records, a non-empty catalog and a grade level that
      selects courses, the student's `spec-` courses are redrawn. */
  function HandleSpecializationUpload(st: PageState, student: Student, courses: seq<CourseTemplate>, key: SpecKey,
                                      code: seq<nat>, now: nat): (r: PageState)
    requires IsLehmerCode(code, |courses|)
    ensures SpecOf(r.specialization, key) == courses
    ensures forall other :: other != key ==> SpecOf(r.specialization, other) == SpecOf(st.specialization, other)
    ensures r == st.(specialization := r.specialization, data := r.data)
    ensures st.data.None? ==> r.data.None?
    ensures courses == [] || NumToSelect(student.gradeLevel) == 0 ==> r.data == st.data
    ensures st.data.Some? && courses != [] && NumToSelect(student.gradeLevel) > 0 ==>
      r.data == Some(InjectSpec(st.data.value, student, courses, key, code, now))
  {
    var spec := WithSpec(st.specialization, key, courses);
    if st.data.Some? && |courses| > 0 && NumToSelect(student.gradeLevel) > 0 then
      st.(specialization := spec, data := Some(InjectSpec(st.data.value, student, courses, key, code, now)))
    else st.(specialization := spec)
  }

  // ---------------------------------------------------------------------
  // Renaming a course
  // ---------------------------------------------------------------------

  /** The position of the first course with the id, if any. */
  function FindCourse(cs: seq<Course>, id: string): (o: Option<nat>)
    ensures o.Some? ==> o.value < |cs| && cs[o.value].id == id && forall j :: 0 <= j < o.value ==> cs[j].id != id
    ensures o.None? ==> forall j :: 0 <= j < |cs| ==> cs[j].id != id
  {
    if cs == [] then None
    else if cs[0].id == id then Some(0)
    else match FindCourse(cs[1..], id)
      case None => None
      case Some(k) => Some(k + 1)
  }

  /** The first course with the id gets the name; nothing else changes. */
  function RenameFirst(cs: seq<Course>, id: string, name: string): (r: seq<Course>)
    ensures |r| == |cs|
    ensures forall i :: 0 <= i < |cs| ==> r[i] == cs[i] || (r[i] == cs[i].(name := name) && cs[i].id == id)
    ensures forall i :: 0 <= i < |cs| && cs[i].id == id && (forall j :: 0 <= j < i ==> cs[j].id != id) ==>
      r[i].name == name
    ensures forall i, j :: 0 <= j < i < |cs| && cs[j].id == id ==> r[i] == cs[i]
  {
    match FindCourse(cs, id)
    case None => cs
    case Some(k) => cs[k := cs[k].(name := name)]
  }

  lemma RenameFirstIdempotent(cs: seq<Course>, id: string, name: string)
    ensures RenameFirst(RenameFirst(cs, id, name), id, name) == RenameFirst(cs, id, name)
  {
    var r := RenameFirst(cs, id, name);
    assert forall i :: 0 <= i < |cs| ==> r[i].id == cs[i].id;
    assert FindCourse(r, id) == FindCourse(cs, id);
  }

  /** `handleStartEditingCourse`. */
  function StartEditingCourse(st: PageState, c: Course): (r: PageState)
    ensures r.editingCourse == Some(c) && r.newCourseName == c.name
    ensures r == st.(editingCourse := Some(c), newCourseName := c.name)
  {
    st.(editingCourse := Some(c), newCourseName := c.name)
  }

  /** `handleUpdateCourseName`: without a course being edited, records or a
      selected student nothing happens; otherwise the first course with the
      edited id in the selected student's list takes the trimmed draft name
      and the edit is closed. */
  function HandleUpdateCourseName(st: PageState): (r: PageState)
    ensures st.editingCourse.None? || st.data.None? || st.selected.None? ==> r == st
    ensures st.editingCourse.Some? && st.data.Some? && st.selected.Some? ==>
      && r.editingCourse.None? && r.newCourseName == "" && r.data.Some?
      && r == st.(data := r.data, editingCourse := None, newCourseName := "")
      && r.data.value.students == st.data.value.students
      && r.data.value.coursesByStudent.Keys == st.data.value.coursesByStudent.Keys
      && forall k :: k in st.data.value.coursesByStudent ==>
           r.data.value.coursesByStudent[k] ==
             if k == st.selected.value.studentId
             then RenameFirst(st.data.value.coursesByStudent[k], st.editingCourse.value.id, Trim(st.newCourseName))
             else st.data.value.coursesByStudent[k]
  {
    if st.editingCourse.None? || st.data.None? || st.selected.None? then st
    else
      var d := st.data.value;
      var sid := st.selected.value.studentId;
      var m := if sid in d.coursesByStudent
        then d.coursesByStudent[sid := RenameFirst(d.coursesByStudent[sid], st.editingCourse.value.id, Trim(st.newCourseName))]
        else d.coursesByStudent;
      st.(data := Some(d.(coursesByStudent := m)), editingCourse := None, newCourseName := "")
  }

  /** Opening the editor on a course and saving its (already trimmed) name
      leaves the records as they were. */
  lemma EditWithoutChangeKeepsRecords(st: PageState, c: Course)
    requires st.data.Some? && st.selected.Some?
    requires IsTrimmed(c.name)
    requires var m := st.data.value.coursesByStudent; var sid := st.selected.value.studentId;
      sid in m ==> forall i :: 0 <= i < |m[sid]| && m[sid][i].id == c.id && (forall j :: 0 <= j < i ==> m[sid][j].id != c.id) ==>
        m[sid][i].name == c.name
    ensures HandleUpdateCourseName(StartEditingCourse(st, c)).data == st.data
  {
    var m := st.data.value.coursesByStudent;
    var sid := st.selected.value.studentId;
    if sid in m {
      var cs := m[sid];
      var r := RenameFirst(cs, c.id, c.name);
      assert r == cs;
      assert m[sid := r] == m;
    }
  }
}
