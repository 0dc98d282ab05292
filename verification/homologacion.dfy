/** The equivalency memo (src/components/dashboard/homologacion-cursos.tsx):
    which of a student's courses it lists and how each row pairs them. */
module Homologacion {
  import opened Text
  import opened Seqs
  import opened AcademicData

  /** A course the memo leaves out: an induction course (by name), a
      specialization elective (by id), or anything whose lower-cased name
      mentions "tesis". */
  predicate Dropped(c: Course) {
    NameIn(c.name, InductionCourses) || StartsWith(c.id, "spec-") || Contains(ToLower(c.name), "tesis")
  }

  /** The filter's predicate as the component writes it. */
  predicate Listed(c: Course) {
    && !NameIn(c.name, InductionCourses)
    && !StartsWith(c.id, "spec-")
    && !Contains(ToLower(c.name), "tesis")
  }

  /** `filteredCourses`. */
  function FilteredCourses(courses: seq<Course>): (r: seq<Course>)
    ensures |r| <= |courses|
  {
    Filter(courses, Listed)
  }

  /** The memo lists, in their original order, exactly the courses that are
      not dropped. No professional catalog is consulted, so basic courses and
      courses from the course sheet are listed too. */
  lemma FilteredCoursesExactly(courses: seq<Course>) returns (idx: seq<nat>)
    ensures |idx| == |FilteredCourses(courses)| && StrictlyIncreasing(idx)
    ensures forall i :: 0 <= i < |idx| ==> idx[i] < |courses| && FilteredCourses(courses)[i] == courses[idx[i]]
    ensures forall j :: 0 <= j < |courses| ==> (!Dropped(courses[j]) <==> j in idx)
    ensures forall c :: c in FilteredCourses(courses) <==> c in courses && !Dropped(c)
  {
    idx := FilterPositions(courses, Listed);
    FilterMembers(courses, Listed);
  }

  /** Filtering the memo's list again changes nothing. */
  lemma FilteredCoursesIdempotent(courses: seq<Course>)
    ensures FilteredCourses(FilteredCourses(courses)) == FilteredCourses(courses)
  {
    FilterIdempotent(courses, Listed);
  }

  /** One memo row: the course as taken and the course it is recognised as. */
  datatype Row = Row(niuCourse: Course, usmCourse: Course)

  /** `tableRows`: each listed course paired with itself. */
  function TableRows(courses: seq<Course>): (rows: seq<Row>)
    ensures |rows| == |FilteredCourses(courses)|
    ensures forall i :: 0 <= i < |rows| ==>
      rows[i].niuCourse == rows[i].usmCourse == FilteredCourses(courses)[i]
  {
    var listed := FilteredCourses(courses);
    seq(|listed|, i requires 0 <= i < |listed| => Row(listed[i], listed[i]))
  }
}
