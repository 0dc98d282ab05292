/** The credit-weighted grade-point average (src/lib/gpa-calculator.ts). */
module Gpa {
  import opened Wrappers
  import opened AcademicData

  /** `gradePoints`: the letters that carry points; every other grade (P, W,
      N/A, blank, ...) has none. */
  function GradePoints(grade: string): (p: Option<real>)
    ensures p.Some? ==> 0.0 <= p.value <= 4.0
    ensures p.Some? <==> grade in ["A", "A-", "B+", "B", "B-", "C+", "C", "D", "F"]
  {
    if grade == "A" then Some(4.0)
    else if grade == "A-" then Some(3.7)
    else if grade == "B+" then Some(3.3)
    else if grade == "B" then Some(3.0)
    else if grade == "B-" then Some(2.7)
    else if grade == "C+" then Some(2.3)
    else if grade == "C" then Some(2.0)
    else if grade == "D" then Some(1.0)
    else if grade == "F" then Some(0.0)
    else None
  }

  /** A course enters the average when its grade has points and its credits
      are positive. */
  predicate Counted(c: Course) {
    GradePoints(c.grade).Some? && c.credits > 0.0
  }

  function CreditsOf(c: Course): real {
    if Counted(c) then c.credits else 0.0
  }

  function PointsOf(c: Course): real {
    if Counted(c) then GradePoints(c.grade).value * c.credits else 0.0
  }

  /** The credits of the counted courses, added in list order. */
  function CountedCredits(courses: seq<Course>): real {
    if courses == [] then 0.0
    else CountedCredits(courses[..|courses| - 1]) + CreditsOf(courses[|courses| - 1])
  }

  /** The grade points times credits of the counted courses. */
  function CountedPoints(courses: seq<Course>): real {
    if courses == [] then 0.0
    else CountedPoints(courses[..|courses| - 1]) + PointsOf(courses[|courses| - 1])
  }

  predicate NoneCounted(courses: seq<Course>) {
    forall i :: 0 <= i < |courses| ==> !Counted(courses[i])
  }

  lemma CourseBounds(c: Course)
    ensures CreditsOf(c) >= 0.0 && (CreditsOf(c) == 0.0 <==> !Counted(c))
    ensures 0.0 <= PointsOf(c) <= 4.0 * CreditsOf(c)
  {
    if Counted(c) {
      var p := GradePoints(c.grade).value;
      assert (4.0 - p) * c.credits >= 0.0;
      assert p * c.credits >= 0.0;
    }
  }

  /** The counted credits are never negative, they vanish exactly when no
      course is counted, and the points never exceed four per credit. */
  lemma {:induction false} TotalsBounds(courses: seq<Course>)
    ensures CountedCredits(courses) >= 0.0
    ensures CountedCredits(courses) == 0.0 <==> NoneCounted(courses)
    ensures 0.0 <= CountedPoints(courses) <= 4.0 * CountedCredits(courses)
  {
    if courses != [] {
      var init := courses[..|courses| - 1];
      var last := courses[|courses| - 1];
      TotalsBounds(init);
      CourseBounds(last);
      assert NoneCounted(courses) <==> NoneCounted(init) && !Counted(last) by {
        assert forall i :: 0 <= i < |init| ==> init[i] == courses[i];
      }
    }
  }

  /** A ratio of points to credits lies between 0 and 4. */
  lemma RatioBound(points: real, credits: real)
    requires credits > 0.0 && 0.0 <= points <= 4.0 * credits
    ensures 0.0 <= points / credits <= 4.0
  {
    var q := points / credits;
    assert q * credits == points;
    assert (4.0 - q) * credits == 4.0 * credits - points;
  }

  datatype GpaResult = GpaResult(gpa: real, totalCredits: real)

  /** `calculateGPA`. */
  function CalculateGpa(courses: seq<Course>): (r: GpaResult)
    ensures r.totalCredits == CountedCredits(courses) && r.totalCredits >= 0.0
    ensures 0.0 <= r.gpa <= 4.0
    ensures r.totalCredits > 0.0 ==> r.gpa * r.totalCredits == CountedPoints(courses)
    ensures NoneCounted(courses) <==> r == GpaResult(0.0, 0.0)
  {
    TotalsBounds(courses);
    var credits := CountedCredits(courses);
    var points := CountedPoints(courses);
    if credits == 0.0 then
      GpaResult(0.0, 0.0)
    else
      RatioBound(points, credits);
      GpaResult(points / credits, credits)
  }

  /** One counted course gives its own grade points. */
  lemma SingleCourseGpa(c: Course)
    requires Counted(c)
    ensures CalculateGpa([c]) == GpaResult(GradePoints(c.grade).value, c.credits)
  {
    assert [c][..0] == [];
    var p := GradePoints(c.grade).value;
    assert CountedCredits([c]) == c.credits;
    assert CountedPoints([c]) == p * c.credits;
    assert p * c.credits / c.credits == p;
  }

  /** A course without points or credits leaves the result as it was. */
  lemma AppendUncounted(courses: seq<Course>, c: Course)
    requires !Counted(c)
    ensures CalculateGpa(courses + [c]) == CalculateGpa(courses)
  {
    assert (courses + [c])[..|courses|] == courses;
  }
}
