/** The numeric-to-letter grade scale and the random grade draws shared by
    the dashboard and both record tables (`getNewGradeDetails` is written out
    identically in main-dashboard.tsx, doctorado-record-table.tsx and
    academic-record-table.tsx). */
module GradeScale {
  import opened Wrappers

  datatype Letter = A | B | C | D | F

  /** The secondary ("Sistema E") scale. */
  datatype SistemaE = Excelente | Bueno | Suficiente | Insuficiente

  datatype GradeDetails = GradeDetails(alphabetic: Letter, systemE: SistemaE)

  /** A synthesized grade as the tables and the thesis certificate show it:
      `{ numeric, alphabetic, systemE }`. */
  datatype Grade = Grade(numeric: int, details: GradeDetails)

  function LetterText(l: Letter): string {
    match l
    case A => "A"
    case B => "B"
    case C => "C"
    case D => "D"
    case F => "F"
  }

  function SistemaEText(s: SistemaE): string {
    match s
    case Excelente => "EXCELENTE"
    case Bueno => "BUENO"
    case Suficiente => "SUFICIENTE"
    case Insuficiente => "INSUFICIENTE"
  }

  /** Letters ordered from worst (F) to best (A). */
  function LetterRank(l: Letter): nat {
    match l
    case F => 0
    case D => 1
    case C => 2
    case B => 3
    case A => 4
  }

  function SistemaERank(s: SistemaE): nat {
    match s
    case Insuficiente => 0
    case Suficiente => 1
    case Bueno => 2
    case Excelente => 3
  }

  /** `getNewGradeDetails`: lower bounds are inclusive and tested from the
      highest down. The contract gives, for each label, the exact range of
      numeric grades that receive it. */
  function GetNewGradeDetails(numeric: int): (d: GradeDetails)
    ensures d.alphabetic == A <==> numeric >= 83
    ensures d.alphabetic == B <==> 73 <= numeric < 83
    ensures d.alphabetic == C <==> 70 <= numeric < 73
    ensures d.alphabetic == D <==> 1 <= numeric < 70
    ensures d.alphabetic == F <==> numeric < 1
    ensures d.systemE == Excelente <==> numeric >= 90
    ensures d.systemE == Bueno <==> 80 <= numeric < 90
    ensures d.systemE == Suficiente <==> 70 <= numeric < 80
    ensures d.systemE == Insuficiente <==> numeric < 70
  {
    if numeric >= 90 then GradeDetails(A, Excelente)
    else if numeric >= 83 then GradeDetails(A, Bueno)
    else if numeric >= 80 then GradeDetails(B, Bueno)
    else if numeric >= 73 then GradeDetails(B, Suficiente)
    else if numeric >= 70 then GradeDetails(C, Suficiente)
    else if numeric >= 1 then GradeDetails(D, Insuficiente)
    else GradeDetails(F, Insuficiente)
  }

  /** A higher numeric grade never gets a worse letter or a worse label. */
  lemma GradeDetailsMonotone(lower: int, higher: int)
    requires lower <= higher
    ensures LetterRank(GetNewGradeDetails(lower).alphabetic) <= LetterRank(GetNewGradeDetails(higher).alphabetic)
    ensures SistemaERank(GetNewGradeDetails(lower).systemE) <= SistemaERank(GetNewGradeDetails(higher).systemE)
  {
  }

  /** `Math.round`: the nearest integer, halves rounded up. */
  function Round(x: real): (n: int)
    ensures n as real - 0.5 <= x < n as real + 0.5
  {
    (x + 0.5).Floor
  }

  /** Values a sequence of `Math.random()` calls can return. */
  predicate ValidDraws(draws: seq<real>) {
    forall i :: 0 <= i < |draws| ==> 0.0 <= draws[i] < 1.0
  }

  /** A random integer from `lo` to `hi`: the draw scaled to the width of
      the range, rounded down and shifted by `lo`; the random draw is passed
      in as `draw`. */
  function RandomInt(draw: real, lo: int, hi: int): (n: int)
    requires 0.0 <= draw < 1.0 && lo <= hi
    ensures lo <= n <= hi
  {
    var width := (hi - lo + 1) as real;
    assert draw * width < width;
    (draw * width).Floor + lo
  }

  /** Every value of the range is drawn by some value of `Math.random()`. */
  lemma RandomIntCoversRange(n: int, lo: int, hi: int) returns (draw: real)
    requires lo <= n <= hi
    ensures 0.0 <= draw < 1.0 && RandomInt(draw, lo, hi) == n
  {
    var width := (hi - lo + 1) as real;
    draw := (n - lo) as real / width;
    assert draw * width == (n - lo) as real;
  }

  /** A grade drawn from [lo, hi] with its letter and label. */
  function DrawGrade(draw: real, lo: int, hi: int): (g: Grade)
    requires 0.0 <= draw < 1.0 && lo <= hi
    ensures lo <= g.numeric <= hi
    ensures g.details == GetNewGradeDetails(g.numeric)
  {
    var n := RandomInt(draw, lo, hi);
    Grade(n, GetNewGradeDetails(n))
  }

  /** No entry of `grades` is recorded under `name`. */
  predicate NameAbsent(grades: seq<(string, int)>, name: string) {
    forall k :: 0 <= k < |grades| ==> grades[k].0 != name
  }

  /** The position of the first grade recorded under `name` (`find`). */
  function FindName(grades: seq<(string, int)>, name: string): (r: Option<nat>)
    ensures r.Some? ==> r.value < |grades| && grades[r.value].0 == name
    ensures r.Some? ==> forall k :: 0 <= k < r.value ==> grades[k].0 != name
    ensures r.None? <==> forall k :: 0 <= k < |grades| ==> grades[k].0 != name
  {
    if grades == [] then None
    else if grades[0].0 == name then Some(0)
    else
      match FindName(grades[1..], name)
      case None => None
      case Some(k) => Some(k + 1)
  }

  /** The grade a record table shows on a course row: the first grade
      recorded under the course's name, or 0 (F, INSUFICIENTE) when there is
      none. */
  function DisplayGrade(grades: seq<(string, int)>, name: string): (g: Grade)
    ensures g.details == GetNewGradeDetails(g.numeric)
    ensures (forall k :: 0 <= k < |grades| ==> grades[k].0 != name) ==>
              g.numeric == 0 && g.details == GradeDetails(F, Insuficiente)
    ensures (exists k :: 0 <= k < |grades| && grades[k].0 == name) ==>
              exists k :: 0 <= k < |grades| && grades[k].0 == name && g.numeric == grades[k].1
    ensures forall k :: 0 <= k < |grades| && grades[k].0 == name && NameAbsent(grades[..k], name) ==>
              g.numeric == grades[k].1
  {
    var n := match FindName(grades, name) case Some(k) => grades[k].1 case None => 0;
    Grade(n, GetNewGradeDetails(n))
  }
}
