/** The record view (src/components/dashboard/main-dashboard.tsx): the
    document selector and its titles, the thesis grade, the choice of record
    table by tier, the PDF file name and the stored institution name. */
module Dashboard {
  import opened Wrappers
  import opened Text
  import opened GradeScale

  /** `ActiveDocument`. */
  datatype Document = Kardex | Homologacion | Tesis | Cierre

  function Title(d: Document): string {
    match d
    case Homologacion => "Cuadro Comparativo"
    case Tesis => "Calificación de Tesis de Grado"
    case Cierre => "Certificación de Cierre de Pensum"
    case Kardex => "Registro Académico"
  }

  /** Each document has its own title. */
  lemma TitlesDistinct(d1: Document, d2: Document)
    requires d1 != d2
    ensures Title(d1) != Title(d2)
  {
    assert |Title(Kardex)| == 18 && |Title(Homologacion)| == 18;
    assert Title(Kardex)[0] != Title(Homologacion)[0];
    assert |Title(Tesis)| == 30 && |Title(Cierre)| == 33;
  }

  /** The selector's state: the document shown, its title and whether the
      student information cards are visible. */
  datatype ViewState = ViewState(doc: Document, title: string, showInfoCards: bool)

  /** The title and card visibility always follow the selected document;
      only the equivalency memo hides the cards. */
  predicate ViewConsistent(v: ViewState) {
    v.title == Title(v.doc) && (v.showInfoCards <==> v.doc != Homologacion)
  }

  /** The view a dashboard opens with. */
  function InitialView(): (v: ViewState)
    ensures v.doc == Kardex && ViewConsistent(v)
  {
    ViewState(Kardex, "Registro Académico", true)
  }

  /** A header button followed by the title effect. */
  function Select(v: ViewState, d: Document): (w: ViewState)
    ensures w.doc == d && ViewConsistent(w)
  {
    match d
    case Homologacion => ViewState(d, "Cuadro Comparativo", false)
    case Tesis => ViewState(d, "Calificación de Tesis de Grado", true)
    case Cierre => ViewState(d, "Certificación de Cierre de Pensum", true)
    case Kardex => ViewState(d, "Registro Académico", true)
  }

  /** Selecting what is already shown changes nothing. */
  lemma SelectIdempotent(v: ViewState, d: Document)
    requires ViewConsistent(v)
    ensures Select(Select(v, d), d) == Select(v, d)
    ensures v.doc == d ==> Select(v, d) == v
  {
  }

  /** The thesis grade the dashboard draws for a student: none without
      thesis credits, otherwise a grade in [83, 100], always an A. */
  function ThesisGrade(thesisCredits: real, draw: real): (g: Option<Grade>)
    requires 0.0 <= draw < 1.0
    ensures g.None? <==> thesisCredits <= 0.0
    ensures g.Some? ==> 83 <= g.value.numeric <= 100 && g.value.details.alphabetic == A
    ensures g.Some? ==> g.value.details == GetNewGradeDetails(g.value.numeric)
  {
    if thesisCredits > 0.0 then Some(DrawGrade(draw, 83, 100)) else None
  }

  /** The record table `renderKardex` chooses. */
  datatype KardexTable =
    | LicenciaturaTable | PosdoctoradoTable | DoctoradoTable | TecnicoTable | MaestriaTable

  function KardexTableFor(gradeLevel: string): (t: KardexTable)
    ensures t == LicenciaturaTable <==> Contains(ToLower(gradeLevel), "licenciatura")
    ensures t == PosdoctoradoTable <==>
      !Contains(ToLower(gradeLevel), "licenciatura") && Contains(ToLower(gradeLevel), "posdoctorado")
    ensures t == DoctoradoTable <==>
      !Contains(ToLower(gradeLevel), "licenciatura") && !Contains(ToLower(gradeLevel), "posdoctorado")
      && Contains(ToLower(gradeLevel), "doctorado")
    ensures t == TecnicoTable <==>
      !Contains(ToLower(gradeLevel), "licenciatura") && !Contains(ToLower(gradeLevel), "doctorado")
      && Contains(ToLower(gradeLevel), "técnico")
  {
    var g := ToLower(gradeLevel);
    PosdoctoradoContainsDoctorado(g);
    if Contains(g, "licenciatura") then LicenciaturaTable
    else if Contains(g, "posdoctorado") then PosdoctoradoTable
    else if Contains(g, "doctorado") then DoctoradoTable
    else if Contains(g, "técnico") then TecnicoTable
    else MaestriaTable
  }

  lemma PosdoctoradoContainsDoctorado(g: string)
    ensures Contains(g, "posdoctorado") ==> Contains(g, "doctorado")
  {
    if Contains(g, "posdoctorado") {
      assert "doctorado" <= "posdoctorado"[3..];
      ContainsTransitive(g, "posdoctorado", "doctorado");
    }
  }

  /** The unaccented spelling "tecnico" is not matched: such a student gets
      the Maestría table. */
  lemma UnaccentedTecnicoGetsMaestria()
    ensures KardexTableFor("Tecnico") == MaestriaTable
  {
    var g := ToLower("Tecnico");
    assert g == "tecnico";
    assert !Contains(g, "técnico") by {
      assert g[1] != "técnico"[1];
    }
  }

  /** The downloaded file's name: the title with every space turned into a
      dash, then a dash, the student id and ".pdf". */
  function PdfFileName(title: string, studentId: string): (name: string)
    ensures |name| == |title| + |studentId| + 5
    ensures forall i :: 0 <= i < |title| ==> name[i] != ' '
    ensures forall i :: 0 <= i < |title| ==> (title[i] == ' ' ==> name[i] == '-') && (title[i] != ' ' ==> name[i] == title[i])
    ensures name[|title|] == '-' && name[|title| + 1..|title| + 1 + |studentId|] == studentId
    ensures name[|name| - 4..] == ".pdf"
  {
    ReplaceChar(title, ' ', '-') + "-" + studentId + ".pdf"
  }

  /** Under one title, the file name determines the student id: two
      students' downloads never share a name. */
  lemma PdfFileNameDeterminesId(title: string, id1: string, id2: string)
    ensures PdfFileName(title, id1) == PdfFileName(title, id2) ==> id1 == id2
  {
    if PdfFileName(title, id1) == PdfFileName(title, id2) {
      var n := PdfFileName(title, id1);
      assert |id1| == |id2|;
      assert id1 == n[|title| + 1..|title| + 1 + |id1|] == id2;
    }
  }

  /** The four documents of one student download under four different
      names. */
  lemma PdfFileNamesDistinct(d1: Document, d2: Document, studentId: string)
    requires d1 != d2
    ensures PdfFileName(Title(d1), studentId) != PdfFileName(Title(d2), studentId)
  {
    var n1 := PdfFileName(Title(d1), studentId);
    var n2 := PdfFileName(Title(d2), studentId);
    assert |Title(Kardex)| == 18 && |Title(Homologacion)| == 18;
    assert |Title(Tesis)| == 30 && |Title(Cierre)| == 33;
    if {d1, d2} == {Kardex, Homologacion} {
      assert n1[0] != n2[0];
    }
  }

  /** The name the dashboard shows for the institution, read once from
      storage: the stored value unless absent or blank, as stored (not
      trimmed). */
  function StoredUniversityName(stored: Option<string>): (name: string)
    ensures !IsBlank(name)
    ensures stored.Some? && !IsBlank(stored.value) ==> name == stored.value
    ensures stored.None? || IsBlank(stored.value) ==> name == "Consortium Universitas"
  {
    assert "Consortium Universitas"[0] == 'C';
    if stored.Some? && !IsBlank(stored.value) then stored.value else "Consortium Universitas"
  }
}
