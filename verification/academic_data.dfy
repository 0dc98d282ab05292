/** The record types of the dashboard, the static curriculum catalog and
    the course validator (src/lib/academic-data.ts). */
module AcademicData {
  import opened Text

  /** One course in a student's list. Fields the source leaves undefined
      (the code, grade, term and owner of a catalog course) are "". */
  datatype Course = Course(
    id: string,
    code: string,
    name: string,
    credits: real,
    grade: string,
    term: string,
    studentId: string)

  datatype Student = Student(
    batchId: string,
    university: string,
    school: string,
    firstName: string,
    lastName: string,
    address: string,
    country: string,
    city: string,
    studentId: string,
    birthDate: string,
    assignedTutor: string,
    emphasis: string,
    transferCredits: real,
    workExperienceCredits: real,
    meritCredits: real,
    thesisCredits: real,
    gradeLevel: string,
    affectation: string,
    curriculumCloseDate: string,
    average: real,
    spanishGrades: seq<string>,
    careerName: string)

  /** A catalog entry: the `{ name, credits }` part of a course. */
  datatype CourseTemplate = CourseTemplate(name: string, credits: real)

  /** The whole academic state: the roster and each student's course list,
      keyed by student id. */
  datatype Records = Records(students: seq<Student>, coursesByStudent: map<string, seq<Course>>)

  /** The keys of the uploaded specialization catalogs
      (`keyof SpecializationCourses`, declared in src/app/page.tsx). */
  datatype SpecKey = SpecTecnico | SpecLicenciatura | SpecMaestria | SpecDoctorado

  function SpecKeyText(k: SpecKey): string {
    match k
    case SpecTecnico => "tecnico"
    case SpecLicenciatura => "licenciatura"
    case SpecMaestria => "maestria"
    case SpecDoctorado => "doctorado"
  }

  // ---------------------------------------------------------------------
  // The curriculum catalog
  // ---------------------------------------------------------------------

  /** Induction courses, shared by every tier. */
  const InductionCourses: seq<CourseTemplate> := [
    CourseTemplate("Formación virtual", 5.4),
    CourseTemplate("Epistemología del conocimiento científico", 5.4),
    CourseTemplate("Técnicas de enseñanza y aprendizaje", 5.4),
    CourseTemplate("Metodologías de la investigación científica", 5.4),
    CourseTemplate("Entorno económico, social y ambiental en el ámbito mundial y nacional", 5.4)
  ]

  const MaestriaBasicCourses: seq<CourseTemplate> := [
    CourseTemplate("Teorías Administrativas y desarrollo organizacional", 5.4),
    CourseTemplate("Metodología de la investigación", 5.4),
    CourseTemplate("Análisis del entorno económico", 5.4),
    CourseTemplate("Marco legal y derecho corporativo", 5.4),
    CourseTemplate("Desarrollo de competencias directivas y liderazgo", 5.4),
    CourseTemplate("Contabilidad general y financiera", 5.4),
    CourseTemplate("Definición del proyecto de investigación", 5.4)
  ]

  /** The Maestría elective pool. */
  const ProfessionalCourses: seq<CourseTemplate> := [
    CourseTemplate("Entorno Tecnológico y Sistemas de Información", 5.4),
    CourseTemplate("Gestión de Proyectos Y plan de negocios", 5.4),
    CourseTemplate("Ética Empresarial y Responsabilidad Social Corporación", 5.4),
    CourseTemplate("Marketing y Gestión comercial", 5.4),
    CourseTemplate("Planeación financiera y Control de Presupuesto", 5.4),
    CourseTemplate("Gestión de Capital Humano", 5.4),
    CourseTemplate("Decisiones de Inversión y Financiamiento", 5.4),
    CourseTemplate("Dirección y gobierno de la empresa familiar", 5.4),
    CourseTemplate("Estrategias Fiscales y Financieras", 5.4),
    CourseTemplate("Innovación y Desarrollo de Negocios", 5.4),
    CourseTemplate("Derechos de las Obligaciones y Contratos", 5.4)
  ]

  const LicenciaturaBasicCourses: seq<CourseTemplate> := [
    CourseTemplate("Teoría Económica", 5.7),
    CourseTemplate("Economía Aplicada a los negocios", 5.7),
    CourseTemplate("Bases Jurídicas de la empresa", 5.7),
    CourseTemplate("Fundamentos de la administración", 5.7),
    CourseTemplate("Fundamentos de Contabilidad", 5.7),
    CourseTemplate("Contabilidad Aplicada a los Negocios", 5.7),
    CourseTemplate("Derecho Mercantil", 5.7),
    CourseTemplate("Desarrollo de Habilidades digitales", 5.7),
    CourseTemplate("Estadística Aplicada a los Negocios", 5.7),
    CourseTemplate("Contabilidad de Costos", 5.7),
    CourseTemplate("Ética y Responsabilidad Social Empresarial", 5.7),
    CourseTemplate("Contabilidad Administrativa", 5.7),
    CourseTemplate("Programación y Presupuestos", 5.7),
    CourseTemplate("Derecho Fiscal", 5.7),
    CourseTemplate("Productividad y Calidad total", 5.7),
    CourseTemplate("Estrategias competitivas y Plan de Negocios", 5.7),
    CourseTemplate("Cultura Emprendedora", 5.7),
    CourseTemplate("Formulación y Evaluación de Proyectos I", 5.7),
    CourseTemplate("Formulación y Evaluación de Proyectos II", 5.7),
    CourseTemplate("Inteligencia de los Negocios", 5.7)
  ]

  /** The Licenciatura elective pool. */
  const LicenciaturaProfessionalCourses: seq<CourseTemplate> := [
    CourseTemplate("Marketing digital", 5.7),
    CourseTemplate("Publicidad, promoción y manejo de medios", 5.7),
    CourseTemplate("Aspectos legales y etica en la mercadotecnia", 5.7),
    CourseTemplate("Cadena de suministros", 5.7),
    CourseTemplate("Finanzas internacionales", 5.7),
    CourseTemplate("Finanzas corporativas", 5.7),
    CourseTemplate("Administración fiscal financiera", 5.7),
    CourseTemplate("Provisión y capacitación del factor humano", 5.7),
    CourseTemplate("Administración de nóminas", 5.7),
    CourseTemplate("Derecho laboral", 5.7),
    CourseTemplate("Seguridad social", 5.7),
    CourseTemplate("Teoría del comercio internacional", 5.7),
    CourseTemplate("Cotizaciones y contratos internacionales", 5.7),
    CourseTemplate("Legislación aduanera y aranceles", 5.7),
    CourseTemplate("Fuentes e instrumentos de financiamiento a empresas", 5.7),
    CourseTemplate("Competencias gerenciales", 5.7),
    CourseTemplate("Liderazgo y conducción de equipos", 5.7),
    CourseTemplate("Comunicación eficaz", 5.7),
    CourseTemplate("Innovaciones tecnológicas en la administración", 5.7),
    CourseTemplate("Ingeniería financiera y valuación", 5.7),
    CourseTemplate("Creatividad e innovación aplicada", 5.7),
    CourseTemplate("Psicología y conducta del consumidor", 5.7),
    CourseTemplate("Estrategias de negociación y ventas", 5.7)
  ]

  /** The Técnico elective pool. */
  const TecnicoProfessionalCourses: seq<CourseTemplate> := [
    CourseTemplate("Marketing digital", 4.33),
    CourseTemplate("Publicidad, promoción y manejo de medios", 4.33),
    CourseTemplate("Liderazgo y conducción de equipos", 4.33),
    CourseTemplate("Comunicación eficaz", 4.33),
    CourseTemplate("Finanzas internacionales y corporativas", 4.33),
    CourseTemplate("Competencias gerenciales", 4.33),
    CourseTemplate("Administración fiscal financiera", 4.33),
    CourseTemplate("Provisión y capacitación del factor humano", 4.33),
    CourseTemplate("Innovaciones tecnológicas en la administración", 4.33),
    CourseTemplate("Derecho laboral", 4.33),
    CourseTemplate("Seguridad social", 4.33),
    CourseTemplate("Teoría del comercio internacional", 4.33),
    CourseTemplate("Ingeniería financiera y valuación", 4.33),
    CourseTemplate("Creatividad e innovación aplicada", 4.33),
    CourseTemplate("Estrategias de negociación y ventas", 4.33)
  ]

  const DoctoradoBasicCourses: seq<CourseTemplate> := [
    CourseTemplate("Ingeniería económica", 5.4),
    CourseTemplate("Métodos y diseño del protocolo de investigación", 5.4),
    CourseTemplate("Instrumento para la toma de decisiones (Contables y Financieras)", 5.4),
    CourseTemplate("Análisis cuantitativos aplicados", 5.4),
    CourseTemplate("Liderazgo y talento empresarial", 5.4),
    CourseTemplate("Proceso del proyecto de investigación", 5.4)
  ]

  /** The Doctorado elective pool. */
  const DoctoradoProfessionalCourses: seq<CourseTemplate> := [
    CourseTemplate("Tópicos de gestión fiscal y financiera", 5.4),
    CourseTemplate("Tópicos sobre la empresa corporativa o familiar", 5.4),
    CourseTemplate("Marketing e inteligencia en los negocios", 5.25),
    CourseTemplate("Gobierno, empresa y corporativismo", 5.25),
    CourseTemplate("Innovación y emprendimiento", 5.25),
    CourseTemplate("Tópicos de humanismo y empresa", 5.25),
    CourseTemplate("Ética y responsabilidad social empresarial", 5.25),
    CourseTemplate("Tópicos sobre el estado del arte y la globalidad", 5.25)
  ]

  /** The origin-institution list kept beside the catalog. */
  const UsmCourses: seq<CourseTemplate> := [
    CourseTemplate("Teorías Administrativas y Desarrollo Organizacional", 3.0),
    CourseTemplate("Metodología de la Investigación", 3.0),
    CourseTemplate("Análisis del Entorno Económico", 3.0),
    CourseTemplate("Marco Legal y Derecho Corporativo", 3.0),
    CourseTemplate("Desarrollo de Competencias Directivas y Liderazgo", 3.0),
    CourseTemplate("Contabilidad General y Financiera", 3.0),
    CourseTemplate("Definición del Proyecto de Investigación", 3.0),
    CourseTemplate("Entorno Tecnológico y Sistemas de Información", 3.0),
    CourseTemplate("Gestión de Proyectos y Plan de Negocios", 3.0),
    CourseTemplate("Ética Empresarial y Responsabilidad Social Corporativa", 3.0),
    CourseTemplate("Marketing y Gestión Comercial", 3.0),
    CourseTemplate("Planeación Financiera y Control de Presupuesto", 3.0),
    CourseTemplate("Gestión de Capital Humano", 3.0),
    CourseTemplate("Decisiones de Inversión y Financiamiento", 3.0),
    CourseTemplate("Dirección y Gobierno de la Empresa Familiar", 3.0),
    CourseTemplate("Estrategias Fiscales y Financieras", 3.0),
    CourseTemplate("Innovación y Desarrollo de Negocios", 3.0),
    CourseTemplate("Derechos de las Obligaciones y Contratos", 3.0),
    CourseTemplate("Trabajo de Grado I", 3.0),
    CourseTemplate("Trabajo de Grado II", 3.0)
  ]

  /** The specialization list the record table groups against; the source
      keeps it empty. */
  const SpecializationCourses: seq<CourseTemplate> := []

  /** Some catalog entry carries the name. */
  predicate NameIn(name: string, list: seq<CourseTemplate>) {
    exists i :: 0 <= i < |list| && list[i].name == name
  }

  predicate PositiveCredits(list: seq<CourseTemplate>) {
    forall i :: 0 <= i < |list| ==> list[i].credits > 0.0
  }

  /** The sizes of the catalog lists. */
  lemma CatalogSizes()
    ensures |InductionCourses| == 5 && |MaestriaBasicCourses| == 7 && |ProfessionalCourses| == 11
    ensures |LicenciaturaBasicCourses| == 20 && |LicenciaturaProfessionalCourses| == 23
    ensures |TecnicoProfessionalCourses| == 15 && |DoctoradoBasicCourses| == 6
    ensures |DoctoradoProfessionalCourses| == 8 && |UsmCourses| == 20
  {
  }

  /** The catalog lists have fixed sizes and every entry carries positive
      credits. */
  lemma CatalogShape()
    ensures |InductionCourses| == 5 && PositiveCredits(InductionCourses)
    ensures |MaestriaBasicCourses| == 7 && PositiveCredits(MaestriaBasicCourses)
    ensures |ProfessionalCourses| == 11 && PositiveCredits(ProfessionalCourses)
    ensures |LicenciaturaBasicCourses| == 20 && PositiveCredits(LicenciaturaBasicCourses)
    ensures |LicenciaturaProfessionalCourses| == 23 && PositiveCredits(LicenciaturaProfessionalCourses)
    ensures |TecnicoProfessionalCourses| == 15 && PositiveCredits(TecnicoProfessionalCourses)
    ensures |DoctoradoBasicCourses| == 6 && PositiveCredits(DoctoradoBasicCourses)
    ensures |DoctoradoProfessionalCourses| == 8 && PositiveCredits(DoctoradoProfessionalCourses)
    ensures |UsmCourses| == 20 && PositiveCredits(UsmCourses)
    ensures SpecializationCourses == []
  {
  }

  // ---------------------------------------------------------------------
  // Course validation
  // ---------------------------------------------------------------------

  datatype CourseError = InvalidCredits | MissingGrade | InvalidGrade(grade: string)

  /** The message the source pushes for each error. */
  function ErrorMessage(e: CourseError): string {
    match e
    case InvalidCredits => "Créditos inválidos: El valor debe ser positivo."
    case MissingGrade => "Calificación faltante."
    case InvalidGrade(g) => "Calificación inválida: \"" + g + "\" no es un valor reconocido."
  }

  const ValidGrades: seq<string> := ["A", "A-", "B+", "B", "B-", "C+", "C", "D", "F", "P", "W"]

  predicate AcceptedGrade(grade: string) {
    grade in ValidGrades || grade == "N/A"
  }

  lemma AcceptedGradeNotBlank(grade: string)
    requires AcceptedGrade(grade)
    ensures !IsBlank(grade)
  {
    assert !IsWhitespace(grade[0]);
  }

  /** `validateCourse`: the errors of one course, credits first. */
  function ValidateCourse(course: Course): (errors: seq<CourseError>)
    ensures |errors| <= 2
    ensures errors == [] <==> course.credits > 0.0 && AcceptedGrade(course.grade)
    ensures (|errors| > 0 && errors[0] == InvalidCredits) <==> course.credits <= 0.0
    ensures InvalidCredits in errors ==> errors[0] == InvalidCredits
    ensures IsBlank(course.grade) ==> MissingGrade in errors && forall g :: InvalidGrade(g) !in errors
    ensures !IsBlank(course.grade) && !AcceptedGrade(course.grade) ==>
              InvalidGrade(course.grade) in errors && MissingGrade !in errors
  {
    var creditErrors := if course.credits <= 0.0 then [InvalidCredits] else [];
    var gradeErrors :=
      if IsBlank(course.grade) then [MissingGrade]
      else if !AcceptedGrade(course.grade) then [InvalidGrade(course.grade)]
      else [];
    assert AcceptedGrade(course.grade) ==> !IsBlank(course.grade) by {
      if AcceptedGrade(course.grade) {
        AcceptedGradeNotBlank(course.grade);
      }
    }
    creditErrors + gradeErrors
  }
}
