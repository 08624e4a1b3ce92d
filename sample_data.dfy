/**
 * The literal records `initializeSampleData` feeds to the store at start-up
 * (`server/storage.ts`), one constant per object there and one function per
 * local array. Where the source fills in a parent id computed while seeding,
 * the constant holds `Undefined`; the functions of the last part set that
 * field for any `Records` value, so that the store's seeding can be proved
 * once for every record set of the right shape.
 */
module SampleData {
  import opened Wrappers
  import opened Schema

  const MathematicsCategory: InsertCategory :=
    InsertCategory("Matemáticas", Some("Explora conceptos matemáticos y resolución de problemas"))

  const SciencesCategory: InsertCategory :=
    InsertCategory("Ciencias", Some("Estudia fenómenos naturales y principios científicos"))

  const LanguageAndLiteratureCategory: InsertCategory :=
    InsertCategory("Lenguaje y Literatura", Some("Desarrolla habilidades de lectura, escritura y comunicación"))

  const ComputerScienceCategory: InsertCategory :=
    InsertCategory("Informática", Some("Aprende programación, algoritmos y principios de computación"))

  const HistoryCategory: InsertCategory :=
    InsertCategory("Historia", Some("Descubre eventos históricos y su importancia"))

  function Categories(): seq<InsertCategory> {
    [MathematicsCategory, SciencesCategory, LanguageAndLiteratureCategory, ComputerScienceCategory, HistoryCategory]
  }

  const AlgebraCourse: InsertCourse :=
    InsertCourse(
      "Fundamentos de Álgebra",
      "Domina conceptos algebraicos incluyendo ecuaciones, desigualdades y funciones. Este curso proporciona una base sólida para matemáticas de nivel superior.",
      1, "Principiante", "6 semanas", 12, Some(""),
      Some([
         "Resolver ecuaciones lineales y desigualdades",
         "Graficar funciones lineales y cuadráticas",
         "Comprender notación y operaciones de funciones",
         "Aplicar conceptos algebraicos a la resolución de problemas"]))

  const BiologyCourse: InsertCourse :=
    InsertCourse(
      "Introducción a la Biología",
      "Explora los fundamentos de la biología, desde células hasta ecosistemas. Aprende sobre organismos vivos, sus estructuras, funciones e interacciones.",
      2, "Principiante", "8 semanas", 16, Some(""),
      Some([
         "Entender la estructura y función celular",
         "Explicar genética básica y herencia",
         "Describir dinámicas de ecosistemas",
         "Identificar sistemas biológicos principales en organismos"]))

  const CreativeWritingCourse: InsertCourse :=
    InsertCourse(
      "Taller de Escritura Creativa",
      "Desarrolla tus habilidades de escritura creativa a través de ejercicios guiados y retroalimentación. Aprende técnicas para ficción, poesía y narrativa no ficticia.",
      3, "Intermedio", "10 semanas", 20, Some(""),
      Some([
         "Crear personajes y escenarios convincentes",
         "Estructurar narrativas efectivas",
         "Desarrollar una voz de escritura única",
         "Dar y recibir retroalimentación constructiva"]))

  const JavaScriptCourse: InsertCourse :=
    InsertCourse(
      "Programación con JavaScript",
      "Aprende programación con JavaScript desde cero. Construye aplicaciones web interactivas y comprende conceptos fundamentales de programación.",
      4, "Principiante", "12 semanas", 24, Some(""),
      Some([
         "Comprender sintaxis y estructura de JavaScript",
         "Trabajar con variables, arrays y objetos",
         "Implementar funciones y manejadores de eventos",
         "Crear contenido web dinámico"]))

  const AncientCivilizationsCourse: InsertCourse :=
    InsertCourse(
      "Historia Mundial: Civilizaciones Antiguas",
      "Explora civilizaciones antiguas y sus contribuciones a la historia humana. Desde Mesopotamia hasta América, descubre los fundamentos de la sociedad moderna.",
      5, "Intermedio", "8 semanas", 16, Some(""),
      Some([
         "Analizar el auge y caída de grandes civilizaciones",
         "Comparar desarrollos culturales entre regiones",
         "Conectar innovaciones antiguas con la sociedad moderna",
         "Evaluar evidencia histórica y perspectivas"]))

  function Courses(): seq<InsertCourse> {
    [AlgebraCourse, BiologyCourse, CreativeWritingCourse, JavaScriptCourse, AncientCivilizationsCourse]
  }

  const LinearEquationsSection: InsertContentSection :=
    InsertContentSection(Undefined, "Linear Equations", "module", Some("Learn to solve and apply linear equations"), 1)

  const QuadraticFunctionsSection: InsertContentSection :=
    InsertContentSection(Undefined, "Quadratic Functions", "module", Some("Understand quadratic functions and their graphs"), 2)

  function AlgebraSectionRecords(): seq<InsertContentSection> {
    [LinearEquationsSection, QuadraticFunctionsSection]
  }

  const IntroItem: InsertContentItem :=
    InsertContentItem(Undefined, "Introduction to Linear Equations", "video", "10:23", Some("Video content about linear equations"), 1)

  const OneStepItem: InsertContentItem :=
    InsertContentItem(Undefined, "Solving One-Step Equations", "article", "15 min", Some("Article explaining how to solve basic equations"), 2)

  const PracticeItem: InsertContentItem :=
    InsertContentItem(Undefined, "Linear Equations Practice", "quiz", "5 min", Some("Quick practice quiz on linear equations"), 3)

  function LinearEquationsItemRecords(): seq<InsertContentItem> {
    [IntroItem, OneStepItem, PracticeItem]
  }

  const AlgebraQuizRecord: InsertQuiz :=
    InsertQuiz(Undefined, "Algebra Fundamentals Quiz", "Test your understanding of basic algebraic concepts", "20 minutes", "beginner")

  const BiologyQuizRecord: InsertQuiz :=
    InsertQuiz(Undefined, "Cell Biology Quiz", "Test your knowledge about cell structure and function", "15 minutes", "beginner")

  const AlgebraQuestion1: InsertQuizQuestion :=
    InsertQuizQuestion(
      Undefined,
      "Solve for x: 3x + 4 = 10",
      Some([
         QuizOption("a", "x = 2"),
         QuizOption("b", "x = 6"),
         QuizOption("c", "x = 1"),
         QuizOption("d", "x = 3")]),
      "a",
      Some("To solve, subtract 4 from both sides to get 3x = 6, then divide by 3 to get x = 2."),
      1)

  const AlgebraQuestion2: InsertQuizQuestion :=
    InsertQuizQuestion(
      Undefined,
      "Which of the following is a linear function?",
      Some([
         QuizOption("a", "y = x²"),
         QuizOption("b", "y = 2x + 1"),
         QuizOption("c", "y = 1/x"),
         QuizOption("d", "y = √x")]),
      "b",
      Some("A linear function has the form y = mx + b, where m and b are constants."),
      2)

  const AlgebraQuestion3: InsertQuizQuestion :=
    InsertQuizQuestion(
      Undefined,
      "If f(x) = 3x - 7, what is f(4)?",
      Some([
         QuizOption("a", "5"),
         QuizOption("b", "12"),
         QuizOption("c", "19"),
         QuizOption("d", "-19")]),
      "a",
      Some("f(4) = 3(4) - 7 = 12 - 7 = 5"),
      3)

  function AlgebraQuestionRecords(): seq<InsertQuizQuestion> {
    [AlgebraQuestion1, AlgebraQuestion2, AlgebraQuestion3]
  }

  const BiologyQuestion1: InsertQuizQuestion :=
    InsertQuizQuestion(
      Undefined,
      "Which organelle is responsible for energy production in the cell?",
      Some([
         QuizOption("a", "Nucleus"),
         QuizOption("b", "Mitochondria"),
         QuizOption("c", "Golgi apparatus"),
         QuizOption("d", "Endoplasmic reticulum")]),
      "b",
      Some("Mitochondria are known as the 'powerhouse of the cell' because they produce ATP, the energy currency of cells."),
      1)

  const BiologyQuestion2: InsertQuizQuestion :=
    InsertQuizQuestion(
      Undefined,
      "What is the main function of the cell membrane?",
      Some([
         QuizOption("a", "Store genetic information"),
         QuizOption("b", "Produce proteins"),
         QuizOption("c", "Control what enters and exits the cell"),
         QuizOption("d", "Generate energy")]),
      "c",
      Some("The cell membrane is selectively permeable, controlling the movement of substances into and out of the cell."),
      2)

  function BiologyQuestionRecords(): seq<InsertQuizQuestion> {
    [BiologyQuestion1, BiologyQuestion2]
  }

  // ------------------------------------------------- records and parents

  /** The records of the seed, every parent reference still unset. */
  datatype Records = Records(
    categories: seq<InsertCategory>,
    courses: seq<InsertCourse>,
    algebraSections: seq<InsertContentSection>,
    linearEquationsItems: seq<InsertContentItem>,
    algebraQuiz: InsertQuiz,
    biologyQuiz: InsertQuiz,
    algebraQuestions: seq<InsertQuizQuestion>,
    biologyQuestions: seq<InsertQuizQuestion>)

  /** As many records of each kind as `initializeSampleData` creates. */
  predicate Shaped(r: Records) {
    && |r.categories| == 5 && |r.courses| == 5
    && |r.algebraSections| == 2 && |r.linearEquationsItems| == 3
    && |r.algebraQuestions| == 3 && |r.biologyQuestions| == 2
  }

  /** The literal records of `initializeSampleData`. */
  function Seed(): (r: Records)
    ensures Shaped(r)
  {
    Records(Categories(), Courses(), AlgebraSectionRecords(), LinearEquationsItemRecords(),
            AlgebraQuizRecord, BiologyQuizRecord, AlgebraQuestionRecords(), BiologyQuestionRecords())
  }

  function SectionsUnder(sections: seq<InsertContentSection>, courseId: Ref): seq<InsertContentSection> {
    seq(|sections|, i requires 0 <= i < |sections| => sections[i].(courseId := courseId))
  }

  function ItemsUnder(items: seq<InsertContentItem>, sectionId: Ref): seq<InsertContentItem> {
    seq(|items|, i requires 0 <= i < |items| => items[i].(sectionId := sectionId))
  }

  function QuestionsUnder(questions: seq<InsertQuizQuestion>, quizId: Ref): seq<InsertQuizQuestion> {
    seq(|questions|, i requires 0 <= i < |questions| => questions[i].(quizId := quizId))
  }

  /** The sections of the algebra course, which the source attaches to `courseIds[0]`. */
  function AlgebraSections(r: Records, courseIds: seq<Ref>): seq<InsertContentSection>
    requires |courseIds| == 5
  {
    SectionsUnder(r.algebraSections, courseIds[0])
  }

  /** The items of the linear-equations section, attached to `sectionIds[0]`. */
  function LinearEquationsItems(r: Records, sectionIds: seq<Ref>): seq<InsertContentItem>
    requires |sectionIds| == 2
  {
    ItemsUnder(r.linearEquationsItems, sectionIds[0])
  }

  function AlgebraQuiz(r: Records, courseIds: seq<Ref>): InsertQuiz
    requires |courseIds| == 5
  {
    r.algebraQuiz.(courseId := courseIds[0])
  }

  function BiologyQuiz(r: Records, courseIds: seq<Ref>): InsertQuiz
    requires |courseIds| == 5
  {
    r.biologyQuiz.(courseId := courseIds[1])
  }

  function AlgebraQuizQuestions(r: Records, quizId: Ref): seq<InsertQuizQuestion> {
    QuestionsUnder(r.algebraQuestions, quizId)
  }

  function BiologyQuizQuestions(r: Records, quizId: Ref): seq<InsertQuizQuestion> {
    QuestionsUnder(r.biologyQuestions, quizId)
  }
}
