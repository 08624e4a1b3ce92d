/**
 * The records of the content store, one datatype per table of
 * `shared/schema.ts`. A stored record is the insert shape plus the id the
 * store stamps on it (`{ ...insert, id }`), so every table row is a `Row` of
 * its insert shape. Columns without `notNull()` are optional.
 */
module Schema {
  import opened Wrappers

  /** A stored record: the fields given to `create*` and the id stamped on them. */
  datatype Row<T> = Row(id: int, data: T)

  /**
   * A parent-id field as it holds at run time. Its declared type is a number,
   * but a writer that reads `.id` off the promise an `async` create returns
   * stores `undefined`, which is strictly equal to no number.
   */
  datatype Ref = Id(value: int) | Undefined

  datatype InsertUser = InsertUser(username: string, password: string)

  datatype InsertCategory = InsertCategory(name: string, description: Option<string>)

  datatype InsertCourse = InsertCourse(
    title: string,
    description: string,
    categoryId: int,
    level: string,
    duration: string,
    lessons: int,
    imageUrl: Option<string>,
    learningPoints: Option<seq<string>>)

  /** `kind` is the `type` column. */
  datatype InsertContentSection = InsertContentSection(
    courseId: Ref,
    title: string,
    kind: string,
    description: Option<string>,
    order: int)

  datatype InsertContentItem = InsertContentItem(
    sectionId: Ref,
    title: string,
    kind: string,
    duration: string,
    content: Option<string>,
    order: int)

  datatype InsertQuiz = InsertQuiz(
    courseId: Ref,
    title: string,
    description: string,
    timeLimit: string,
    difficulty: string)

  datatype QuizOption = QuizOption(id: string, text: string)

  datatype InsertQuizQuestion = InsertQuizQuestion(
    quizId: Ref,
    text: string,
    options: Option<seq<QuizOption>>,
    correctAnswerId: string,
    explanation: Option<string>,
    order: int)

  datatype InsertUserProgress = InsertUserProgress(
    userId: int,
    courseId: int,
    progress: int,
    completedItems: Option<seq<int>>,
    lastActivity: Option<string>)

  datatype InsertQuizResult = InsertQuizResult(
    userId: int,
    quizId: int,
    score: int,
    answers: Option<map<int, string>>,
    completedAt: string)

  type User = Row<InsertUser>
  type Category = Row<InsertCategory>
  type Course = Row<InsertCourse>
  type ContentSection = Row<InsertContentSection>
  type ContentItem = Row<InsertContentItem>
  type Quiz = Row<InsertQuiz>
  type QuizQuestion = Row<InsertQuizQuestion>
  type UserProgress = Row<InsertUserProgress>
  type QuizResult = Row<InsertQuizResult>
}
