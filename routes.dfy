/**
 * The request logic of `registerRoutes` (`server/routes.ts`) over the store:
 * id parsing and the order in which 400 and 404 are decided, the
 * course-to-category join, section/item nesting, answer redaction, and the
 * grading of a quiz submission. A response is `Ok` with the JSON body the
 * handler sends, or the error status with its message.
 */
module Routes {
  import opened Wrappers
  import opened Schema
  import opened JsString
  import opened JsParseInt
  import opened JsArray
  import JsMap
  import opened Storage
  import SampleData

  datatype Response<T> = Ok(body: T) | BadRequest(message: string) | NotFound(message: string)

  const InvalidCourseId := "Invalid course ID"
  const CourseNotFound := "Course not found"
  const InvalidQuizId := "Invalid quiz ID"
  const QuizNotFound := "Quiz not found"
  const InvalidRequestBody := "Invalid request body"
  const Uncategorized := "Uncategorized"

  // ------------------------------------------------------ category join

  /** A course as the course routes send it: the row plus `categoryName`. */
  datatype CourseView = CourseView(course: Course, categoryName: string)

  /** `category?.name || "Uncategorized"`: an empty name is falsy too. */
  function CategoryName(category: Option<Category>): (r: string)
    ensures r != []
    ensures r != Uncategorized ==> category.Some? && r == category.value.data.name
    ensures category.Some? && category.value.data.name != [] ==> r == category.value.data.name
  {
    if category.Some? && category.value.data.name != [] then category.value.data.name else Uncategorized
  }

  /** The `find` callback `c => c.id === course.categoryId`. */
  function CategoryWithId(id: int): Category -> bool {
    (c: Category) => c.id == id
  }

  /** The list routes' join: look the category up in the `getCategories()` list. */
  function WithCategoryName(course: Course, categories: seq<Category>): (r: CourseView)
    ensures r.course == course && r.categoryName != []
    ensures r.categoryName != Uncategorized ==>
              exists i | 0 <= i < |categories| :: categories[i].id == course.data.categoryId && r.categoryName == categories[i].data.name
  {
    CourseView(course, CategoryName(Find(categories, CategoryWithId(course.data.categoryId))))
  }

  /**
   * The list routes find a category by scanning `getCategories()`, the detail
   * route by `getCategoryById`; on a store the two lookups agree for every id.
   */
  lemma FindCategoryAgrees(st: MemStorage)
    requires st.Valid()
    ensures forall k :: Find(st.GetCategories(), CategoryWithId(k)) == st.GetCategoryById(k)
  {
    var cs := st.GetCategories();
    forall k ensures Find(cs, CategoryWithId(k)) == st.GetCategoryById(k) {
      var i := FindIndex(cs, CategoryWithId(k));
      if 1 <= k < st.nextIds.categories {
        assert CategoryWithId(k)(cs[k - 1]);
        assert i == k - 1;
      } else {
        assert forall j | 0 <= j < |cs| :: !CategoryWithId(k)(cs[j]);
      }
    }
  }

  /** `GET /api/courses`: every course in creation order with its category's name. */
  function ListCourses(st: MemStorage): (r: seq<CourseView>)
    reads st
    requires st.Valid()
    ensures |r| == st.nextIds.courses - 1
    ensures forall i | 0 <= i < |r| ::
              r[i].course == st.GetCourses()[i]
              && r[i].categoryName == CategoryName(st.GetCategoryById(r[i].course.data.categoryId))
  {
    var courses := st.GetCourses();
    var categories := st.GetCategories();
    FindCategoryAgrees(st);
    seq(|courses|, i requires 0 <= i < |courses| => WithCategoryName(courses[i], categories))
  }

  /** `GET /api/courses/featured`: the first three courses, each with its category's name. */
  function FeaturedCourses(st: MemStorage): (r: seq<CourseView>)
    reads st
    requires st.Valid()
    ensures |r| == if st.nextIds.courses - 1 < 3 then st.nextIds.courses - 1 else 3
    ensures forall i | 0 <= i < |r| ::
              r[i].course == st.GetCourses()[i]
              && r[i].categoryName == CategoryName(st.GetCategoryById(r[i].course.data.categoryId))
  {
    var courses := st.GetFeaturedCourses(3);
    var categories := st.GetCategories();
    FindCategoryAgrees(st);
    seq(|courses|, i requires 0 <= i < |courses| => WithCategoryName(courses[i], categories))
  }

  /**
   * `GET /api/courses/:id`: 400 when the id does not parse, 404 when no
   * course has it, else the course with its category's name.
   */
  function CourseDetail(st: MemStorage, param: string): (r: Response<CourseView>)
    reads st
    requires st.Valid()
    ensures ParseInt(param).None? ==> r == BadRequest(InvalidCourseId)
    ensures ParseInt(param).Some? && st.GetCourseById(ParseInt(param).value).None? ==> r == NotFound(CourseNotFound)
    ensures r.Ok? <==> ParseInt(param).Some? && 1 <= ParseInt(param).value < st.nextIds.courses
    ensures r.Ok? ==> r.body.course == st.courses[ParseInt(param).value - 1].1
                      && r.body.categoryName == CategoryName(st.GetCategoryById(r.body.course.data.categoryId))
  {
    match ParseInt(param)
    case None => BadRequest(InvalidCourseId)
    case Some(id) =>
      match st.GetCourseById(id)
      case None => NotFound(CourseNotFound)
      case Some(course) => Ok(CourseView(course, CategoryName(st.GetCategoryById(course.data.categoryId))))
  }

  // ------------------------------------------------------------ content

  /** A section as `/api/courses/:id/content` sends it: the row plus its items. */
  datatype SectionView = SectionView(section: ContentSection, items: seq<ContentItem>)

  function WithItems(st: MemStorage, section: ContentSection): SectionView
    reads st
    requires st.Valid()
  {
    SectionView(section, st.GetContentItems(section.id))
  }

  /**
   * The sections with their items fetched one by one: each section holds
   * exactly its own items, ascending by `order`.
   */
  function WithItemsAll(st: MemStorage, sections: seq<ContentSection>): (r: seq<SectionView>)
    reads st
    requires st.Valid()
    // The first two clauses spell out what the last one gives through the getter's contract.
    ensures |r| == |sections|
    ensures forall i | 0 <= i < |r| ::
              r[i].section == sections[i]
              && (forall j | 0 <= j < |r[i].items| :: r[i].items[j].data.sectionId == Id(sections[i].id))
              && (forall j | 0 <= j < |st.contentItems| && st.contentItems[j].1.data.sectionId == Id(sections[i].id) ::
                    st.contentItems[j].1 in r[i].items)
              && (forall j, k | 0 <= j < k < |r[i].items| :: r[i].items[j].data.order <= r[i].items[k].data.order)
    ensures forall i | 0 <= i < |r| :: r[i] == SectionView(sections[i], st.GetContentItems(sections[i].id))
  {
    seq(|sections|, i requires 0 <= i < |sections| && st.Valid() reads st => WithItems(st, sections[i]))
  }

  /**
   * `GET /api/courses/:id/content`: after the same 400/404 checks, the
   * course's sections ascending by `order`, each holding exactly its own items
   * ascending by `order`.
   */
  function CourseContent(st: MemStorage, param: string): (r: Response<seq<SectionView>>)
    reads st
    requires st.Valid()
    ensures ParseInt(param).None? ==> r == BadRequest(InvalidCourseId)
    ensures ParseInt(param).Some? && st.GetCourseById(ParseInt(param).value).None? ==> r == NotFound(CourseNotFound)
    ensures r.Ok? <==> ParseInt(param).Some? && 1 <= ParseInt(param).value < st.nextIds.courses
    // The length, per-entry and order clauses spell out what the last one gives through the getters' contracts.
    ensures r.Ok? ==> |r.body| == |st.GetContentSections(ParseInt(param).value)|
    ensures r.Ok? ==> forall i | 0 <= i < |r.body| ::
              r.body[i].section.data.courseId == Id(ParseInt(param).value)
              && (forall j | 0 <= j < |r.body[i].items| :: r.body[i].items[j].data.sectionId == Id(r.body[i].section.id))
              && (forall j | 0 <= j < |st.contentItems| && st.contentItems[j].1.data.sectionId == Id(r.body[i].section.id) ::
                    st.contentItems[j].1 in r.body[i].items)
              && (forall j, k | 0 <= j < k < |r.body[i].items| :: r.body[i].items[j].data.order <= r.body[i].items[k].data.order)
    ensures r.Ok? ==> forall i, j | 0 <= i < j < |r.body| :: r.body[i].section.data.order <= r.body[j].section.data.order
    ensures r.Ok? ==> forall i | 0 <= i < |r.body| ::
              r.body[i].section == st.GetContentSections(ParseInt(param).value)[i]
              && r.body[i].items == st.GetContentItems(r.body[i].section.id)
  {
    match ParseInt(param)
    case None => BadRequest(InvalidCourseId)
    case Some(id) =>
      match st.GetCourseById(id)
      case None => NotFound(CourseNotFound)
      case Some(_) => Ok(WithItemsAll(st, st.GetContentSections(id)))
  }

  /**
   * `GET /api/courses/:id/quizzes`: only the id is validated; a course that
   * does not exist is not an error, it simply has no quizzes listed.
   */
  function CourseQuizzes(st: MemStorage, param: string): (r: Response<seq<Quiz>>)
    reads st
    requires st.Valid()
    ensures !r.NotFound?
    ensures ParseInt(param).None? <==> r == BadRequest(InvalidCourseId)
    // These two clauses spell out what the last one gives through the getter's contract.
    ensures r.Ok? ==> forall i | 0 <= i < |r.body| :: r.body[i].data.courseId == Id(ParseInt(param).value)
    ensures r.Ok? ==> forall i | 0 <= i < |st.quizzes| && st.quizzes[i].1.data.courseId == Id(ParseInt(param).value) ::
                        st.quizzes[i].1 in r.body
    ensures r.Ok? <==> ParseInt(param).Some?
    ensures r.Ok? ==> r.body == st.GetQuizzesByCourseId(ParseInt(param).value)
  {
    match ParseInt(param)
    case None => BadRequest(InvalidCourseId)
    case Some(id) => Ok(st.GetQuizzesByCourseId(id))
  }

  // ---------------------------------------------------------- redaction

  /** A question as sent to the client: every field except `correctAnswerId`. */
  datatype ClientQuestion = ClientQuestion(
    id: int,
    quizId: Ref,
    text: string,
    options: Option<seq<QuizOption>>,
    explanation: Option<string>,
    order: int)

  /** `({ correctAnswerId, ...rest }) => rest` */
  function Redact(q: QuizQuestion): ClientQuestion {
    ClientQuestion(q.id, q.data.quizId, q.data.text, q.data.options, q.data.explanation, q.data.order)
  }

  /** Putting an answer back into a redacted question. */
  function Unredact(c: ClientQuestion, correctAnswerId: string): QuizQuestion {
    Row(c.id, InsertQuizQuestion(c.quizId, c.text, c.options, correctAnswerId, c.explanation, c.order))
  }

  /** Redaction loses the answer and nothing else. */
  lemma RedactRoundTrip(q: QuizQuestion)
    ensures Unredact(Redact(q), q.data.correctAnswerId) == q
  {
  }

  /** What the client sees does not depend on the answer, so it cannot reveal it. */
  lemma RedactHidesAnswer(q: QuizQuestion, other: string)
    ensures Redact(q) == Redact(q.(data := q.data.(correctAnswerId := other)))
  {
  }

  /** The body of `GET /api/quizzes/:id`: the quiz fields plus `questions`. */
  datatype QuizView = QuizView(quiz: Quiz, questions: seq<ClientQuestion>)

  /**
   * `GET /api/quizzes/:id`: 400 when the id does not parse, 404 when no quiz
   * has it, else the quiz with its questions in `order`, answers removed.
   */
  function GetQuiz(st: MemStorage, param: string): (r: Response<QuizView>)
    reads st
    requires st.Valid()
    ensures ParseInt(param).None? ==> r == BadRequest(InvalidQuizId)
    ensures ParseInt(param).Some? && st.GetQuizById(ParseInt(param).value).None? ==> r == NotFound(QuizNotFound)
    ensures r.Ok? <==> ParseInt(param).Some? && 1 <= ParseInt(param).value < st.nextIds.quizzes
    ensures r.Ok? ==> r.body.quiz == st.quizzes[ParseInt(param).value - 1].1
    ensures r.Ok? ==> |r.body.questions| == |st.GetQuizQuestions(ParseInt(param).value)|
    ensures r.Ok? ==> forall i | 0 <= i < |r.body.questions| ::
              var q := st.GetQuizQuestions(ParseInt(param).value)[i];
              Unredact(r.body.questions[i], q.data.correctAnswerId) == q
  {
    match ParseInt(param)
    case None => BadRequest(InvalidQuizId)
    case Some(id) =>
      match st.GetQuizById(id)
      case None => NotFound(QuizNotFound)
      case Some(quiz) =>
        var questions := st.GetQuizQuestions(id);
        Ok(QuizView(quiz, seq(|questions|, i requires 0 <= i < |questions| => Redact(questions[i]))))
  }

  // ------------------------------------------------------------ grading

  /** The request body as `express.json()` parsed it (numbers limited to integers). */
  datatype Json =
    | JNull
    | JBool(b: bool)
    | JNumber(n: int)
    | JString(s: string)
    | JArray(items: seq<Json>)
    | JObject(fields: map<string, Json>)

  predicate AllStrings(fields: map<string, Json>) {
    forall k | k in fields :: fields[k].JString?
  }

  /**
   * `z.object({ answers: z.record(z.string()) }).parse(body).answers`: the
   * body must be an object (not an array, not null) whose `answers` is an
   * object of strings; other fields are ignored. `None` where zod throws.
   */
  function DecodeAnswers(body: Json): (r: Option<map<string, string>>)
    ensures r.Some? <==> body.JObject? && "answers" in body.fields
                         && body.fields["answers"].JObject? && AllStrings(body.fields["answers"].fields)
    ensures r.Some? ==> r.value.Keys == body.fields["answers"].fields.Keys
    ensures r.Some? ==> forall k | k in r.value :: body.fields["answers"].fields[k] == JString(r.value[k])
  {
    if body.JObject? && "answers" in body.fields && body.fields["answers"].JObject?
       && AllStrings(body.fields["answers"].fields)
    then
      var fields := body.fields["answers"].fields;
      Some(map k | k in fields :: fields[k].s)
    else None
  }

  /** The body a client sends for the answers `a`. */
  function AnswersBody(a: map<string, string>): Json {
    JObject(map["answers" := JObject(map k | k in a :: JString(a[k]))])
  }

  /** Every answer map survives the trip through a request body. */
  lemma DecodeAnswersBody(a: map<string, string>)
    ensures DecodeAnswers(AnswersBody(a)) == Some(a)
  {
    var fields := map k | k in a :: JString(a[k]);
    assert (map k | k in fields :: fields[k].s) == a;
  }

  /** Bodies zod rejects: no `answers`, an array for `answers`, a number as an answer. */
  lemma DecodeAnswersRejects()
    ensures DecodeAnswers(JObject(map[])) == None
    ensures DecodeAnswers(JObject(map["answers" := JArray([JString("a")])])) == None
    ensures DecodeAnswers(JObject(map["answers" := JObject(map["1" := JNumber(1)])])) == None
    ensures DecodeAnswers(JArray([])) == None
  {
    var bad := map["1" := JNumber(1)];
    assert "1" in bad && !bad["1"].JString?;
  }

  /** `answers[question.id] === question.correctAnswerId`; the key is `String(question.id)`. */
  predicate AnsweredCorrectly(q: QuizQuestion, answers: map<string, string>) {
    IntToString(q.id) in answers && answers[IntToString(q.id)] == q.data.correctAnswerId
  }

  /** The number of questions answered correctly. */
  function CountCorrect(questions: seq<QuizQuestion>, answers: map<string, string>): (n: nat)
    ensures n <= |questions|
  {
    if questions == [] then 0
    else
      CountCorrect(questions[..|questions| - 1], answers)
      + (if AnsweredCorrectly(questions[|questions| - 1], answers) then 1 else 0)
  }

  /** `correctAnswers` after the loop: each question's id to its answer, later writes winning. */
  function CorrectAnswerMap(questions: seq<QuizQuestion>): (m: map<int, string>)
    ensures forall i | 0 <= i < |questions| :: questions[i].id in m
    ensures forall k | k in m :: exists i | 0 <= i < |questions| :: questions[i].id == k
  {
    if questions == [] then map[]
    else
      var last := questions[|questions| - 1];
      CorrectAnswerMap(questions[..|questions| - 1])[last.id := last.data.correctAnswerId]
  }

  /**
   * The `forEach` of the submit handler: counts the questions answered
   * correctly and records every question's correct answer.
   */
  method Grade(questions: seq<QuizQuestion>, answers: map<string, string>)
    returns (correctCount: int, correctAnswers: map<int, string>)
    ensures correctCount == CountCorrect(questions, answers)
    ensures correctAnswers == CorrectAnswerMap(questions)
  {
    correctCount := 0;
    correctAnswers := map[];
    for i := 0 to |questions|
      invariant correctCount == CountCorrect(questions[..i], answers)
      invariant correctAnswers == CorrectAnswerMap(questions[..i])
    {
      var question := questions[i];
      correctAnswers := correctAnswers[question.id := question.data.correctAnswerId];
      var key := IntToString(question.id);
      if key in answers && answers[key] == question.data.correctAnswerId {
        correctCount := correctCount + 1;
      }
      assert questions[..i + 1][..i] == questions[..i];
    }
    assert questions[..|questions|] == questions;
  }

  /** Every question answered correctly, and only then, gives a full count. */
  lemma {:induction false} CountCorrectAll(questions: seq<QuizQuestion>, answers: map<string, string>)
    ensures CountCorrect(questions, answers) == |questions|
            <==> forall i | 0 <= i < |questions| :: AnsweredCorrectly(questions[i], answers)
  {
    if questions != [] {
      var init := questions[..|questions| - 1];
      CountCorrectAll(init, answers);
      assert forall i | 0 <= i < |init| :: init[i] == questions[i];
    }
  }

  /** With no answer right — for instance no answers at all — the count is 0. */
  lemma {:induction false} CountCorrectNone(questions: seq<QuizQuestion>, answers: map<string, string>)
    requires forall i | 0 <= i < |questions| :: !AnsweredCorrectly(questions[i], answers)
    ensures CountCorrect(questions, answers) == 0
  {
    if questions != [] {
      var init := questions[..|questions| - 1];
      assert forall i | 0 <= i < |init| :: init[i] == questions[i];
      CountCorrectNone(init, answers);
    }
  }

  /**
   * Only the answers filed under the quiz's question ids matter: two answer
   * maps that agree there give the same count.
   */
  lemma {:induction false} CountCorrectIgnoresOtherKeys(questions: seq<QuizQuestion>, a: map<string, string>, b: map<string, string>)
    requires forall i | 0 <= i < |questions| ::
               var k := IntToString(questions[i].id);
               (k in a <==> k in b) && (k in a ==> a[k] == b[k])
    ensures CountCorrect(questions, a) == CountCorrect(questions, b)
  {
    if questions != [] {
      var init := questions[..|questions| - 1];
      assert forall i | 0 <= i < |init| :: init[i] == questions[i];
      CountCorrectIgnoresOtherKeys(init, a, b);
    }
  }

  /** With distinct question ids, `correctAnswers` maps each question's id to its own answer. */
  lemma {:induction false} CorrectAnswerMapValues(questions: seq<QuizQuestion>)
    requires forall i, j | 0 <= i < j < |questions| :: questions[i].id != questions[j].id
    ensures forall i | 0 <= i < |questions| ::
              CorrectAnswerMap(questions)[questions[i].id] == questions[i].data.correctAnswerId
  {
    if questions != [] {
      var init := questions[..|questions| - 1];
      assert forall i | 0 <= i < |init| :: init[i] == questions[i];
      CorrectAnswerMapValues(init);
    }
  }

  /**
   * `Math.round((correctCount / questions.length) * 100)`: the percentage
   * rounded to the nearest integer, halves up; `None` stands for the NaN of
   * `0 / 0` (sent as `null`).
   */
  function Score(correct: nat, total: nat): (r: Option<int>)
    ensures r.None? <==> total == 0
    ensures r.Some? ==> 2 * total * r.value - total <= 200 * correct < 2 * total * r.value + total
    ensures r.Some? && correct <= total ==> 0 <= r.value <= 100
  {
    if total == 0 then None
    else
      var s := (200 * correct + total) / (2 * total);
      ScoreBounds(correct, total, s);
      Some(s)
  }

  lemma ScoreBounds(c: nat, n: nat, s: int)
    requires n > 0 && s == (200 * c + n) / (2 * n)
    ensures 2 * n * s - n <= 200 * c < 2 * n * s + n
    ensures c <= n ==> 0 <= s <= 100
  {
    var x, d := 200 * c + n, 2 * n;
    RoundingBounds(x, d, s);
    assert s * d == 2 * n * s;
    if c <= n {
      if s < 0 {
        assert (-s) * d == -(s * d);
        MulAtLeast(-s, d);
      } else if s > 100 {
        assert (s - 100) * d == s * d - 100 * d;
        MulAtLeast(s - 100, d);
      }
    }
  }

  lemma RoundingBounds(x: int, d: int, q: int)
    requires d > 0 && q == x / d
    ensures q * d <= x < q * d + d
  {
  }

  /** Answering every one of at least one question scores exactly 100. */
  lemma ScoreAllCorrect(n: nat)
    requires n > 0
    ensures Score(n, n) == Some(100)
  {
    assert 200 * n + n == 100 * (2 * n) + n;
    DivUnique(200 * n + n, 2 * n, 100, n);
  }

  /** No correct answer out of at least one question scores 0. */
  lemma ScoreNoneCorrect(n: nat)
    requires n > 0
    ensures Score(0, n) == Some(0)
  {
    DivUnique(n, 2 * n, 0, n);
  }

  lemma DivUnique(x: int, d: int, q: int, m: int)
    requires d > 0 && 0 <= m < d && x == q * d + m
    ensures x / d == q
  {
    var k := x / d;
    if k > q {
      assert (k - q) * d == k * d - q * d;
      MulAtLeast(k - q, d);
    } else if k < q {
      assert (q - k) * d == q * d - k * d;
      MulAtLeast(q - k, d);
    }
  }

  lemma {:induction false} MulAtLeast(a: int, d: int)
    requires a >= 1 && d >= 0
    ensures a * d >= d
    decreases a
  {
    if a > 1 {
      MulAtLeast(a - 1, d);
      assert a * d == (a - 1) * d + d;
    }
  }

  /**
   * The `correctAnswers` of a submission maps every question of the quiz to
   * its own correct answer: the store never returns two questions with the
   * same id.
   */
  lemma SubmittedAnswerKey(st: MemStorage, quizId: int)
    requires st.Valid()
    ensures forall i | 0 <= i < |st.GetQuizQuestions(quizId)| ::
              var q := st.GetQuizQuestions(quizId)[i];
              CorrectAnswerMap(st.GetQuizQuestions(quizId))[q.id] == q.data.correctAnswerId
  {
    var qs := st.GetQuizQuestions(quizId);
    assert forall i, j | 0 <= i < j < |qs| :: qs[i].id != qs[j].id;
    CorrectAnswerMapValues(qs);
  }

  /** The body of a successful `POST /api/quizzes/:id/submit`. */
  datatype SubmitResult = SubmitResult(
    quizId: int,
    score: Option<int>,
    correctCount: int,
    totalQuestions: int,
    correctAnswers: map<int, string>)

  /**
   * `POST /api/quizzes/:id/submit`: 400 when the id does not parse, 404 when
   * no quiz has it — whatever the body — then 400 when the body is not an
   * answers record, else the grade of the quiz's questions. Nothing is saved.
   */
  method SubmitQuiz(st: MemStorage, param: string, body: Json) returns (r: Response<SubmitResult>)
    requires st.Valid()
    ensures ParseInt(param).None? ==> r == BadRequest(InvalidQuizId)
    ensures ParseInt(param).Some? && st.GetQuizById(ParseInt(param).value).None? ==> r == NotFound(QuizNotFound)
    ensures ParseInt(param).Some? && st.GetQuizById(ParseInt(param).value).Some? && DecodeAnswers(body).None?
            ==> r == BadRequest(InvalidRequestBody)
    ensures r.Ok? <==> ParseInt(param).Some? && st.GetQuizById(ParseInt(param).value).Some? && DecodeAnswers(body).Some?
    ensures r.Ok? ==>
              var id := ParseInt(param).value;
              var questions := st.GetQuizQuestions(id);
              var count := CountCorrect(questions, DecodeAnswers(body).value);
              r.body == SubmitResult(id, Score(count, |questions|), count, |questions|, CorrectAnswerMap(questions))
  {
    var parsed := ParseInt(param);
    if parsed.None? {
      return BadRequest(InvalidQuizId);
    }
    var id := parsed.value;
    var quiz := st.GetQuizById(id);
    if quiz.None? {
      return NotFound(QuizNotFound);
    }
    var questions := st.GetQuizQuestions(id);
    var decoded := DecodeAnswers(body);
    if decoded.None? {
      return BadRequest(InvalidRequestBody);
    }
    var correctCount, correctAnswers := Grade(questions, decoded.value);
    var score := Score(correctCount, |questions|);
    r := Ok(SubmitResult(id, score, correctCount, |questions|, correctAnswers));
  }

  // ------------------------------------------------------ the seeded store

  /** The corrected seed's algebra questions as `getQuizQuestions(1)` returns them. */
  function AlgebraQuestionRows(): seq<QuizQuestion> {
    var a := SampleData.QuestionsUnder(SampleData.AlgebraQuestionRecords(), Id(1));
    [Row(1, a[0]), Row(2, a[1]), Row(3, a[2])]
  }

  lemma AlgebraQuestionRowsStamped()
    ensures JsMap.Values(Stamped(1, SampleData.QuestionsUnder(SampleData.AlgebraQuestionRecords(), Id(1)))) == AlgebraQuestionRows()
  {
    var a := SampleData.QuestionsUnder(SampleData.AlgebraQuestionRecords(), Id(1));
    assert |a| == 3;
  }

  /** Quiz 1's answers are a, b, a; answering a, b, c gets the first two right. */
  lemma AlgebraQuestionsGrade()
    ensures CorrectAnswerMap(AlgebraQuestionRows()) == map[1 := "a", 2 := "b", 3 := "a"]
    ensures CountCorrect(AlgebraQuestionRows(), map["1" := "a", "2" := "b", "3" := "c"]) == 2
  {
    var qs := AlgebraQuestionRows();
    assert qs[..2] == [qs[0], qs[1]] && qs[..2][..1] == [qs[0]] && [qs[0]][..0] == [];
    assert qs[..|qs| - 1] == qs[..2];
    assert IntToString(1) == "1" && IntToString(2) == "2" && IntToString(3) == "3";
  }

  /**
   * With the seed corrected, quiz 1 has three questions whose correct answers
   * are a, b, a; answering a, b, c gets two right (a score of 67, see
   * `ScoreExamples`).
   */
  lemma SeededAlgebraQuizGrade(st: MemStorage)
    requires st.Valid()
    requires st.quizQuestions == Stamped(1, SampleData.QuestionsUnder(SampleData.AlgebraQuestionRecords(), Id(1))
                                            + SampleData.QuestionsUnder(SampleData.BiologyQuestionRecords(), Id(2)))
    ensures CorrectAnswerMap(st.GetQuizQuestions(1)) == map[1 := "a", 2 := "b", 3 := "a"]
    ensures CountCorrect(st.GetQuizQuestions(1), map["1" := "a", "2" := "b", "3" := "c"]) == 2
    ensures |st.GetQuizQuestions(1)| == 3
  {
    SeededAlgebraQuestionRows(st);
    AlgebraQuizGradeOf(st);
  }

  lemma SeededAlgebraQuestionRows(st: MemStorage)
    requires st.Valid()
    requires st.quizQuestions == Stamped(1, SampleData.QuestionsUnder(SampleData.AlgebraQuestionRecords(), Id(1))
                                            + SampleData.QuestionsUnder(SampleData.BiologyQuestionRecords(), Id(2)))
    ensures st.GetQuizQuestions(1) == AlgebraQuestionRows()
  {
    SeededAlgebraQuestions(st);
    AlgebraQuestionRowsStamped();
  }

  lemma AlgebraQuizGradeOf(st: MemStorage)
    requires st.Valid()
    requires st.GetQuizQuestions(1) == AlgebraQuestionRows()
    ensures CorrectAnswerMap(st.GetQuizQuestions(1)) == map[1 := "a", 2 := "b", 3 := "a"]
    ensures CountCorrect(st.GetQuizQuestions(1), map["1" := "a", "2" := "b", "3" := "c"]) == 2
    ensures |st.GetQuizQuestions(1)| == 3
  {
    AlgebraQuestionsGrade();
  }

  /** Two of three is 66.67 %, sent as 67; one of two is exactly 50. */
  lemma ScoreExamples()
    ensures Score(2, 3) == Some(67)
    ensures Score(1, 3) == Some(33)
    ensures Score(1, 2) == Some(50)
    ensures Score(0, 0) == None
  {
  }

  /**
   * As written, the seeded quizzes exist but have no questions: whatever the
   * answers, submitting to quiz 1 counts 0 of 0 and the score is NaN.
   */
  lemma SeedAsWrittenSubmitIsNaN(st: MemStorage, r: SampleData.Records, answers: map<string, string>)
    requires st.Valid() && SampleData.Shaped(r)
    requires st.SeededWith(r, PromiseIds(5), PromiseIds(2), Undefined, Undefined)
    ensures st.GetQuizById(1).Some?
    ensures |st.GetQuizQuestions(1)| == 0 && CountCorrect(st.GetQuizQuestions(1), answers) == 0
    ensures Score(CountCorrect(st.GetQuizQuestions(1), answers), |st.GetQuizQuestions(1)|) == None
  {
    SeedAsWrittenOrphans(st, r);
  }

  /** As written, course 1's content page is empty although the course exists. */
  lemma SeedAsWrittenContentIsEmpty(st: MemStorage, r: SampleData.Records)
    requires st.Valid() && SampleData.Shaped(r)
    requires st.SeededWith(r, PromiseIds(5), PromiseIds(2), Undefined, Undefined)
    ensures CourseContent(st, "1") == Ok([])
    ensures CourseQuizzes(st, "1") == Ok([])
  {
    SeedAsWrittenOrphans(st, r);
    ParseIntOfIntToString(1, "");
    assert IntToString(1) + "" == "1";
  }
}
