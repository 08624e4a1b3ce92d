# sitio-educativo: the content store, the course and quiz routes, and the contact form

This project models three parts of sitio-educativo and proves properties of each model.

- **`MemStorage`**: the in-memory content store behind the educational site's API (`sitio-educativo/server/storage.ts`).
  - It holds nine JavaScript `Map` tables. Seven are keyed by an integer id: users, categories, courses, content sections, content items, quizzes and quiz questions.
  - The other two, user progress and quiz results, are keyed by the string `` `${userId}-${courseId}` `` or `` `${userId}-${quizId}` ``.
  - Each table has its own auto-increment counter in `nextIds`.
  - The store is seeded with sample data when it is constructed.
- **The route logic of `registerRoutes`** (`sitio-educativo/server/routes.ts`):
  - `parseInt` id validation;
  - the order in which 400 and 404 are decided;
  - the course-to-category join with its `"Uncategorized"` fallback;
  - the nesting of sections and items;
  - the removal of correct answers from a fetched quiz;
  - the grading of a quiz submission.
- **The contact form** (`src/components/Contact.js`): its validator and its change and submit handlers.

Layout, one module per file:

| file | module | what it holds |
|---|---|---|
| `wrappers.dfy` | `Wrappers` | `Option` (a JS value that may be `undefined`) |
| `js_string.dfy` | `JsString` | ECMAScript white space, `trim`, `String(n)` for integers, the `${a}-${b}` key |
| `js_parse_int.dfy` | `JsParseInt` | `parseInt(s)` without a radix |
| `js_map.dfy` | `JsMap` | a JS `Map`: an insertion-ordered list of entries with distinct keys |
| `js_array.dfy` | `JsArray` | `filter`, the stable `sort` by a numeric key, `find`, `slice(0, n)` |
| `schema.dfy` | `Schema` | the row types (`Row(id, data)`); a parent reference is `Id(n)` or `Undefined` |
| `sample_data.dfy` | `SampleData` | the seed records of `initializeSampleData` |
| `storage.dfy` | `Storage` | the class `MemStorage`, its invariant `Valid()`, its queries, inserts and seeding |
| `routes.dfy` | `Routes` | the handlers as functions (and `Grade`/`SubmitQuiz` as methods) over a store |
| `contact.dfy` | `Contact` | `Validate`, the email pattern, and the class `ContactForm` |

Modelling decisions:

- **Tables.** A `Map` is modelled as a sequence of `(key, value)` entries.
  - `set` replaces an entry in place or appends a new one.
  - `values()` follows insertion order.
  - Nothing is ever deleted and ids only grow, so insertion order is ascending-id order. `Valid()` states this: the entry at position `i` of an id-keyed table has key and id `i + 1`, and the table holds exactly the ids `1 .. counter - 1`.
  - The two pair-keyed tables are keyed by the real string `` `${a}-${b}` ``. `JsString.PairKeyInjective` proves that distinct pairs give distinct keys.
- **`async`.** The storage methods are `async`, but none of them awaits anything. They are modelled as plain sequential operations.
- **Sorting and stability.** `Array.prototype.sort` is stable. It is modelled as an insertion sort (`JsArray.SortBy`), which is a permutation, is sorted, and keeps the relative order of equal keys.
- **Scores.** `Math.round(c / n * 100)` for `n > 0` is the integer `(200c + n) / (2n)`, i.e. rounding half up. For `n = 0` the result is `NaN`, which is sent as `null` and modelled as `None`.
- **Request bodies.** A body is a JSON value. `z.object({ answers: z.record(z.string()) })` is modelled as the `DecodeAnswers` function.
- **Seeding.** `Storage.MemStorage.SeedCatalog`, `SeedContent` and `SeedQuizzes` split `initializeSampleData` into three stages, in the source's order. The literal seed texts are copied into `SampleData`.

**A finding.** The store is meant to start out populated with the sample catalogue. The code as written leaves every seeded child row detached from its parent, because of the bug listed under Findings.

- The model keeps both versions:
  - `InitializeSampleDataAsWritten` and the constructor `AsWritten` model the code as written.
  - `InitializeSampleData` and the default constructor model the evident intent. The route lemmas use this corrected version.
  - Both run `SeedRecords`, which takes the seed records as a parameter and a flag saying whether the parent ids are read off the created rows. The seeding is thus proved for any records of the seed's shape (`SampleData.Shaped`). The two wrappers pass the literal records, `SampleData.Seed()`.
- Nothing ties `correctAnswerId` to an option id. The schema only makes it non-null, and `CreateQuizQuestion` accepts any string.

## Model

| member | source | states |
|---|---|---|
| `Storage.MemStorage.constructor` | sitio-educativo/server/storage.ts:75-100 | all nine tables empty and every counter at 1, then the seed (with parent ids read correctly); the result satisfies the store invariant and holds exactly the seeded rows, counters at 6 categories, 6 courses, 3 sections, 4 items, 3 quizzes, 6 questions |
| `Storage.MemStorage.AsWritten` | sitio-educativo/server/storage.ts:75-100 | the same construction running the seed as written: the same rows except that every parent reference is `undefined` |
| `Storage.MemStorage.GetUser` | sitio-educativo/server/storage.ts:345-347 | `getUser(id)` is defined iff `1 <= id < nextIds.users`, and is then the row with that id |
| `Storage.MemStorage.GetUserByUsername` | sitio-educativo/server/storage.ts:349-353 | defined iff some user has that username; the result has it, and no earlier-created user has it (duplicates are accepted; the earliest wins) |
| `Storage.MemStorage.CreateUser` | sitio-educativo/server/storage.ts:355-360 | returns the input with `id` equal to the users counter before the call; the table gains exactly that entry at its end; only the users counter moves, by one; the invariant is kept |
| `Storage.MemStorage.GetCategories` | sitio-educativo/server/storage.ts:363-365 | every category in creation order; the i-th has id i+1 |
| `Storage.MemStorage.GetCategoryById` | sitio-educativo/server/storage.ts:367-369 | defined iff `1 <= id < nextIds.categories`, and is then the row with that id |
| `Storage.MemStorage.CreateCategory` | sitio-educativo/server/storage.ts:371-376 | as `CreateUser`, for categories |
| `Storage.MemStorage.GetCourses` | sitio-educativo/server/storage.ts:379-381 | every course in creation order; the i-th has id i+1 |
| `Storage.MemStorage.GetCourseById` | sitio-educativo/server/storage.ts:383-385 | defined iff `1 <= id < nextIds.courses`, and is then the row with that id |
| `Storage.MemStorage.GetFeaturedCourses` | sitio-educativo/server/storage.ts:387-389 | the first `min(limit, count)` courses in creation order (default limit 3); a negative limit drops that many from the end, as `slice` does |
| `Storage.MemStorage.CreateCourse` | sitio-educativo/server/storage.ts:391-396 | as `CreateUser`, for courses; the category id is not checked |
| `Storage.MemStorage.GetContentSections` | sitio-educativo/server/storage.ts:399-403 | exactly the stored sections whose `courseId` is the argument, each the stored row, ascending by `order` and, within equal `order`, ascending by id (creation order) |
| `Storage.MemStorage.GetContentItems` | sitio-educativo/server/storage.ts:405-409 | the same for the items of a section |
| `Storage.MemStorage.CreateContentSection` | sitio-educativo/server/storage.ts:411-416 | as `CreateUser`, for sections; the course id is not checked |
| `Storage.MemStorage.CreateContentItem` | sitio-educativo/server/storage.ts:418-423 | as `CreateUser`, for items; the section id is not checked |
| `Storage.MemStorage.GetQuizzesByCourseId` | sitio-educativo/server/storage.ts:426-429 | exactly the quizzes of that course, each the stored row, in creation order (ids strictly increasing, no sort) |
| `Storage.MemStorage.GetQuizById` | sitio-educativo/server/storage.ts:431-433 | defined iff `1 <= id < nextIds.quizzes`, and is then the row with that id |
| `Storage.MemStorage.GetQuizQuestions` | sitio-educativo/server/storage.ts:435-439 | exactly the questions of that quiz, ascending by `order`, ties in creation order |
| `Storage.MemStorage.CreateQuiz` | sitio-educativo/server/storage.ts:441-446 | as `CreateUser`, for quizzes |
| `Storage.MemStorage.CreateQuizQuestion` | sitio-educativo/server/storage.ts:448-453 | as `CreateUser`, for questions; neither the quiz id nor the answer id is checked |
| `Storage.MemStorage.GetUserProgress` | sitio-educativo/server/storage.ts:456-459 | defined iff an entry for the pair (userId, courseId) exists, and is then that pair's record |
| `Storage.MemStorage.CreateOrUpdateUserProgress` | sitio-educativo/server/storage.ts:461-469 | upsert: an existing pair keeps its id and no counter moves; a new pair takes the counter's value and bumps it; the table grows by at most one; the pair now maps to the new record and every other pair's lookup is unchanged |
| `Storage.MemStorage.GetQuizResult` | sitio-educativo/server/storage.ts:472-475 | defined iff an entry for (userId, quizId) exists, and is then that pair's record |
| `Storage.MemStorage.SaveQuizResult` | sitio-educativo/server/storage.ts:477-482 | always a fresh id, even when it replaces an earlier result for the pair; only the latest result is returned by `GetQuizResult`; other pairs unchanged |
| `Storage.PairSetQueries` | sitio-educativo/server/storage.ts:461-482 | after filing a record under one pair's key, that pair's lookup finds it, every other pair's lookup is unchanged, and the table grows by at most one entry |
| `Storage.KeyedSet` | sitio-educativo/server/storage.ts:461-482 | filing a row under its pair keeps a pair-keyed table's invariant, given that no entry under another key holds its id |
| `Storage.PairSetOther` | sitio-educativo/server/storage.ts:461-469 | writing the key of one pair leaves the lookup of every other pair unchanged |
| `Storage.ProgressUpserted` | sitio-educativo/server/storage.ts:461-469 | the upsert keeps the progress table's invariant: keys match their records' pairs, ids are distinct and below the counter, one id per counter step |
| `Storage.ResultSaved` | sitio-educativo/server/storage.ts:477-482 | saving with a fresh id keeps the results table's invariant (distinct ids below the counter, keys matching their pairs) |
| `Storage.Children` | sitio-educativo/server/storage.ts:399-409 | `values().filter(p).sort(by key)` returns exactly the rows satisfying `p`, ordered by (key, id) |
| `Storage.MemStorage.CreateCategories` | sitio-educativo/server/storage.ts:104-112 | the seed's `forEach` of `createCategory`: the table gains the records stamped with consecutive ids from the counter, which moves by their number |
| `Storage.MemStorage.CreateCourses` | sitio-educativo/server/storage.ts:115-193 | the seed's `map` of `createCourse`: as above, and the ids created are consecutive from the old counter |
| `Storage.MemStorage.CreateContentSections` | sitio-educativo/server/storage.ts:196-213 | as `CreateCourses`, for the Algebra sections |
| `Storage.MemStorage.CreateContentItems` | sitio-educativo/server/storage.ts:216-243 | as `CreateCategories`, for the items |
| `Storage.MemStorage.CreateQuizQuestions` | sitio-educativo/server/storage.ts:257-299 | as `CreateCategories`, for a quiz's questions |
| `Storage.MemStorage.SeedCatalog` | sitio-educativo/server/storage.ts:104-193 | the five categories and five courses are stored with ids 1..5 |
| `Storage.MemStorage.SeedContent` | sitio-educativo/server/storage.ts:196-243 | the two sections and three items are stored, the items under the section references the code reads |
| `Storage.MemStorage.SeedQuizzes` | sitio-educativo/server/storage.ts:245-341 | each quiz is stored and followed by its questions, filed under the quiz reference the code reads |
| `Storage.MemStorage.SeedRecords` | sitio-educativo/server/storage.ts:102-342 | for any records of the seed's shape, the store afterwards holds exactly those rows with ids from 1 and the counters at 6 categories, 6 courses, 3 sections, 4 items, 3 quizzes, 6 questions; with the ids read, sections and the algebra quiz are under course 1, the biology quiz under course 2, items under section 1, questions under quizzes 1 and 2; without, every parent reference is `undefined` |
| `Storage.MemStorage.InitializeSampleData` | sitio-educativo/server/storage.ts:102-342 | the literal seed with parent ids read from the created rows: the store afterwards is exactly the seeded state described for `SeedRecords` |
| `Storage.MemStorage.InitializeSampleDataAsWritten` | sitio-educativo/server/storage.ts:102-342 | the literal seed as written: the same rows, but every stored parent reference is `undefined` |
| `SampleData.Seed` | sitio-educativo/server/storage.ts:104-341 | the literal records: five categories, five courses, two Algebra sections, three items, three algebra and two biology questions |
| `Storage.SeedAsWrittenOrphans` | sitio-educativo/server/storage.ts:193-310 | after the seed as written, whatever its records, course 1 and quizzes 1 and 2 exist, yet every course has no sections or quizzes, every section no items and every quiz no questions |
| `Storage.SeededAlgebraSections` | sitio-educativo/server/storage.ts:196-213 | after the corrected seed, course 1 lists its two sections, in order |
| `Storage.SeededLinearEquationsItems` | sitio-educativo/server/storage.ts:216-243 | after the corrected seed, section 1 lists its three items, in order |
| `Storage.SeededAlgebraQuestions` | sitio-educativo/server/storage.ts:257-299 | after the corrected seed, quiz 1 lists the three algebra questions, ids 1 to 3, in order |
| `Storage.SeededBiologyQuestions` | sitio-educativo/server/storage.ts:312-341 | after the corrected seed, quiz 2 lists the two biology questions, ids 4 and 5 |
| `JsString.PairKey` | sitio-educativo/server/storage.ts:457-480 | the template key `` `${a}-${b}` ``: `String(a)`, a dash, `String(b)`; `PairKeyInjective` proves it tells pairs apart |
| `JsString.PairKeyInjective` | sitio-educativo/server/storage.ts:456-458 | `` `${a}-${b}` `` is the same string for two integer pairs iff the pairs are equal |
| `JsString.IntToStringInjective` | sitio-educativo/server/routes.ts:193-195 | `String(n)` differs for different integers, so each question has its own key in `answers` |
| `JsString.TrimEmptyIff` | src/components/Contact.js:11-14 | `s.trim()` is empty iff every character of `s` is white space |
| `JsString.Trim` | src/components/Contact.js:11-14 | `s.trim()` is no longer than `s`, and starts and ends with a character that is not white space unless it is empty |
| `JsString.TrimInfix` | src/components/Contact.js:11-14 | `s.trim()` is the part of `s` between a leading and a trailing run of white space |
| `JsString.TrimStartSuffix` | src/components/Contact.js:11-14 | removing leading white space leaves a suffix of the string |
| `JsString.TrimEndPrefix` | src/components/Contact.js:11-14 | removing trailing white space leaves a prefix of the string |
| `JsParseInt.ParseInt` | sitio-educativo/server/routes.ts:55 | `parseInt(s)` with no radix: leading white space skipped, an optional sign, `0x`/`0X` for hexadecimal, the longest digit prefix, `NaN` (`None`) when there are no digits; characterised by the `ParseInt*` lemmas below |
| `JsParseInt.ParseIntOfIntToString` | sitio-educativo/server/routes.ts:55-59 | `parseInt` reads back `String(n)` followed by text `t` as `n`, provided `t` does not start with a digit and, when `n` is 0, does not start with `x` or `X` (`"0x1"` is the hexadecimal 1) |
| `JsParseInt.ParseIntSkipsWhiteSpace` | sitio-educativo/server/routes.ts:55-59 | leading white space does not change what `parseInt` returns |
| `JsParseInt.ParseIntTrailingTextExample` | sitio-educativo/server/routes.ts:55-59 | `"12abc"` parses as 12, so `/api/courses/12abc` is course 12 |
| `JsParseInt.ParseIntHexExample` | sitio-educativo/server/routes.ts:55-59 | `"0x1F"` parses as 31 |
| `JsParseInt.ParseIntNaNExamples` | sitio-educativo/server/routes.ts:55-59 | `"abc"`, `""`, `"0x"` and `"-"` are NaN, hence a 400 |
| `JsMap.SetSpec` | sitio-educativo/server/storage.ts:466-467 | after `set(k, v)` the keys stay distinct, `k` maps to `v`, every other key is unchanged, and the size grows by one iff `k` was absent |
| `JsArray.SortBy` | sitio-educativo/server/storage.ts:399-403 | the sort returns a permutation of its input, sorted by the key |
| `JsArray.SortByStable` | sitio-educativo/server/storage.ts:399-403 | among the elements with any one key value, the sort keeps their input order |
| `JsArray.SortBySorted` | sitio-educativo/server/storage.ts:399-403 | an input already sorted by the key is returned unchanged |
| `JsArray.Filter` | sitio-educativo/server/storage.ts:426-429 | the result is no longer than the input and every element of it satisfies the predicate |
| `JsArray.FilterMembers` | sitio-educativo/server/storage.ts:426-429 | the result holds only elements of the input, and every element of the input that satisfies the predicate |
| `JsArray.InsertByWithKey` | sitio-educativo/server/storage.ts:399-403 | one insertion step of the sort keeps, among the elements of any one key, their order, with the inserted element first |
| `JsArray.FilterIncreasing` | sitio-educativo/server/storage.ts:426-429 | filtering keeps the ids strictly increasing |
| `JsArray.Find` | sitio-educativo/server/routes.ts:20 | `find` is defined iff some element matches, and is then the first match |
| `JsArray.SliceTo` | sitio-educativo/server/storage.ts:387-389 | `slice(0, end)` is always a prefix of the array: of length `end` for `0 <= end <= length`, the whole array for `end >= length`, of length `length + end` for `-length <= end < 0`, and empty for `end <= -length` |
| `Routes.WithCategoryName` | sitio-educativo/server/routes.ts:20-23 | the list routes' join keeps the course and gives a non-empty category name, which unless it is `"Uncategorized"` is the name of a listed category whose id is the course's `categoryId` |
| `Routes.CategoryName` | sitio-educativo/server/routes.ts:23 | `category?.name \|\| "Uncategorized"`: the name when a category is found with a non-empty name, otherwise `"Uncategorized"`, which is never empty |
| `Routes.FindCategoryAgrees` | sitio-educativo/server/routes.ts:20 | on a valid store, finding a category by scanning `getCategories()` gives the same result as `getCategoryById`, for every id |
| `Routes.ListCourses` | sitio-educativo/server/routes.ts:14-33 | every course, in creation order, each with the name of its category as `getCategoryById` finds it |
| `Routes.FeaturedCourses` | sitio-educativo/server/routes.ts:35-52 | at most three courses: the first `min(3, count)` in creation order, each with its category's name |
| `Routes.CourseDetail` | sitio-educativo/server/routes.ts:54-79 | a NaN id gives 400 before any lookup; an unknown id gives 404; the response is OK iff the id parses to a stored course, and then it holds that course and its category's name |
| `Routes.WithItemsAll` | sitio-educativo/server/routes.ts:97-112 | each section is paired with exactly what `getContentItems` returns for it: the stored items of that section, none repeated, ascending by `order` with ties in creation order |
| `Routes.CourseContent` | sitio-educativo/server/routes.ts:81-115 | the same 400/404 order; when OK, the i-th entry is the i-th section `getContentSections` returns for the course (stored rows, ascending by `order`, ties in creation order), holding exactly what `getContentItems` returns for that section |
| `Routes.CourseQuizzes` | sitio-educativo/server/routes.ts:117-138 | never 404; 400 iff the id does not parse, OK otherwise; when OK, the body is exactly `getQuizzesByCourseId`'s result: the stored quizzes of that course id, each once, in creation order, whether or not the course exists |
| `Routes.Redact` | sitio-educativo/server/routes.ts:157 | `({ correctAnswerId, ...rest }) => rest`: every field but the answer; `RedactRoundTrip` and `RedactHidesAnswer` characterise it |
| `Routes.RedactRoundTrip` | sitio-educativo/server/routes.ts:157 | removing `correctAnswerId` loses nothing else: putting the answer back gives the stored question |
| `Routes.RedactHidesAnswer` | sitio-educativo/server/routes.ts:157 | the redacted question does not depend on the correct answer |
| `Routes.GetQuiz` | sitio-educativo/server/routes.ts:141-163 | 400 for a NaN id, 404 for an unknown quiz; when OK, the quiz and its questions in `order`, each equal to the stored question minus its answer |
| `Routes.DecodeAnswers` | sitio-educativo/server/routes.ts:181-186 | the body is accepted iff it is an object whose `answers` is an object of strings; the accepted map has exactly those keys and values |
| `Routes.DecodeAnswersBody` | sitio-educativo/server/routes.ts:181-186 | every answer map survives encoding as a request body and decoding |
| `Routes.DecodeAnswersRejects` | sitio-educativo/server/routes.ts:212-214 | a body without `answers`, with an array of answers, with a number as an answer, or that is an array is rejected |
| `Routes.AnsweredCorrectly` | sitio-educativo/server/routes.ts:195 | `answers[question.id] === question.correctAnswerId`: the key is `String(id)` and a missing key is wrong; `CountCorrect` and its lemmas build on it |
| `Routes.CountCorrect` | sitio-educativo/server/routes.ts:189-198 | the number of correctly answered questions is between 0 and the number of questions |
| `Routes.CorrectAnswerMap` | sitio-educativo/server/routes.ts:190-193 | every question's id is a key, and every key is some question's id |
| `Routes.Grade` | sitio-educativo/server/routes.ts:189-198 | the `forEach` computes the count of questions `q` with `answers[String(q.id)] === q.correctAnswerId` and the id-to-answer map |
| `Routes.CountCorrectAll` | sitio-educativo/server/routes.ts:192-198 | the count equals the number of questions iff every question is answered correctly |
| `Routes.CountCorrectNone` | sitio-educativo/server/routes.ts:192-198 | with no question answered correctly (in particular with no answers at all), the count is 0 |
| `Routes.CountCorrectIgnoresOtherKeys` | sitio-educativo/server/routes.ts:195 | answers under keys that are not question ids do not affect the count; a missing key counts as wrong |
| `Routes.CorrectAnswerMapValues` | sitio-educativo/server/routes.ts:192-193 | with distinct question ids, each id maps to its own question's correct answer |
| `Routes.SubmittedAnswerKey` | sitio-educativo/server/routes.ts:178-193 | for the questions the store returns, `correctAnswers` maps each question's id to its own answer |
| `Routes.Score` | sitio-educativo/server/routes.ts:200 | NaN (`None`) iff there are no questions; otherwise the integer nearest to `100 * c / n` (halves up), within 0..100 |
| `Routes.ScoreAllCorrect` | sitio-educativo/server/routes.ts:200 | all of n > 0 questions correct scores exactly 100 |
| `Routes.ScoreNoneCorrect` | sitio-educativo/server/routes.ts:200 | none of n > 0 questions correct scores exactly 0 |
| `Routes.ScoreExamples` | sitio-educativo/server/routes.ts:200 | 2 of 3 gives 67, 1 of 3 gives 33, 1 of 2 gives 50, 0 of 0 gives NaN |
| `Routes.SubmitQuiz` | sitio-educativo/server/routes.ts:165-215 | 400 for a NaN id, then 404 for an unknown quiz whatever the body, then 400 for a bad body; OK iff all three pass, with quiz id, score, count, total and answer map of the quiz's questions; the store is not changed |
| `Routes.AlgebraQuestionsGrade` | sitio-educativo/server/routes.ts:189-198 | for quiz 1's questions the answer map is {1: a, 2: b, 3: a}, and answers {1: a, 2: b, 3: c} get 2 right |
| `Routes.SeededAlgebraQuizGrade` | sitio-educativo/server/routes.ts:178-200 | on the corrected seed, quiz 1 has three questions with answers a, b, a, and submitting a, b, c counts 2 |
| `Routes.SeedAsWrittenSubmitIsNaN` | sitio-educativo/server/routes.ts:178-200 | on the seed as written, whatever its records, quiz 1 exists but has no questions: any submission counts 0 of 0 and its score is NaN |
| `Routes.SeedAsWrittenContentIsEmpty` | sitio-educativo/server/routes.ts:81-137 | on the seed as written, whatever its records, `/api/courses/1/content` and `/api/courses/1/quizzes` are both OK and empty |
| `Contact.With` | src/components/Contact.js:18-20 | `{...formData, [name]: value}` sets the named field and leaves the other two unchanged |
| `Contact.MatchesEmailPattern` | src/components/Contact.js:13 | `/\S+@\S+\.\S+/.test(email)`: some `@` and a later dot split off non-empty parts; `MatchesEmailPatternIff` proves it equals the regex's shape |
| `Contact.MatchesEmailPatternIff` | src/components/Contact.js:13 | the unanchored test of `\S+@\S+\.\S+` succeeds iff some infix of the value has the whole shape `x@y.z` with non-empty, space-free parts |
| `Contact.EmailPatternAccepts` | src/components/Contact.js:13 | `" a@b.c "`, `"x y@z.w"` and `"a@b.c"` pass the untrimmed test |
| `Contact.EmailPatternRejects` | src/components/Contact.js:13 | `"a@b"`, `"@b.c"` and `"a@b .c"` fail it |
| `Contact.IsBlank` | src/components/Contact.js:11-14 | `!s.trim()` holds iff `s` is all white space |
| `Contact.Validate` | src/components/Contact.js:9-16 | errors only under name, email and message; the name and the message are flagged iff blank, with "required"; the email is flagged iff blank ("required") or, when not blank, failing the pattern ("invalid") |
| `Contact.Flag` | src/components/Contact.js:11-14 | recording a failed check adds exactly that field, with its message, and leaves the others; a passed check changes nothing |
| `Contact.ValidateEmptyIff` | src/components/Contact.js:9-16 | no errors iff name, message and email are not blank and the email matches the pattern |
| `Contact.ValidateEmptyForm` | src/components/Contact.js:5-16 | the blank form fails all three checks, each with its "required" message |
| `Contact.ValidateAcceptsExample` | src/components/Contact.js:9-16 | a padded but complete form passes |
| `Contact.ContactForm.constructor` | src/components/Contact.js:5-7 | the initial state: blank form, no errors, not submitted |
| `Contact.ContactForm.HandleChange` | src/components/Contact.js:18-20 | only the edited field changes; errors and `submitted` stay |
| `Contact.ContactForm.HandleSubmit` | src/components/Contact.js:22-33 | valid form: `submitted`, fields reset to blank, errors cleared; invalid form: not submitted, data unchanged, errors are the validator's result |

## Left out

- React rendering, routing and the CSS of every component. The `preventDefault` call in `handleSubmit` has no state to model.
- `Contact.ContactForm.HandleChange` takes the field as one of name, email or message. The source writes `[e.target.name]`, which could name any key, but the form renders only those three inputs.
- The random demo fields the routes add: `progress`, `completedLessons`, `lastActivity`, the items' `completed`, and the quizzes' `questionCount`, `completed` and `score`. They come from `Math.random`, `Date.now` and `toLocaleDateString`. `CourseView`, `SectionView` and the quiz list therefore carry only the deterministic fields.
- `GET /api/categories` returns `getCategories()` as it is (see `Storage.MemStorage.GetCategories`).
- Express and HTTP plumbing:
  - `app.get`/`app.post`, `res.status().json()` and `createServer`.
  - A response is `Ok(body)`, `BadRequest(message)` or `NotFound(message)`.
  - Express matches `/api/courses/featured` before `/api/courses/:id` because it is registered first. The model has one function per route and takes that dispatch as given.
- The `async`/`Promise` wrappers of the storage methods. No method awaits anything, so the model is sequential. The one place where a Promise is visible is the seed bug, and it is modelled.
- `Routes.Score`: floating point is not modelled. `Math.round(c / n * 100)` is taken as exact rounding half up. Double-precision rounding of `c / n * 100` could move a value that is exactly a half by one unit.
- `JsParseInt.ParseInt`: the integer is unbounded. JavaScript turns very long digit strings (beyond 2^53) into inexact doubles.
- `JsString.IntToString`: exact decimal digits. `String(n)` switches to exponent notation from 10^21 upwards.
- `Routes.DecodeAnswers`: JSON numbers are integers here, which is enough because any number is rejected as an answer. Zod's handling of keys such as `__proto__` is not modelled.
- `Routes.Json`: the body is a parsed JSON value. The `express.json()` parser itself is not part of this model.
- Drizzle table declarations in `shared/schema.ts`: only their field lists are used, as the row datatypes. Optional columns are `Option`.

## Findings

| source | as written | input that shows it | evidently intended | confidence | as-written member | corrected member |
|---|---|---|---|---|---|---|
| sitio-educativo/server/storage.ts:193-310 | `this.createCourse(course).id` (and likewise for sections at line 213 and quizzes at lines 254 and 310) reads `id` off the Promise that an `async` method returns, so it yields `undefined`; every seeded section, item, quiz and question stores `undefined` as its parent id | `new MemStorage()`, then `getQuizQuestions(1)` or `GET /api/courses/1/content` | the parent ids are the ids of the rows just created (course 1, section 1, quizzes 1 and 2), so course 1 lists its sections and quiz 1 its three questions | high; not executed | `Storage.MemStorage.InitializeSampleDataAsWritten` | `Storage.MemStorage.InitializeSampleData` |

- `Storage.SeedAsWrittenOrphans`, `Routes.SeedAsWrittenSubmitIsNaN` and `Routes.SeedAsWrittenContentIsEmpty` exhibit the bug.
  - The seeded store as written has no sections, items, course quizzes or questions under any id.
  - Submitting quiz 1 therefore scores `null`.
- `Storage.SeededAlgebraQuestions`, `Storage.SeededAlgebraSections` and `Routes.SeededAlgebraQuizGrade` prove the intended behaviour of the corrected seed.
