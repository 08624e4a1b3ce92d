/**
 * `MemStorage` of `server/storage.ts`: nine JavaScript `Map` tables and the
 * `nextIds` counters, updated in place by the `create*` methods, the progress
 * upsert and `saveQuizResult`; the getters are filter/sort/slice queries over
 * those tables.
 */
module Storage {
  import opened Wrappers
  import opened Schema
  import opened JsString
  import opened JsArray
  import JsMap
  import SampleData

  /** The `nextIds` object: one auto-increment counter per table. */
  datatype NextIds = NextIds(
    users: int,
    categories: int,
    courses: int,
    contentSections: int,
    contentItems: int,
    quizzes: int,
    quizQuestions: int,
    userProgress: int,
    quizResults: int)

  /**
   * An id-keyed table as the store keeps it: since every insert uses a fresh
   * id from the counter and nothing is deleted, entry `i` holds id `i + 1`
   * and the counter is one past the last id.
   */
  ghost predicate IdTable<T>(t: seq<(int, Row<T>)>, next: int) {
    |t| == next - 1 && forall i | 0 <= i < |t| :: t[i].0 == i + 1 && t[i].1.id == i + 1
  }

  /** The pair a progress record is filed under: `${userId}-${courseId}`. */
  function ProgressOwner(p: InsertUserProgress): (int, int) {
    (p.userId, p.courseId)
  }

  /** The pair a quiz result is filed under: `${userId}-${quizId}`. */
  function ResultOwner(q: InsertQuizResult): (int, int) {
    (q.userId, q.quizId)
  }

  /**
   * A table keyed by `${a}-${b}` of the pair `owner` reads off the record it
   * holds, with distinct keys and distinct ids below the counter.
   */
  ghost predicate KeyedTable<T>(t: seq<(string, Row<T>)>, next: int, owner: T -> (int, int)) {
    && JsMap.UniqueKeys(t)
    && (forall i | 0 <= i < |t| ::
          t[i].0 == PairKey(owner(t[i].1.data).0, owner(t[i].1.data).1) && 1 <= t[i].1.id < next)
    && (forall i, j | 0 <= i < j < |t| :: t[i].1.id != t[j].1.id)
  }

  /**
   * The progress table: an update keeps the id it replaces, so there is one
   * entry per id handed out.
   */
  ghost predicate ProgressTable(t: seq<(string, UserProgress)>, next: int) {
    KeyedTable(t, next, ProgressOwner) && |t| == next - 1
  }

  /**
   * The quiz-result table: a replaced result's id is simply gone, so there
   * may be fewer entries than ids handed out.
   */
  ghost predicate ResultTable(t: seq<(string, QuizResult)>, next: int) {
    KeyedTable(t, next, ResultOwner) && |t| <= next - 1
  }

  /** `get(`${a}-${b}`)` on a keyed table finds the record filed under `(a, b)`, if there is one. */
  lemma {:induction false} KeyedGet<T>(t: seq<(string, Row<T>)>, next: int, owner: T -> (int, int), a: int, b: int)
    requires KeyedTable(t, next, owner)
    ensures var r := JsMap.Get(t, PairKey(a, b));
      && (r.Some? <==> exists i | 0 <= i < |t| :: owner(t[i].1.data) == (a, b))
      && (r.Some? ==> owner(r.value.data) == (a, b) && exists i | 0 <= i < |t| :: t[i].1 == r.value)
  {
    var r := JsMap.Get(t, PairKey(a, b));
    forall i | 0 <= i < |t|
      ensures t[i].0 == PairKey(a, b) <==> owner(t[i].1.data) == (a, b)
    {
      PairKeyInjective(owner(t[i].1.data).0, owner(t[i].1.data).1, a, b);
    }
    if r.Some? {
      var i :| 0 <= i < |t| && t[i].0 == PairKey(a, b);
      JsMap.GetAt(t, i);
    }
  }

  /** Filing `row` under its pair keeps the table keyed, given an id no other entry holds. */
  lemma {:induction false} KeyedSet<T>(t: seq<(string, Row<T>)>, next: int, owner: T -> (int, int), row: Row<T>, next': int)
    requires KeyedTable(t, next, owner)
    requires 1 <= row.id < next' && next <= next'
    requires forall i | 0 <= i < |t| && t[i].0 != PairKey(owner(row.data).0, owner(row.data).1) :: t[i].1.id != row.id
    ensures KeyedTable(JsMap.Set(t, PairKey(owner(row.data).0, owner(row.data).1), row), next', owner)
  {
    var key := PairKey(owner(row.data).0, owner(row.data).1);
    JsMap.SetSpec(t, key, row);
    var k := JsMap.IndexOf(t, key);
    if k < |t| {
      KeyedReplace(t, next, owner, k, row, next');
    } else {
      KeyedAppend(t, next, owner, row, next');
    }
  }

  lemma KeyedReplace<T>(t: seq<(string, Row<T>)>, next: int, owner: T -> (int, int), k: nat, row: Row<T>, next': int)
    requires KeyedTable(t, next, owner) && k < |t|
    requires 1 <= row.id < next' && next <= next'
    requires t[k].0 == PairKey(owner(row.data).0, owner(row.data).1)
    requires forall i | 0 <= i < |t| && i != k :: t[i].1.id != row.id
    ensures KeyedTable(t[k := (t[k].0, row)], next', owner)
  {
  }

  lemma KeyedAppend<T>(t: seq<(string, Row<T>)>, next: int, owner: T -> (int, int), row: Row<T>, next': int)
    requires KeyedTable(t, next, owner)
    requires 1 <= row.id < next' && next <= next'
    requires forall i | 0 <= i < |t| :: t[i].0 != PairKey(owner(row.data).0, owner(row.data).1) && t[i].1.id != row.id
    ensures KeyedTable(t + [(PairKey(owner(row.data).0, owner(row.data).1), row)], next', owner)
  {
  }

  /** After filing `v` under `(a, b)`, `get` of any other pair sees what it saw before. */
  lemma {:induction false} PairSetOther<V>(t: seq<(string, V)>, a: int, b: int, v: V, c: int, d: int)
    requires JsMap.UniqueKeys(t) && (a, b) != (c, d)
    ensures JsMap.Get(JsMap.Set(t, PairKey(a, b), v), PairKey(c, d)) == JsMap.Get(t, PairKey(c, d))
  {
    JsMap.SetSpec(t, PairKey(a, b), v);
    PairKeyInjective(a, b, c, d);
  }

  /** Filing `v` under the pair `(a, b)` answers `v` for that pair, as before for every other, and grows by at most one entry. */
  lemma PairSetQueries<V>(t: seq<(string, V)>, a: int, b: int, v: V)
    requires JsMap.UniqueKeys(t)
    ensures JsMap.Get(JsMap.Set(t, PairKey(a, b), v), PairKey(a, b)) == Some(v)
    ensures forall c, d | (c, d) != (a, b) ::
              JsMap.Get(JsMap.Set(t, PairKey(a, b), v), PairKey(c, d)) == JsMap.Get(t, PairKey(c, d))
    ensures |t| <= |JsMap.Set(t, PairKey(a, b), v)| <= |t| + 1
  {
    JsMap.SetSpec(t, PairKey(a, b), v);
    forall c, d | (c, d) != (a, b)
      ensures JsMap.Get(JsMap.Set(t, PairKey(a, b), v), PairKey(c, d)) == JsMap.Get(t, PairKey(c, d))
    {
      PairSetOther(t, a, b, v, c, d);
    }
  }

  /** `saveQuizResult` on the table: a fresh id filed under its pair keeps the table's invariant. */
  lemma {:induction false} ResultSaved(t: seq<(string, QuizResult)>, next: int, r: QuizResult)
    requires ResultTable(t, next) && r.id == next
    ensures ResultTable(JsMap.Set(t, PairKey(r.data.userId, r.data.quizId), r), next + 1)
  {
    KeyedSet(t, next, ResultOwner, r, next + 1);
    JsMap.SetSpec(t, PairKey(r.data.userId, r.data.quizId), r);
  }

  /**
   * `createOrUpdateUserProgress` on the table: the id already filed under the
   * pair, or else the counter's, keeps the table's invariant.
   */
  lemma {:induction false} ProgressUpserted(t: seq<(string, UserProgress)>, next: int, r: UserProgress)
    requires ProgressTable(t, next)
    requires var key := PairKey(r.data.userId, r.data.courseId);
      if JsMap.Has(t, key) then JsMap.Get(t, key).Some? && r.id == JsMap.Get(t, key).value.id else r.id == next
    ensures var key := PairKey(r.data.userId, r.data.courseId);
      ProgressTable(JsMap.Set(t, key, r), if JsMap.Has(t, key) then next else next + 1)
  {
    var key := PairKey(r.data.userId, r.data.courseId);
    JsMap.SetSpec(t, key, r);
    if JsMap.Has(t, key) {
      var i := JsMap.IndexOf(t, key);
      JsMap.GetAt(t, i);
      KeyedSet(t, next, ProgressOwner, r, next);
    } else {
      KeyedSet(t, next, ProgressOwner, r, next + 1);
    }
  }

  /** The rows `create*` makes of `xs`, one after another, starting at id `first`. */
  function Stamped<T>(first: int, xs: seq<T>): (r: seq<(int, Row<T>)>)
    ensures |r| == |xs|
    ensures forall i | 0 <= i < |xs| :: r[i] == (first + i, Row(first + i, xs[i]))
  {
    seq(|xs|, i requires 0 <= i < |xs| => (first + i, Row(first + i, xs[i])))
  }

  lemma {:induction false} StampedSnoc<T>(first: int, xs: seq<T>, i: nat)
    requires i < |xs|
    ensures Stamped(first, xs[..i + 1]) == Stamped(first, xs[..i]) + [(first + i, Row(first + i, xs[i]))]
  {
  }

  /** In an id table, `get(k)` answers exactly for the ids handed out so far. */
  lemma {:induction false} IdTableGet<T>(t: seq<(int, Row<T>)>, next: int, k: int)
    requires IdTable(t, next)
    ensures JsMap.Get(t, k).Some? <==> 1 <= k < next
    ensures 1 <= k < next ==> JsMap.Get(t, k) == Some(t[k - 1].1)
  {
    if 1 <= k < next {
      JsMap.GetAt(t, k - 1);
    }
  }

  /** The counter's value is never a key yet, so `set` appends and the table stays an id table. */
  lemma {:induction false} IdTableInsert<T>(t: seq<(int, Row<T>)>, next: int, x: T)
    requires IdTable(t, next)
    ensures !JsMap.Has(t, next)
    ensures JsMap.Set(t, next, Row(next, x)) == t + [(next, Row(next, x))]
    ensures IdTable(t + [(next, Row(next, x))], next + 1)
  {
  }

  /** `values()` of an id table run in ascending id order. */
  lemma {:induction false} IdTableValues<T>(t: seq<(int, Row<T>)>, next: int)
    requires IdTable(t, next)
    ensures StrictlyIncreasing(JsMap.Values(t), (x: Row<T>) => x.id)
    ensures forall i | 0 <= i < |t| :: JsMap.Values(t)[i].id == i + 1
  {
  }

  /** Every value of an id table sits at the index its id names. */
  lemma {:induction false} IdTableMember<T>(t: seq<(int, Row<T>)>, next: int, x: Row<T>)
    requires IdTable(t, next)
    requires x in JsMap.Values(t)
    ensures 1 <= x.id <= |t| && x == t[x.id - 1].1
  {
    var vs := JsMap.Values(t);
    var j :| 0 <= j < |vs| && vs[j] == x;
  }

  /** `r` holds exactly the rows of `t` that satisfy `p`, each as stored under its id. */
  ghost predicate Selects<T>(r: seq<Row<T>>, t: seq<(int, Row<T>)>, p: Row<T> -> bool) {
    && (forall i | 0 <= i < |r| :: p(r[i]) && 1 <= r[i].id <= |t| && r[i] == t[r[i].id - 1].1)
    && (forall i | 0 <= i < |t| && p(t[i].1) :: t[i].1 in r)
  }

  /**
   * A filter over an id table returns exactly the rows that satisfy `p`, in
   * ascending id order.
   */
  lemma {:induction false} FilterQuery<T>(t: seq<(int, Row<T>)>, next: int, p: Row<T> -> bool)
    requires IdTable(t, next)
    ensures Selects(Filter(JsMap.Values(t), p), t, p)
    ensures forall i, j | 0 <= i < j < |Filter(JsMap.Values(t), p)| ::
              Filter(JsMap.Values(t), p)[i].id < Filter(JsMap.Values(t), p)[j].id
  {
    var vs := JsMap.Values(t);
    var r := Filter(vs, p);
    IdTableValues(t, next);
    FilterIncreasing(vs, p, (x: Row<T>) => x.id);
    FilterMembers(vs, p);
    forall i | 0 <= i < |r| ensures 1 <= r[i].id <= |t| && r[i] == t[r[i].id - 1].1 {
      IdTableMember(t, next, r[i]);
    }
    forall i | 0 <= i < |t| && p(t[i].1) ensures t[i].1 in r {
      assert vs[i] == t[i].1;
    }
  }

  /** Sorting the rows a filter selected keeps exactly those rows. */
  lemma {:induction false} SortedSelects<T>(f: seq<Row<T>>, t: seq<(int, Row<T>)>, p: Row<T> -> bool, key: Row<T> -> int)
    requires Selects(f, t, p)
    ensures Selects(SortBy(f, key), t, p)
  {
    var r := SortBy(f, key);
    forall i | 0 <= i < |r| ensures p(r[i]) && 1 <= r[i].id <= |t| && r[i] == t[r[i].id - 1].1 {
      SortByMember(f, key, r[i]);
    }
    forall i | 0 <= i < |t| && p(t[i].1) ensures t[i].1 in r {
      SortByMember(f, key, t[i].1);
    }
  }

  /**
   * Rows in ascending id order, sorted stably by `key`, come out by `key` and,
   * among equal keys, by id.
   */
  lemma {:induction false} SortedByKeyThenId<T>(f: seq<Row<T>>, key: Row<T> -> int)
    requires forall i, j | 0 <= i < j < |f| :: f[i].id < f[j].id
    ensures forall i, j | 0 <= i < j < |SortBy(f, key)| ::
              key(SortBy(f, key)[i]) < key(SortBy(f, key)[j])
              || (key(SortBy(f, key)[i]) == key(SortBy(f, key)[j]) && SortBy(f, key)[i].id < SortBy(f, key)[j].id)
  {
    var rank := (x: Row<T>) => x.id;
    assert StrictlyIncreasing(f, rank);
    SortByTiesByRank(f, key, rank);
  }

  /**
   * The child query the getters share: keep the rows of `t` that satisfy `p`,
   * sort them stably by `key`.
   */
  function Children<T>(t: seq<(int, Row<T>)>, next: int, p: Row<T> -> bool, key: Row<T> -> int): (r: seq<Row<T>>)
    requires IdTable(t, next)
    ensures Selects(r, t, p)
    ensures forall i, j | 0 <= i < j < |r| :: key(r[i]) < key(r[j]) || (key(r[i]) == key(r[j]) && r[i].id < r[j].id)
  {
    var f := Filter(JsMap.Values(t), p);
    FilterQuery(t, next, p);
    SortedSelects(f, t, p, key);
    SortedByKeyThenId(f, key);
    SortBy(f, key)
  }

  lemma {:induction false} SortByMember<T>(s: seq<T>, key: T -> int, x: T)
    ensures x in SortBy(s, key) <==> x in s
  {
    assert x in SortBy(s, key) <==> x in multiset(SortBy(s, key));
  }

  /** `find` over an id table returns the lowest-id row that satisfies `p`, if any. */
  lemma {:induction false} FindQuery<T>(t: seq<(int, Row<T>)>, next: int, p: Row<T> -> bool)
    requires IdTable(t, next)
    ensures var r := Find(JsMap.Values(t), p);
      && (r.Some? <==> exists i | 0 <= i < |t| :: p(t[i].1))
      && (r.Some? ==> p(r.value) && 1 <= r.value.id <= |t| && r.value == t[r.value.id - 1].1)
      && (r.Some? ==> forall i | 0 <= i < |t| && p(t[i].1) :: r.value.id <= t[i].1.id)
  {
    var vs := JsMap.Values(t);
    IdTableValues(t, next);
    assert forall i | 0 <= i < |t| :: vs[i] == t[i].1;
  }

  lemma {:induction false} StampedConcat<T>(first: int, xs: seq<T>, ys: seq<T>)
    ensures Stamped(first, xs + ys) == Stamped(first, xs) + Stamped(first + |xs|, ys)
  {
  }

  lemma {:induction false} StampedPair<T>(a: T, b: T)
    ensures Stamped(1, [a, b]) == [(1, Row(1, a)), (2, Row(2, b))]
  {
  }

  /** What `xs.map(x => this.createX(x).id)` would give if `createX` returned the row: the ids drawn. */
  function CreatedIds(first: int, n: nat): (r: seq<Ref>)
    ensures |r| == n && forall i | 0 <= i < n :: r[i] == Id(first + i)
  {
    seq(n, i requires 0 <= i < n => Id(first + i))
  }

  /**
   * What `xs.map(x => this.createX(x).id)` gives as written: `createX` is
   * `async`, so each element is the `id` of a Promise, which is `undefined`.
   */
  function PromiseIds(n: nat): (r: seq<Ref>)
    ensures |r| == n && forall i | 0 <= i < n :: r[i] == Undefined
  {
    seq(n, _ => Undefined)
  }

  /** The `filter` and `sort` callbacks of the child queries. */
  function SectionOfCourse(courseId: int): ContentSection -> bool {
    (s: ContentSection) => s.data.courseId == Id(courseId)
  }

  function SectionOrder(s: ContentSection): int {
    s.data.order
  }

  function ItemOfSection(sectionId: int): ContentItem -> bool {
    (s: ContentItem) => s.data.sectionId == Id(sectionId)
  }

  function ItemOrder(s: ContentItem): int {
    s.data.order
  }

  function QuestionOfQuiz(quizId: int): QuizQuestion -> bool {
    (q: QuizQuestion) => q.data.quizId == Id(quizId)
  }

  function QuestionOrder(q: QuizQuestion): int {
    q.data.order
  }

  lemma {:induction false} StampedValuesSplit<T>(a: seq<T>, b: seq<T>)
    ensures JsMap.Values(Stamped(1, a + b)) == JsMap.Values(Stamped(1, a)) + JsMap.Values(Stamped(1 + |a|, b))
  {
    var vs := JsMap.Values(Stamped(1, a + b));
    var front := JsMap.Values(Stamped(1, a));
    var back := JsMap.Values(Stamped(1 + |a|, b));
    assert forall i | 0 <= i < |a| :: vs[i] == front[i];
    assert forall i | 0 <= i < |b| :: vs[|a| + i] == back[i];
  }

  lemma {:induction false} FilterStampedAll<T>(first: int, xs: seq<T>, p: Row<T> -> bool)
    requires forall i | 0 <= i < |xs| :: p(Row(first + i, xs[i]))
    ensures Filter(JsMap.Values(Stamped(first, xs)), p) == JsMap.Values(Stamped(first, xs))
  {
    var vs := JsMap.Values(Stamped(first, xs));
    assert forall i | 0 <= i < |vs| :: vs[i] == Row(first + i, xs[i]);
    FilterAll(vs, p);
  }

  lemma {:induction false} FilterStampedNone<T>(first: int, xs: seq<T>, p: Row<T> -> bool)
    requires forall i | 0 <= i < |xs| :: !p(Row(first + i, xs[i]))
    ensures Filter(JsMap.Values(Stamped(first, xs)), p) == []
  {
    var vs := JsMap.Values(Stamped(first, xs));
    assert forall i | 0 <= i < |vs| :: vs[i] == Row(first + i, xs[i]);
    FilterNone(vs, p);
  }

  lemma {:induction false} SortStampedSorted<T>(first: int, xs: seq<T>, key: Row<T> -> int)
    requires forall i, j | 0 <= i < j < |xs| :: key(Row(first + i, xs[i])) <= key(Row(first + j, xs[j]))
    ensures SortBy(JsMap.Values(Stamped(first, xs)), key) == JsMap.Values(Stamped(first, xs))
  {
    var vs := JsMap.Values(Stamped(first, xs));
    assert forall i | 0 <= i < |vs| :: vs[i] == Row(first + i, xs[i]);
    assert SortedBy(vs, key);
    SortBySorted(vs, key);
  }

  lemma {:induction false} FilterFrontBlock<T>(a: seq<T>, b: seq<T>, p: Row<T> -> bool)
    requires forall i | 0 <= i < |a| :: p(Row(1 + i, a[i]))
    requires forall i | 0 <= i < |b| :: !p(Row(1 + |a| + i, b[i]))
    ensures Filter(JsMap.Values(Stamped(1, a)) + JsMap.Values(Stamped(1 + |a|, b)), p) == JsMap.Values(Stamped(1, a))
  {
    var front := JsMap.Values(Stamped(1, a));
    var back := JsMap.Values(Stamped(1 + |a|, b));
    FilterStampedAll(1, a, p);
    FilterStampedNone(1 + |a|, b, p);
    FilterConcat(front, back, p);
    assert front + [] == front;
  }

  lemma {:induction false} FilterBackBlock<T>(a: seq<T>, b: seq<T>, first: int, p: Row<T> -> bool)
    requires forall i | 0 <= i < |a| :: !p(Row(1 + i, a[i]))
    requires forall i | 0 <= i < |b| :: p(Row(first + i, b[i]))
    ensures Filter(JsMap.Values(Stamped(1, a)) + JsMap.Values(Stamped(first, b)), p) == JsMap.Values(Stamped(first, b))
  {
    var front := JsMap.Values(Stamped(1, a));
    var back := JsMap.Values(Stamped(first, b));
    FilterStampedNone(1, a, p);
    FilterStampedAll(first, b, p);
    FilterConcat(front, back, p);
    assert [] + back == back;
  }

  /**
   * A child query over a table whose first block of rows all belong to the
   * parent, already in `key` order, and whose remaining rows do not, returns
   * that first block.
   */
  lemma {:induction false} ChildrenOfFront<T>(a: seq<T>, b: seq<T>, p: Row<T> -> bool, key: Row<T> -> int)
    requires forall i | 0 <= i < |a| :: p(Row(1 + i, a[i]))
    requires forall i | 0 <= i < |b| :: !p(Row(1 + |a| + i, b[i]))
    requires forall i, j | 0 <= i < j < |a| :: key(Row(1 + i, a[i])) <= key(Row(1 + j, a[j]))
    ensures SortBy(Filter(JsMap.Values(Stamped(1, a + b)), p), key) == JsMap.Values(Stamped(1, a))
  {
    var front := JsMap.Values(Stamped(1, a));
    var back := JsMap.Values(Stamped(1 + |a|, b));
    assert JsMap.Values(Stamped(1, a + b)) == front + back by {
      StampedValuesSplit(a, b);
    }
    assert Filter(front + back, p) == front by {
      FilterFrontBlock(a, b, p);
    }
    assert SortBy(front, key) == front by {
      SortStampedSorted(1, a, key);
    }
  }

  /** The same, where the last block of rows is the one that belongs to the parent. */
  lemma {:induction false} ChildrenOfBack<T>(a: seq<T>, b: seq<T>, first: int, p: Row<T> -> bool, key: Row<T> -> int)
    requires first == 1 + |a|
    requires forall i | 0 <= i < |a| :: !p(Row(1 + i, a[i]))
    requires forall i | 0 <= i < |b| :: p(Row(first + i, b[i]))
    requires forall i, j | 0 <= i < j < |b| :: key(Row(first + i, b[i])) <= key(Row(first + j, b[j]))
    ensures SortBy(Filter(JsMap.Values(Stamped(1, a + b)), p), key) == JsMap.Values(Stamped(first, b))
  {
    var front := JsMap.Values(Stamped(1, a));
    var back := JsMap.Values(Stamped(first, b));
    assert JsMap.Values(Stamped(1, a + b)) == front + back by {
      StampedValuesSplit(a, b);
    }
    assert Filter(front + back, p) == back by {
      FilterBackBlock(a, b, first, p);
    }
    assert SortBy(back, key) == back by {
      SortStampedSorted(first, b, key);
    }
  }

  class MemStorage {
    var users: seq<(int, User)>
    var categories: seq<(int, Category)>
    var courses: seq<(int, Course)>
    var contentSections: seq<(int, ContentSection)>
    var contentItems: seq<(int, ContentItem)>
    var quizzes: seq<(int, Quiz)>
    var quizQuestions: seq<(int, QuizQuestion)>
    var userProgress: seq<(string, UserProgress)>
    var quizResults: seq<(string, QuizResult)>
    var nextIds: NextIds

    ghost predicate Valid()
      reads this
    {
      && IdTable(users, nextIds.users)
      && IdTable(categories, nextIds.categories)
      && IdTable(courses, nextIds.courses)
      && IdTable(contentSections, nextIds.contentSections)
      && IdTable(contentItems, nextIds.contentItems)
      && IdTable(quizzes, nextIds.quizzes)
      && IdTable(quizQuestions, nextIds.quizQuestions)
      && ProgressTable(userProgress, nextIds.userProgress)
      && ResultTable(quizResults, nextIds.quizResults)
    }

    ghost predicate Empty()
      reads this
    {
      && users == [] && categories == [] && courses == [] && contentSections == []
      && contentItems == [] && quizzes == [] && quizQuestions == []
      && userProgress == [] && quizResults == []
      && nextIds == NextIds(1, 1, 1, 1, 1, 1, 1, 1, 1)
    }

    // ---------------------------------------------------------------- users

    /** `getUser(id)` */
    function GetUser(id: int): (r: Option<User>)
      reads this
      requires Valid()
      ensures r.Some? <==> 1 <= id < nextIds.users
      ensures r.Some? ==> r.value.id == id && r.value == users[id - 1].1
    {
      IdTableGet(users, nextIds.users, id);
      JsMap.Get(users, id)
    }

    /** `getUserByUsername(username)`: the earliest-created user with that name. */
    function GetUserByUsername(username: string): (r: Option<User>)
      reads this
      requires Valid()
      ensures r.Some? <==> exists i | 0 <= i < |users| :: users[i].1.data.username == username
      ensures r.Some? ==> r.value.data.username == username
                          && 1 <= r.value.id <= |users| && r.value == users[r.value.id - 1].1
      ensures r.Some? ==> forall i | 0 <= i < |users| && users[i].1.data.username == username ::
                            r.value.id <= users[i].1.id
    {
      var p := (u: User) => u.data.username == username;
      FindQuery(users, nextIds.users, p);
      Find(JsMap.Values(users), p)
    }

    /** `createUser(user)`: no uniqueness check on the user name. */
    method CreateUser(u: InsertUser) returns (r: User)
      requires Valid()
      modifies this`users, this`nextIds
      ensures Valid()
      ensures r == Row(old(nextIds.users), u)
      ensures users == old(users) + [(r.id, r)]
      ensures nextIds == old(nextIds).(users := old(nextIds.users) + 1)
    {
      var id := nextIds.users;
      nextIds := nextIds.(users := id + 1);
      r := Row(id, u);
      IdTableInsert(users, id, u);
      users := JsMap.Set(users, id, r);
    }

    // ----------------------------------------------------------- categories

    /** `getCategories()`: every category in creation order. */
    function GetCategories(): (r: seq<Category>)
      reads this
      requires Valid()
      ensures |r| == nextIds.categories - 1
      ensures forall i | 0 <= i < |r| :: r[i].id == i + 1 && r[i] == categories[i].1
    {
      JsMap.Values(categories)
    }

    /** `getCategoryById(id)` */
    function GetCategoryById(id: int): (r: Option<Category>)
      reads this
      requires Valid()
      ensures r.Some? <==> 1 <= id < nextIds.categories
      ensures r.Some? ==> r.value.id == id && r.value == categories[id - 1].1
    {
      IdTableGet(categories, nextIds.categories, id);
      JsMap.Get(categories, id)
    }

    /** `createCategory(category)` */
    method CreateCategory(c: InsertCategory) returns (r: Category)
      requires Valid()
      modifies this`categories, this`nextIds
      ensures Valid()
      ensures r == Row(old(nextIds.categories), c)
      ensures categories == old(categories) + [(r.id, r)]
      ensures nextIds == old(nextIds).(categories := old(nextIds.categories) + 1)
    {
      var id := nextIds.categories;
      nextIds := nextIds.(categories := id + 1);
      r := Row(id, c);
      IdTableInsert(categories, id, c);
      categories := JsMap.Set(categories, id, r);
    }

    // -------------------------------------------------------------- courses

    /** `getCourses()`: every course in creation order. */
    function GetCourses(): (r: seq<Course>)
      reads this
      requires Valid()
      ensures |r| == nextIds.courses - 1
      ensures forall i | 0 <= i < |r| :: r[i].id == i + 1 && r[i] == courses[i].1
    {
      JsMap.Values(courses)
    }

    /** `getCourseById(id)` */
    function GetCourseById(id: int): (r: Option<Course>)
      reads this
      requires Valid()
      ensures r.Some? <==> 1 <= id < nextIds.courses
      ensures r.Some? ==> r.value.id == id && r.value == courses[id - 1].1
    {
      IdTableGet(courses, nextIds.courses, id);
      JsMap.Get(courses, id)
    }

    /**
     * `getFeaturedCourses(limit = 3)`: `slice(0, limit)` of the courses, so
     * the first `limit` in creation order; a negative limit drops that many
     * from the end.
     */
    function GetFeaturedCourses(limit: int := 3): (r: seq<Course>)
      reads this
      requires Valid()
      ensures limit >= 0 ==> |r| == (if limit < |courses| then limit else |courses|)
      ensures limit < 0 ==> |r| == (if |courses| + limit > 0 then |courses| + limit else 0)
      ensures forall i | 0 <= i < |r| :: r[i].id == i + 1 && r[i] == courses[i].1
    {
      SliceTo(GetCourses(), limit)
    }

    /** `createCourse(course)`: the category id is not checked. */
    method CreateCourse(c: InsertCourse) returns (r: Course)
      requires Valid()
      modifies this`courses, this`nextIds
      ensures Valid()
      ensures r == Row(old(nextIds.courses), c)
      ensures courses == old(courses) + [(r.id, r)]
      ensures nextIds == old(nextIds).(courses := old(nextIds.courses) + 1)
    {
      var id := nextIds.courses;
      nextIds := nextIds.(courses := id + 1);
      r := Row(id, c);
      IdTableInsert(courses, id, c);
      courses := JsMap.Set(courses, id, r);
    }

    // -------------------------------------------------------------- content

    /**
     * `getContentSections(courseId)`: exactly the sections of that course,
     * ascending by `order`, ties in creation order.
     */
    function GetContentSections(courseId: int): (r: seq<ContentSection>)
      reads this
      requires Valid()
      ensures forall i | 0 <= i < |r| :: r[i].data.courseId == Id(courseId) && 1 <= r[i].id <= |contentSections| && r[i] == contentSections[r[i].id - 1].1
      ensures forall i | 0 <= i < |contentSections| && contentSections[i].1.data.courseId == Id(courseId) ::
                contentSections[i].1 in r
      ensures forall i, j | 0 <= i < j < |r| ::
                r[i].data.order < r[j].data.order
                || (r[i].data.order == r[j].data.order && r[i].id < r[j].id)
    {
      Children(contentSections, nextIds.contentSections, SectionOfCourse(courseId), SectionOrder)
    }

    /**
     * `getContentItems(sectionId)`: exactly the items of that section,
     * ascending by `order`, ties in creation order.
     */
    function GetContentItems(sectionId: int): (r: seq<ContentItem>)
      reads this
      requires Valid()
      ensures forall i | 0 <= i < |r| :: r[i].data.sectionId == Id(sectionId) && 1 <= r[i].id <= |contentItems| && r[i] == contentItems[r[i].id - 1].1
      ensures forall i | 0 <= i < |contentItems| && contentItems[i].1.data.sectionId == Id(sectionId) ::
                contentItems[i].1 in r
      ensures forall i, j | 0 <= i < j < |r| ::
                r[i].data.order < r[j].data.order
                || (r[i].data.order == r[j].data.order && r[i].id < r[j].id)
    {
      Children(contentItems, nextIds.contentItems, ItemOfSection(sectionId), ItemOrder)
    }

    /** `createContentSection(section)`: the course id is not checked. */
    method CreateContentSection(s: InsertContentSection) returns (r: ContentSection)
      requires Valid()
      modifies this`contentSections, this`nextIds
      ensures Valid()
      ensures r == Row(old(nextIds.contentSections), s)
      ensures contentSections == old(contentSections) + [(r.id, r)]
      ensures nextIds == old(nextIds).(contentSections := old(nextIds.contentSections) + 1)
    {
      var id := nextIds.contentSections;
      nextIds := nextIds.(contentSections := id + 1);
      r := Row(id, s);
      IdTableInsert(contentSections, id, s);
      contentSections := JsMap.Set(contentSections, id, r);
    }

    /** `createContentItem(item)`: the section id is not checked. */
    method CreateContentItem(s: InsertContentItem) returns (r: ContentItem)
      requires Valid()
      modifies this`contentItems, this`nextIds
      ensures Valid()
      ensures r == Row(old(nextIds.contentItems), s)
      ensures contentItems == old(contentItems) + [(r.id, r)]
      ensures nextIds == old(nextIds).(contentItems := old(nextIds.contentItems) + 1)
    {
      var id := nextIds.contentItems;
      nextIds := nextIds.(contentItems := id + 1);
      r := Row(id, s);
      IdTableInsert(contentItems, id, s);
      contentItems := JsMap.Set(contentItems, id, r);
    }

    // -------------------------------------------------------------- quizzes

    /** `getQuizzesByCourseId(courseId)`: that course's quizzes in creation order, unsorted. */
    function GetQuizzesByCourseId(courseId: int): (r: seq<Quiz>)
      reads this
      requires Valid()
      ensures forall i | 0 <= i < |r| :: r[i].data.courseId == Id(courseId) && 1 <= r[i].id <= |quizzes| && r[i] == quizzes[r[i].id - 1].1
      ensures forall i | 0 <= i < |quizzes| && quizzes[i].1.data.courseId == Id(courseId) :: quizzes[i].1 in r
      ensures forall i, j | 0 <= i < j < |r| :: r[i].id < r[j].id
    {
      var p := (q: Quiz) => q.data.courseId == Id(courseId);
      FilterQuery(quizzes, nextIds.quizzes, p);
      Filter(JsMap.Values(quizzes), p)
    }

    /** `getQuizById(id)` */
    function GetQuizById(id: int): (r: Option<Quiz>)
      reads this
      requires Valid()
      ensures r.Some? <==> 1 <= id < nextIds.quizzes
      ensures r.Some? ==> r.value.id == id && r.value == quizzes[id - 1].1
    {
      IdTableGet(quizzes, nextIds.quizzes, id);
      JsMap.Get(quizzes, id)
    }

    /**
     * `getQuizQuestions(quizId)`: exactly the questions of that quiz,
     * ascending by `order`, ties in creation order.
     */
    function GetQuizQuestions(quizId: int): (r: seq<QuizQuestion>)
      reads this
      requires Valid()
      ensures forall i | 0 <= i < |r| :: r[i].data.quizId == Id(quizId) && 1 <= r[i].id <= |quizQuestions| && r[i] == quizQuestions[r[i].id - 1].1
      ensures forall i | 0 <= i < |quizQuestions| && quizQuestions[i].1.data.quizId == Id(quizId) ::
                quizQuestions[i].1 in r
      ensures forall i, j | 0 <= i < j < |r| ::
                r[i].data.order < r[j].data.order
                || (r[i].data.order == r[j].data.order && r[i].id < r[j].id)
    {
      Children(quizQuestions, nextIds.quizQuestions, QuestionOfQuiz(quizId), QuestionOrder)
    }

    /** `createQuiz(quiz)`: the course id is not checked. */
    method CreateQuiz(q: InsertQuiz) returns (r: Quiz)
      requires Valid()
      modifies this`quizzes, this`nextIds
      ensures Valid()
      ensures r == Row(old(nextIds.quizzes), q)
      ensures quizzes == old(quizzes) + [(r.id, r)]
      ensures nextIds == old(nextIds).(quizzes := old(nextIds.quizzes) + 1)
    {
      var id := nextIds.quizzes;
      nextIds := nextIds.(quizzes := id + 1);
      r := Row(id, q);
      IdTableInsert(quizzes, id, q);
      quizzes := JsMap.Set(quizzes, id, r);
    }

    /** `createQuizQuestion(question)`: neither the quiz id nor `correctAnswerId` is checked. */
    method CreateQuizQuestion(q: InsertQuizQuestion) returns (r: QuizQuestion)
      requires Valid()
      modifies this`quizQuestions, this`nextIds
      ensures Valid()
      ensures r == Row(old(nextIds.quizQuestions), q)
      ensures quizQuestions == old(quizQuestions) + [(r.id, r)]
      ensures nextIds == old(nextIds).(quizQuestions := old(nextIds.quizQuestions) + 1)
    {
      var id := nextIds.quizQuestions;
      nextIds := nextIds.(quizQuestions := id + 1);
      r := Row(id, q);
      IdTableInsert(quizQuestions, id, q);
      quizQuestions := JsMap.Set(quizQuestions, id, r);
    }

    // ------------------------------------------------------------- progress

    /** `getUserProgress(userId, courseId)`: the record filed under `${userId}-${courseId}`. */
    function GetUserProgress(userId: int, courseId: int): (r: Option<UserProgress>)
      reads this
      requires Valid()
      ensures r.Some? <==> exists i | 0 <= i < |userProgress| ::
                userProgress[i].1.data.userId == userId && userProgress[i].1.data.courseId == courseId
      ensures r.Some? ==> r.value.data.userId == userId && r.value.data.courseId == courseId
                          && exists i | 0 <= i < |userProgress| :: userProgress[i].1 == r.value
    {
      KeyedGet(userProgress, nextIds.userProgress, ProgressOwner, userId, courseId);
      JsMap.Get(userProgress, PairKey(userId, courseId))
    }

    /**
     * `createOrUpdateUserProgress(progress)`: an upsert on `${userId}-${courseId}`
     * that keeps the id of the record it replaces and draws a fresh id only for
     * a new pair; every other pair's record stays as it was.
     */
    method CreateOrUpdateUserProgress(p: InsertUserProgress) returns (r: UserProgress)
      requires Valid()
      modifies this`userProgress, this`nextIds
      ensures Valid()
      ensures r.data == p
      ensures old(GetUserProgress(p.userId, p.courseId)).Some? ==>
                r.id == old(GetUserProgress(p.userId, p.courseId)).value.id && nextIds == old(nextIds)
      ensures old(GetUserProgress(p.userId, p.courseId)).None? ==>
                r.id == old(nextIds.userProgress) && nextIds == old(nextIds).(userProgress := r.id + 1)
      ensures userProgress == JsMap.Set(old(userProgress), PairKey(p.userId, p.courseId), r)
      ensures |old(userProgress)| <= |userProgress| <= |old(userProgress)| + 1
      ensures GetUserProgress(p.userId, p.courseId) == Some(r)
      ensures forall u, c | (u, c) != (p.userId, p.courseId) :: GetUserProgress(u, c) == old(GetUserProgress(u, c))
    {
      var key := PairKey(p.userId, p.courseId);
      var found := JsMap.Has(userProgress, key);
      var id := if found then JsMap.Get(userProgress, key).value.id else nextIds.userProgress;
      r := Row(id, p);
      ghost var before := userProgress;
      var t := JsMap.Set(userProgress, key, r);
      assert ProgressTable(t, if found then nextIds.userProgress else id + 1) && |before| <= |t| <= |before| + 1 by {
        ProgressUpserted(before, nextIds.userProgress, r);
        PairSetQueries(before, p.userId, p.courseId, r);
      }
      userProgress := t;
      if !found {
        nextIds := nextIds.(userProgress := id + 1);
      }
      assert Valid();
      assert GetUserProgress(p.userId, p.courseId) == Some(r) by {
        PairSetQueries(before, p.userId, p.courseId, r);
      }
      forall u, c | (u, c) != (p.userId, p.courseId)
        ensures GetUserProgress(u, c) == old(GetUserProgress(u, c))
      {
        PairSetOther(before, p.userId, p.courseId, r, u, c);
      }
    }

    // ---------------------------------------------------------- quiz results

    /** `getQuizResult(userId, quizId)`: the result filed under `${userId}-${quizId}`. */
    function GetQuizResult(userId: int, quizId: int): (r: Option<QuizResult>)
      reads this
      requires Valid()
      ensures r.Some? <==> exists i | 0 <= i < |quizResults| ::
                quizResults[i].1.data.userId == userId && quizResults[i].1.data.quizId == quizId
      ensures r.Some? ==> r.value.data.userId == userId && r.value.data.quizId == quizId
                          && exists i | 0 <= i < |quizResults| :: quizResults[i].1 == r.value
    {
      KeyedGet(quizResults, nextIds.quizResults, ResultOwner, userId, quizId);
      JsMap.Get(quizResults, PairKey(userId, quizId))
    }

    /**
     * `saveQuizResult(result)`: always a fresh id, filed under
     * `${userId}-${quizId}`, replacing any earlier result for that pair;
     * every other pair's result stays as it was.
     */
    method SaveQuizResult(q: InsertQuizResult) returns (r: QuizResult)
      requires Valid()
      modifies this`quizResults, this`nextIds
      ensures Valid()
      ensures r == Row(old(nextIds.quizResults), q)
      ensures nextIds == old(nextIds).(quizResults := r.id + 1)
      ensures quizResults == JsMap.Set(old(quizResults), PairKey(q.userId, q.quizId), r)
      ensures |old(quizResults)| <= |quizResults| <= |old(quizResults)| + 1
      ensures GetQuizResult(q.userId, q.quizId) == Some(r)
      ensures forall u, z | (u, z) != (q.userId, q.quizId) :: GetQuizResult(u, z) == old(GetQuizResult(u, z))
    {
      var id := nextIds.quizResults;
      r := Row(id, q);
      ghost var before := quizResults;
      var t := JsMap.Set(quizResults, PairKey(q.userId, q.quizId), r);
      assert ResultTable(t, id + 1) && |before| <= |t| <= |before| + 1 by {
        ResultSaved(before, id, r);
        PairSetQueries(before, q.userId, q.quizId, r);
      }
      quizResults, nextIds := t, nextIds.(quizResults := id + 1);
      assert Valid();
      assert GetQuizResult(q.userId, q.quizId) == Some(r) by {
        PairSetQueries(before, q.userId, q.quizId, r);
      }
      forall u, z | (u, z) != (q.userId, q.quizId)
        ensures GetQuizResult(u, z) == old(GetQuizResult(u, z))
      {
        PairSetOther(before, q.userId, q.quizId, r, u, z);
      }
    }

    // -------------------------------------------------------------- seeding

    /** The bulk inserts `initializeSampleData` makes with `forEach` and `map`. */
    method CreateCategories(xs: seq<InsertCategory>)
      requires Valid()
      modifies this`categories, this`nextIds
      ensures Valid()
      ensures categories == old(categories) + Stamped(old(nextIds.categories), xs)
      ensures nextIds == old(nextIds).(categories := old(nextIds.categories) + |xs|)
    {
      for i := 0 to |xs|
        invariant Valid()
        invariant categories == old(categories) + Stamped(old(nextIds.categories), xs[..i])
        invariant nextIds == old(nextIds).(categories := old(nextIds.categories) + i)
      {
        var _ := CreateCategory(xs[i]);
        StampedSnoc(old(nextIds.categories), xs, i);
      }
      assert xs[..|xs|] == xs;
    }

    method CreateCourses(xs: seq<InsertCourse>) returns (ids: seq<int>)
      requires Valid()
      modifies this`courses, this`nextIds
      ensures Valid()
      ensures courses == old(courses) + Stamped(old(nextIds.courses), xs)
      ensures nextIds == old(nextIds).(courses := old(nextIds.courses) + |xs|)
      ensures |ids| == |xs| && forall i | 0 <= i < |xs| :: ids[i] == old(nextIds.courses) + i
    {
      ids := [];
      for i := 0 to |xs|
        invariant Valid()
        invariant courses == old(courses) + Stamped(old(nextIds.courses), xs[..i])
        invariant nextIds == old(nextIds).(courses := old(nextIds.courses) + i)
        invariant |ids| == i && forall k | 0 <= k < i :: ids[k] == old(nextIds.courses) + k
      {
        var c := CreateCourse(xs[i]);
        StampedSnoc(old(nextIds.courses), xs, i);
        ids := ids + [c.id];
      }
      assert xs[..|xs|] == xs;
    }

    method CreateContentSections(xs: seq<InsertContentSection>) returns (ids: seq<int>)
      requires Valid()
      modifies this`contentSections, this`nextIds
      ensures Valid()
      ensures contentSections == old(contentSections) + Stamped(old(nextIds.contentSections), xs)
      ensures nextIds == old(nextIds).(contentSections := old(nextIds.contentSections) + |xs|)
      ensures |ids| == |xs| && forall i | 0 <= i < |xs| :: ids[i] == old(nextIds.contentSections) + i
    {
      ids := [];
      for i := 0 to |xs|
        invariant Valid()
        invariant contentSections == old(contentSections) + Stamped(old(nextIds.contentSections), xs[..i])
        invariant nextIds == old(nextIds).(contentSections := old(nextIds.contentSections) + i)
        invariant |ids| == i && forall k | 0 <= k < i :: ids[k] == old(nextIds.contentSections) + k
      {
        var c := CreateContentSection(xs[i]);
        StampedSnoc(old(nextIds.contentSections), xs, i);
        ids := ids + [c.id];
      }
      assert xs[..|xs|] == xs;
    }

    method CreateContentItems(xs: seq<InsertContentItem>)
      requires Valid()
      modifies this`contentItems, this`nextIds
      ensures Valid()
      ensures contentItems == old(contentItems) + Stamped(old(nextIds.contentItems), xs)
      ensures nextIds == old(nextIds).(contentItems := old(nextIds.contentItems) + |xs|)
    {
      for i := 0 to |xs|
        invariant Valid()
        invariant contentItems == old(contentItems) + Stamped(old(nextIds.contentItems), xs[..i])
        invariant nextIds == old(nextIds).(contentItems := old(nextIds.contentItems) + i)
      {
        var _ := CreateContentItem(xs[i]);
        StampedSnoc(old(nextIds.contentItems), xs, i);
      }
      assert xs[..|xs|] == xs;
    }

    method CreateQuizQuestions(xs: seq<InsertQuizQuestion>)
      requires Valid()
      modifies this`quizQuestions, this`nextIds
      ensures Valid()
      ensures quizQuestions == old(quizQuestions) + Stamped(old(nextIds.quizQuestions), xs)
      ensures nextIds == old(nextIds).(quizQuestions := old(nextIds.quizQuestions) + |xs|)
    {
      for i := 0 to |xs|
        invariant Valid()
        invariant quizQuestions == old(quizQuestions) + Stamped(old(nextIds.quizQuestions), xs[..i])
        invariant nextIds == old(nextIds).(quizQuestions := old(nextIds.quizQuestions) + i)
      {
        var _ := CreateQuizQuestion(xs[i]);
        StampedSnoc(old(nextIds.quizQuestions), xs, i);
      }
      assert xs[..|xs|] == xs;
    }

    /**
     * The store after `initializeSampleData` fed the records `r`, given the
     * parent references the seeding code put into the sections, items,
     * quizzes and questions.
     */
    ghost predicate SeededWith(r: SampleData.Records, courseIds: seq<Ref>, sectionIds: seq<Ref>, algebraQuizId: Ref, biologyQuizId: Ref)
      reads this
      requires |courseIds| == 5 && |sectionIds| == 2
    {
      && users == []
      && categories == Stamped(1, r.categories)
      && courses == Stamped(1, r.courses)
      && contentSections == Stamped(1, SampleData.AlgebraSections(r, courseIds))
      && contentItems == Stamped(1, SampleData.LinearEquationsItems(r, sectionIds))
      && quizzes == Stamped(1, [SampleData.AlgebraQuiz(r, courseIds), SampleData.BiologyQuiz(r, courseIds)])
      && quizQuestions == Stamped(1, SampleData.AlgebraQuizQuestions(r, algebraQuizId)
                                     + SampleData.BiologyQuizQuestions(r, biologyQuizId))
      && userProgress == []
      && quizResults == []
      && nextIds == NextIds(1, 6, 6, 3, 4, 3, 6, 1, 1)
    }

    /** The categories and courses of the seed, which reference nothing created earlier. */
    method SeedCatalog(r: SampleData.Records) returns (courseIds: seq<int>)
      requires Valid() && categories == [] && courses == [] && SampleData.Shaped(r)
      modifies this`categories, this`courses, this`nextIds
      ensures Valid()
      ensures categories == Stamped(1, r.categories)
      ensures courses == Stamped(1, r.courses)
      ensures nextIds == old(nextIds).(categories := 6, courses := 6)
      ensures courseIds == [1, 2, 3, 4, 5]
    {
      CreateCategories(r.categories);
      courseIds := CreateCourses(r.courses);
    }

    /** The Algebra sections and the items of its first section, under the given parents. */
    method SeedContent(r: SampleData.Records, courseRefs: seq<Ref>, sectionRefsRead: bool) returns (sectionRefs: seq<Ref>)
      requires Valid() && contentSections == [] && contentItems == [] && |courseRefs| == 5 && SampleData.Shaped(r)
      modifies this`contentSections, this`contentItems, this`nextIds
      ensures Valid()
      ensures sectionRefs == if sectionRefsRead then CreatedIds(1, 2) else PromiseIds(2)
      ensures contentSections == Stamped(1, SampleData.AlgebraSections(r, courseRefs))
      ensures contentItems == Stamped(1, SampleData.LinearEquationsItems(r, sectionRefs))
      ensures nextIds == old(nextIds).(contentSections := 3, contentItems := 4)
    {
      var sectionIds := CreateContentSections(SampleData.AlgebraSections(r, courseRefs));
      sectionRefs := if sectionRefsRead then CreatedIds(sectionIds[0], 2) else PromiseIds(2);
      CreateContentItems(SampleData.LinearEquationsItems(r, sectionRefs));
    }

    /** The two quizzes, each followed by its questions, filed under the given quiz references. */
    method SeedQuizzes(r: SampleData.Records, courseRefs: seq<Ref>, quizIdsRead: bool) returns (algebraQuizId: Ref, biologyQuizId: Ref)
      requires Valid() && quizzes == [] && quizQuestions == [] && |courseRefs| == 5 && SampleData.Shaped(r)
      modifies this`quizzes, this`quizQuestions, this`nextIds
      ensures Valid()
      ensures algebraQuizId == (if quizIdsRead then Id(1) else Undefined)
      ensures biologyQuizId == (if quizIdsRead then Id(2) else Undefined)
      ensures quizzes == Stamped(1, [SampleData.AlgebraQuiz(r, courseRefs), SampleData.BiologyQuiz(r, courseRefs)])
      ensures quizQuestions == Stamped(1, SampleData.AlgebraQuizQuestions(r, algebraQuizId)
                                          + SampleData.BiologyQuizQuestions(r, biologyQuizId))
      ensures nextIds == old(nextIds).(quizzes := 3, quizQuestions := 6)
    {
      var quiz := CreateQuiz(SampleData.AlgebraQuiz(r, courseRefs));
      algebraQuizId := if quizIdsRead then Id(quiz.id) else Undefined;
      CreateQuizQuestions(SampleData.AlgebraQuizQuestions(r, algebraQuizId));
      var bioQuiz := CreateQuiz(SampleData.BiologyQuiz(r, courseRefs));
      biologyQuizId := if quizIdsRead then Id(bioQuiz.id) else Undefined;
      CreateQuizQuestions(SampleData.BiologyQuizQuestions(r, biologyQuizId));
      StampedPair(SampleData.AlgebraQuiz(r, courseRefs), SampleData.BiologyQuiz(r, courseRefs));
      StampedConcat(1, SampleData.AlgebraQuizQuestions(r, algebraQuizId), SampleData.BiologyQuizQuestions(r, biologyQuizId));
    }

    /**
     * The body of `initializeSampleData()` over the records `r`. With
     * `idsRead` the parent ids are read off the created rows, as evidently
     * intended: the sections and quiz belong to course 1, the items to
     * section 1, the questions to quizzes 1 and 2. Without it they are what
     * the source as written stores: `this.createX(x).id` reads `id` off a
     * Promise, so every parent reference is `undefined`.
     */
    method SeedRecords(r: SampleData.Records, idsRead: bool)
      requires Valid() && Empty() && SampleData.Shaped(r)
      modifies this
      ensures Valid()
      ensures idsRead ==> SeededWith(r, CreatedIds(1, 5), CreatedIds(1, 2), Id(1), Id(2))
      ensures !idsRead ==> SeededWith(r, PromiseIds(5), PromiseIds(2), Undefined, Undefined)
    {
      var courseIds := SeedCatalog(r);
      var courseRefs := if idsRead then CreatedIds(courseIds[0], 5) else PromiseIds(5);
      var _ := SeedContent(r, courseRefs, idsRead);
      var _, _ := SeedQuizzes(r, courseRefs, idsRead);
    }

    /** `initializeSampleData()` with the parent ids read from the created rows. */
    method InitializeSampleData()
      requires Valid() && Empty()
      modifies this
      ensures Valid()
      ensures SeededWith(SampleData.Seed(), CreatedIds(1, 5), CreatedIds(1, 2), Id(1), Id(2))
    {
      SeedRecords(SampleData.Seed(), true);
    }

    /** `initializeSampleData()` as written, every parent reference `undefined`. */
    method InitializeSampleDataAsWritten()
      requires Valid() && Empty()
      modifies this
      ensures Valid()
      ensures SeededWith(SampleData.Seed(), PromiseIds(5), PromiseIds(2), Undefined, Undefined)
    {
      SeedRecords(SampleData.Seed(), false);
    }

    /** `new MemStorage()`: empty tables, counters at 1, then the (corrected) seed. */
    constructor ()
      ensures Valid()
      ensures SeededWith(SampleData.Seed(), CreatedIds(1, 5), CreatedIds(1, 2), Id(1), Id(2))
    {
      users, categories, courses := [], [], [];
      contentSections, contentItems := [], [];
      quizzes, quizQuestions := [], [];
      userProgress, quizResults := [], [];
      nextIds := NextIds(1, 1, 1, 1, 1, 1, 1, 1, 1);
      new;
      InitializeSampleData();
    }

    /** `new MemStorage()` running the seed as written. */
    constructor AsWritten()
      ensures Valid()
      ensures SeededWith(SampleData.Seed(), PromiseIds(5), PromiseIds(2), Undefined, Undefined)
    {
      users, categories, courses := [], [], [];
      contentSections, contentItems := [], [];
      quizzes, quizQuestions := [], [];
      userProgress, quizResults := [], [];
      nextIds := NextIds(1, 1, 1, 1, 1, 1, 1, 1, 1);
      new;
      InitializeSampleDataAsWritten();
    }
  }

  /**
   * As written, the seed leaves every course without sections or quizzes,
   * every section without items and every quiz without questions, although
   * course 1 and quizzes 1 and 2 exist. This holds whatever the records.
   */
  lemma SeedAsWrittenOrphans(st: MemStorage, r: SampleData.Records)
    requires st.Valid() && SampleData.Shaped(r)
    requires st.SeededWith(r, PromiseIds(5), PromiseIds(2), Undefined, Undefined)
    ensures st.GetCourseById(1).Some? && st.GetQuizById(1).Some? && st.GetQuizById(2).Some?
    ensures forall id :: st.GetContentSections(id) == []
    ensures forall id :: st.GetContentItems(id) == []
    ensures forall id :: st.GetQuizzesByCourseId(id) == []
    ensures forall id :: st.GetQuizQuestions(id) == []
  {
    OrphanSections(st, r.algebraSections);
    OrphanItems(st, r.linearEquationsItems);
    OrphanQuizzes(st, r);
    OrphanQuestions(st, r.algebraQuestions, r.biologyQuestions);
  }

  lemma OrphanSections(st: MemStorage, xs: seq<InsertContentSection>)
    requires st.Valid()
    requires st.contentSections == Stamped(1, SampleData.SectionsUnder(xs, Undefined))
    ensures forall id :: st.GetContentSections(id) == []
  {
    assert forall i | 0 <= i < |st.contentSections| :: st.contentSections[i].1.data.courseId == Undefined;
    forall id ensures st.GetContentSections(id) == [] {
      var q := st.GetContentSections(id);
      assert |q| > 0 ==> q[0].data.courseId == Undefined;
    }
  }

  lemma OrphanItems(st: MemStorage, xs: seq<InsertContentItem>)
    requires st.Valid()
    requires st.contentItems == Stamped(1, SampleData.ItemsUnder(xs, Undefined))
    ensures forall id :: st.GetContentItems(id) == []
  {
    assert forall i | 0 <= i < |st.contentItems| :: st.contentItems[i].1.data.sectionId == Undefined;
    forall id ensures st.GetContentItems(id) == [] {
      var q := st.GetContentItems(id);
      assert |q| > 0 ==> q[0].data.sectionId == Undefined;
    }
  }

  lemma OrphanQuizzes(st: MemStorage, r: SampleData.Records)
    requires st.Valid()
    requires st.quizzes == Stamped(1, [SampleData.AlgebraQuiz(r, PromiseIds(5)), SampleData.BiologyQuiz(r, PromiseIds(5))])
    ensures forall id :: st.GetQuizzesByCourseId(id) == []
  {
    assert forall i | 0 <= i < |st.quizzes| :: st.quizzes[i].1.data.courseId == Undefined;
    forall id ensures st.GetQuizzesByCourseId(id) == [] {
      var q := st.GetQuizzesByCourseId(id);
      assert |q| > 0 ==> q[0].data.courseId == Undefined;
    }
  }

  lemma OrphanQuestions(st: MemStorage, xs: seq<InsertQuizQuestion>, ys: seq<InsertQuizQuestion>)
    requires st.Valid()
    requires st.quizQuestions == Stamped(1, SampleData.QuestionsUnder(xs, Undefined)
                                            + SampleData.QuestionsUnder(ys, Undefined))
    ensures forall id :: st.GetQuizQuestions(id) == []
  {
    assert forall i | 0 <= i < |st.quizQuestions| :: st.quizQuestions[i].1.data.quizId == Undefined;
    forall id ensures st.GetQuizQuestions(id) == [] {
      var q := st.GetQuizQuestions(id);
      assert |q| > 0 ==> q[0].data.quizId == Undefined;
    }
  }

  /** With the seed corrected, quiz 1 holds the three algebra questions, ids 1 to 3, in their order. */
  lemma SeededAlgebraQuestions(st: MemStorage)
    requires st.Valid()
    requires st.quizQuestions == Stamped(1, SampleData.QuestionsUnder(SampleData.AlgebraQuestionRecords(), Id(1))
                                            + SampleData.QuestionsUnder(SampleData.BiologyQuestionRecords(), Id(2)))
    ensures st.GetQuizQuestions(1) == JsMap.Values(Stamped(1, SampleData.QuestionsUnder(SampleData.AlgebraQuestionRecords(), Id(1))))
    ensures |st.GetQuizQuestions(1)| == 3
  {
    var a := SampleData.QuestionsUnder(SampleData.AlgebraQuestionRecords(), Id(1));
    var b := SampleData.QuestionsUnder(SampleData.BiologyQuestionRecords(), Id(2));
    assert |a| == 3 && |b| == 2;
    ChildrenOfFront(a, b, QuestionOfQuiz(1), QuestionOrder);
  }

  /** With the seed corrected, quiz 2 holds the two biology questions, ids 4 and 5, in their order. */
  lemma SeededBiologyQuestions(st: MemStorage)
    requires st.Valid()
    requires st.quizQuestions == Stamped(1, SampleData.QuestionsUnder(SampleData.AlgebraQuestionRecords(), Id(1))
                                            + SampleData.QuestionsUnder(SampleData.BiologyQuestionRecords(), Id(2)))
    ensures st.GetQuizQuestions(2) == JsMap.Values(Stamped(4, SampleData.QuestionsUnder(SampleData.BiologyQuestionRecords(), Id(2))))
    ensures |st.GetQuizQuestions(2)| == 2
  {
    var a := SampleData.QuestionsUnder(SampleData.AlgebraQuestionRecords(), Id(1));
    var b := SampleData.QuestionsUnder(SampleData.BiologyQuestionRecords(), Id(2));
    assert |a| == 3 && |b| == 2;
    ChildrenOfBack(a, b, 4, QuestionOfQuiz(2), QuestionOrder);
  }

  /** With the seed corrected, course 1 has its two sections, ids 1 and 2, in order. */
  lemma SeededAlgebraSections(st: MemStorage)
    requires st.Valid()
    requires st.contentSections == Stamped(1, SampleData.SectionsUnder(SampleData.AlgebraSectionRecords(), Id(1)))
    ensures st.GetContentSections(1) == JsMap.Values(st.contentSections)
    ensures |st.GetContentSections(1)| == 2
  {
    var ss := SampleData.SectionsUnder(SampleData.AlgebraSectionRecords(), Id(1));
    assert ss + [] == ss;
    ChildrenOfFront(ss, [], SectionOfCourse(1), SectionOrder);
  }

  /** With the seed corrected, section 1 has its three items, ids 1 to 3, in order. */
  lemma SeededLinearEquationsItems(st: MemStorage)
    requires st.Valid()
    requires st.contentItems == Stamped(1, SampleData.ItemsUnder(SampleData.LinearEquationsItemRecords(), Id(1)))
    ensures st.GetContentItems(1) == JsMap.Values(st.contentItems)
    ensures |st.GetContentItems(1)| == 3
  {
    var items := SampleData.ItemsUnder(SampleData.LinearEquationsItemRecords(), Id(1));
    assert items + [] == items;
    ChildrenOfFront(items, [], ItemOfSection(1), ItemOrder);
  }
}
