/** The repository's declarative queries, as predicates over one stored task.
    A JPQL WHERE clause is evaluated in SQL's three-valued logic (a comparison
    with a null column is UNKNOWN) and keeps a row only when the whole clause
    is TRUE. Each query is written twice: literally, clause by clause, in
    three-valued logic, and as the plain two-valued condition it amounts to;
    the `ensures` of the literal form says the two agree. A query over the
    store is a filter over `rows`, the stored tasks in whatever order the
    database lists them. */
module Repository {
  import opened Common
  import opened Text
  import opened Instants
  import opened Domain
  import opened TaskModel

  /** SQL truth values. */
  datatype Truth = True | False | Unknown

  function And(a: Truth, b: Truth): Truth {
    if a == False || b == False then False
    else if a == True && b == True then True
    else Unknown
  }

  function Or(a: Truth, b: Truth): Truth {
    if a == True || b == True then True
    else if a == False && b == False then False
    else Unknown
  }

  function FromBool(b: bool): Truth {
    if b then True else False
  }

  /** `x IS NULL` (never UNKNOWN). */
  function IsNull<T>(x: Option<T>): Truth {
    FromBool(x.None?)
  }

  /** `a = b`. */
  function Eq<T(==)>(a: Option<T>, b: Option<T>): Truth {
    if a.None? || b.None? then Unknown else FromBool(a.value == b.value)
  }

  /** `a != b`. */
  function Ne<T(==)>(a: Option<T>, b: Option<T>): Truth {
    if a.None? || b.None? then Unknown else FromBool(a.value != b.value)
  }

  /** `a < b` on dates. */
  function Lt(a: Option<Day>, b: Option<Day>): Truth {
    if a.None? || b.None? then Unknown else FromBool(a.value < b.value)
  }

  /** `a <= b` on dates. */
  function Le(a: Option<Day>, b: Option<Day>): Truth {
    if a.None? || b.None? then Unknown else FromBool(a.value <= b.value)
  }

  /** `a >= b` on dates. */
  function Ge(a: Option<Day>, b: Option<Day>): Truth {
    if a.None? || b.None? then Unknown else FromBool(a.value >= b.value)
  }

  /** `LOWER(col) LIKE LOWER(CONCAT('%', term, '%'))`, the term read as plain
      text. `CONCAT` with a null argument is null, hence UNKNOWN. */
  function Like(col: Option<string>, term: Option<string>): Truth {
    if col.None? || term.None? then Unknown
    else FromBool(Contains(Lower(col.value), Lower(term.value)))
  }

  /** The parameters of `findWithFilters` other than `today`; `None` is a null
      parameter. */
  datatype FilterQuery = FilterQuery(
    status: Option<Status>,
    priority: Option<Priority>,
    dueDateFrom: Option<Day>,
    dueDateTo: Option<Day>,
    searchTerm: Option<string>)

  const NoFilters := FilterQuery(None, None, None, None, None)

  /** The search term occurs, ignoring case, in a non-null title or a non-null
      description. */
  predicate MentionsTerm(t: TaskRow, term: string) {
    || (t.title.Some? && Contains(Lower(t.title.value), Lower(term)))
    || (t.description.Some? && Contains(Lower(t.description.value), Lower(term)))
  }

  /** What `findWithFilters` keeps, in two-valued terms: every non-null
      parameter constrains, a null column fails every comparison, and a
      `dueDateTo` strictly before `today` drops COMPLETED (and status-less)
      tasks. */
  predicate MatchesFilters(t: TaskRow, q: FilterQuery, today: Option<Day>) {
    && (q.status.None? || t.status == q.status)
    && (q.priority.None? || t.priority == q.priority)
    && (q.dueDateFrom.None? || (t.dueDate.Some? && q.dueDateFrom.value <= t.dueDate.value))
    && (q.dueDateTo.None? || (t.dueDate.Some? && t.dueDate.value <= q.dueDateTo.value))
    && (q.searchTerm.None? || MentionsTerm(t, q.searchTerm.value))
    && (today.None? || q.dueDateTo.None? || q.dueDateTo.value >= today.value
        || (t.status.Some? && t.status.value != COMPLETED))
  }

  /** The WHERE clause of `findWithFilters`, clause by clause. */
  function FindWithFiltersWhere(t: TaskRow, q: FilterQuery, today: Option<Day>): (r: Truth)
    ensures r == True <==> MatchesFilters(t, q, today)
  {
    And(And(And(And(And(
      Or(IsNull(q.status), Eq(t.status, q.status)),
      Or(IsNull(q.priority), Eq(t.priority, q.priority))),
      Or(IsNull(q.dueDateFrom), Ge(t.dueDate, q.dueDateFrom))),
      Or(IsNull(q.dueDateTo), Le(t.dueDate, q.dueDateTo))),
      Or(Or(IsNull(q.searchTerm), Like(t.title, q.searchTerm)), Like(t.description, q.searchTerm))),
      Or(Or(Or(IsNull(today), IsNull(q.dueDateTo)), Ge(q.dueDateTo, today)), Ne(t.status, Some(COMPLETED))))
  }

  function FiltersHold(q: FilterQuery, today: Option<Day>): TaskRow -> bool {
    (t: TaskRow) => FindWithFiltersWhere(t, q, today) == True
  }

  /** `findWithFilters(status, priority, dueDateFrom, dueDateTo, searchTerm, today)`:
      the stored tasks that match every filter, and no others. */
  function FindWithFilters(rows: seq<TaskRow>, q: FilterQuery, today: Option<Day>): (r: seq<TaskRow>)
    ensures multiset(r) <= multiset(rows)
    ensures forall i :: 0 <= i < |r| ==> r[i] in rows && MatchesFilters(r[i], q, today)
    ensures forall i :: 0 <= i < |rows| && MatchesFilters(rows[i], q, today) ==> rows[i] in r
  {
    FilterSound(rows, FiltersHold(q, today));
    Filter(rows, FiltersHold(q, today))
  }

  /** With every filter null the query returns every stored task. */
  lemma NoFiltersKeepsAll(rows: seq<TaskRow>, today: Option<Day>)
    ensures FindWithFilters(rows, NoFilters, today) == rows
  {
    FilterAll(rows, FiltersHold(NoFilters, today));
  }

  /** A status or priority filter never matches a task whose column is null. */
  lemma NullColumnNeverMatches(t: TaskRow, q: FilterQuery, today: Option<Day>)
    requires (q.status.Some? && t.status.None?) || (q.priority.Some? && t.priority.None?)
    ensures FindWithFiltersWhere(t, q, today) != True
  {
  }

  /** A task without a due date is dropped by either date bound. */
  lemma NoDueDateFailsBounds(t: TaskRow, q: FilterQuery, today: Option<Day>)
    requires t.dueDate.None? && (q.dueDateFrom.Some? || q.dueDateTo.Some?)
    ensures FindWithFiltersWhere(t, q, today) != True
  {
  }

  function DueOn(d: Day): TaskRow -> bool {
    (t: TaskRow) => t.dueDate == Some(d)
  }

  /** Both bounds on the same day `d` (not before `today`) select exactly the
      tasks due on `d`: the bounds are inclusive. */
  lemma SameDayBoundsSelectDueOn(rows: seq<TaskRow>, d: Day, today: Option<Day>)
    requires today.None? || today.value <= d
    ensures FindWithFilters(rows, NoFilters.(dueDateFrom := Some(d), dueDateTo := Some(d)), today)
         == Filter(rows, DueOn(d))
  {
    var q := NoFilters.(dueDateFrom := Some(d), dueDateTo := Some(d));
    FilterCongruent(rows, FiltersHold(q, today), DueOn(d));
  }

  function DueOnNotCompleted(d: Day): TaskRow -> bool {
    (t: TaskRow) => t.dueDate == Some(d) && t.status.Some? && t.status.value != COMPLETED
  }

  /** Both bounds on a day `d` that is already past: the last clause is
      active, so only the tasks due on `d` with a status other than COMPLETED
      are selected. */
  lemma SameDayBoundsInPast(rows: seq<TaskRow>, d: Day, today: Day)
    requires d < today
    ensures FindWithFilters(rows, NoFilters.(dueDateFrom := Some(d), dueDateTo := Some(d)), Some(today))
         == Filter(rows, DueOnNotCompleted(d))
  {
    var q := NoFilters.(dueDateFrom := Some(d), dueDateTo := Some(d));
    FilterCongruent(rows, FiltersHold(q, Some(today)), DueOnNotCompleted(d));
  }

  /** The search term matches in the title or in the description; a null
      description does not stop a title match, nor a null title a description
      match. */
  lemma SearchMatchesTitleOrDescription(t: TaskRow, term: string, today: Option<Day>)
    ensures MatchesFilters(t, NoFilters.(searchTerm := Some(term)), today) <==>
      ((t.title.Some? && Contains(Lower(t.title.value), Lower(term)))
       || (t.description.Some? && Contains(Lower(t.description.value), Lower(term))))
  {
  }

  /** When `dueDateTo` is strictly before `today`, only tasks with a status
      other than COMPLETED pass. */
  lemma PastDueDateToExcludesCompleted(t: TaskRow, q: FilterQuery, today: Day)
    requires q.dueDateTo.Some? && q.dueDateTo.value < today
    requires MatchesFilters(t, q, Some(today))
    ensures t.status.Some? && t.status.value != COMPLETED
  {
  }

  /** Otherwise the last clause constrains nothing: the query behaves as if
      `today` were null. */
  lemma GuardInactive(t: TaskRow, q: FilterQuery, today: Option<Day>)
    requires today.None? || q.dueDateTo.None? || q.dueDateTo.value >= today.value
    ensures MatchesFilters(t, q, today) <==> MatchesFilters(t, q, None)
  {
  }

  /** Overdue: a due date strictly before `today` and a status, other than
      COMPLETED. */
  predicate IsOverdue(t: TaskRow, today: Day) {
    t.dueDate.Some? && t.dueDate.value < today && t.status.Some? && t.status.value != COMPLETED
  }

  /** The WHERE clause of `countOverdueTasks`. */
  function OverdueWhere(t: TaskRow, today: Day): (r: Truth)
    ensures r == True <==> IsOverdue(t, today)
  {
    And(Lt(t.dueDate, Some(today)), Ne(t.status, Some(COMPLETED)))
  }

  function OverdueHolds(today: Day): TaskRow -> bool {
    (t: TaskRow) => OverdueWhere(t, today) == True
  }

  /** `countOverdueTasks(today)`: the number of overdue tasks. */
  function CountOverdueTasks(rows: seq<TaskRow>, today: Day): (n: nat)
    ensures n <= |rows|
    ensures n == |Filter(rows, (t: TaskRow) => IsOverdue(t, today))|
  {
    FilterSound(rows, OverdueHolds(today));
    FilterCongruent(rows, OverdueHolds(today), (t: TaskRow) => IsOverdue(t, today));
    |Filter(rows, OverdueHolds(today))|
  }

  function StatusIs(s: Status): TaskRow -> bool {
    (t: TaskRow) => Eq(t.status, Some(s)) == True
  }

  /** `countByStatus(status)`: the number of tasks whose status is `status`;
      a null status is never counted. */
  function CountByStatus(rows: seq<TaskRow>, s: Status): (n: nat)
    ensures n <= |rows|
    ensures n == |Filter(rows, (t: TaskRow) => t.status == Some(s))|
  {
    FilterSound(rows, StatusIs(s));
    FilterCongruent(rows, StatusIs(s), (t: TaskRow) => t.status == Some(s));
    |Filter(rows, StatusIs(s))|
  }

  function DueBefore(d: Day): TaskRow -> bool {
    (t: TaskRow) => Lt(t.dueDate, Some(d)) == True
  }

  /** `findByDueDateBefore(date)`: exactly the tasks due strictly before `date`. */
  function FindByDueDateBefore(rows: seq<TaskRow>, d: Day): (r: seq<TaskRow>)
    ensures |r| <= |rows| && multiset(r) <= multiset(rows)
    ensures forall i :: 0 <= i < |r| ==> r[i].dueDate.Some? && r[i].dueDate.value < d
    ensures forall i :: 0 <= i < |rows| && rows[i].dueDate.Some? && rows[i].dueDate.value < d ==> rows[i] in r
  {
    FilterSound(rows, DueBefore(d));
    Filter(rows, DueBefore(d))
  }

  function StatusIsNull(): TaskRow -> bool {
    (t: TaskRow) => t.status.None?
  }

  /** Each task has one status or none, so the three per-status counts and the
      status-less tasks add up to the total. */
  lemma StatusCountsPartition(rows: seq<TaskRow>)
    ensures CountByStatus(rows, OPEN) + CountByStatus(rows, IN_PROGRESS) + CountByStatus(rows, COMPLETED)
          + |Filter(rows, StatusIsNull())| == |rows|
  {
    forall i | 0 <= i < |rows|
      ensures ExactlyOne(StatusIs(OPEN)(rows[i]), StatusIs(IN_PROGRESS)(rows[i]),
                         StatusIs(COMPLETED)(rows[i]), StatusIsNull()(rows[i]))
    {
      var t := rows[i];
      if t.status.Some? {
        match t.status.value
        case OPEN =>
        case IN_PROGRESS =>
        case COMPLETED =>
      }
    }
    FilterPartition(rows, StatusIs(OPEN), StatusIs(IN_PROGRESS), StatusIs(COMPLETED), StatusIsNull());
  }

  predicate ExactlyOne(a: bool, b: bool, c: bool, d: bool) {
    (if a then 1 else 0) + (if b then 1 else 0) + (if c then 1 else 0) + (if d then 1 else 0) == 1
  }

  lemma {:induction false} FilterPartition<T>(s: seq<T>, p1: T -> bool, p2: T -> bool, p3: T -> bool, p4: T -> bool)
    requires forall i :: 0 <= i < |s| ==> ExactlyOne(p1(s[i]), p2(s[i]), p3(s[i]), p4(s[i]))
    ensures |Filter(s, p1)| + |Filter(s, p2)| + |Filter(s, p3)| + |Filter(s, p4)| == |s|
  {
    if s != [] {
      assert ExactlyOne(p1(s[0]), p2(s[0]), p3(s[0]), p4(s[0]));
      FilterPartition(s[1..], p1, p2, p3, p4);
    }
  }
}
