/** The sort policy of `TaskService.applySorting`: a sort field chosen by name
    (ignoring case), a key per field with its null handling, a direction, and
    a stable sort (Java's `Stream.sorted` keeps equal elements in encounter
    order). The sort is a stable insertion sort, proved to give a permutation
    that is ordered by the key and keeps equal-key tasks in input order. */
module Sorting {
  import opened Common
  import opened Text
  import opened Instants
  import opened Domain
  import opened TaskModel

  datatype SortField = ByPriority | ByDueDate | ByTitle | ByCreatedAt

  /** A sort key: a number, or a lower-cased title. */
  datatype SortKey = Num(n: int) | Word(w: string)

  /** The priority key: HIGH=1, MEDIUM=2, LOW=3, null=4. */
  function PriorityRank(p: Option<Priority>): (r: int)
    ensures 1 <= r <= 4
    ensures r == 4 <==> p.None?
  {
    match p
    case None => 4
    case Some(HIGH) => 1
    case Some(MEDIUM) => 2
    case Some(LOW) => 3
  }

  /** The key each sort field extracts: a null due date is `LocalDate.MAX`, a
      null title is "", titles are lower-cased, a null creation time is
      `Instant.MIN`. */
  function KeyOf(f: SortField, t: TaskRow): SortKey {
    match f
    case ByPriority => Num(PriorityRank(t.priority))
    case ByDueDate => Num(if t.dueDate.Some? then t.dueDate.value else MaxDay)
    case ByTitle => Word(if t.title.Some? then Lower(t.title.value) else "")
    case ByCreatedAt => Num(if t.createdAt.Some? then t.createdAt.value else MinInstant)
  }

  /** How each key treats a task: priorities by rank, dates with a missing
      one as `LocalDate.MAX`, titles lower-cased with a missing one as "",
      creation times with a missing one as `Instant.MIN`. Only titles compare
      as text. */
  lemma KeyOfFields(f: SortField, t: TaskRow)
    ensures KeyOf(f, t).Word? <==> f == ByTitle
    ensures f == ByPriority ==> KeyOf(f, t) == Num(PriorityRank(t.priority))
    ensures f == ByDueDate && t.dueDate.None? ==> KeyOf(f, t) == Num(MaxDay)
    ensures f == ByDueDate && t.dueDate.Some? ==> KeyOf(f, t) == Num(t.dueDate.value)
    ensures f == ByTitle && t.title.None? ==> KeyOf(f, t) == Word("")
    ensures f == ByTitle && t.title.Some? ==> KeyOf(f, t) == Word(Lower(t.title.value))
    ensures f == ByCreatedAt && t.createdAt.None? ==> KeyOf(f, t) == Num(MinInstant)
    ensures f == ByCreatedAt && t.createdAt.Some? ==> KeyOf(f, t) == Num(t.createdAt.value)
  {
  }

  /** `a.compareTo(b) <= 0` for Java strings: character by character, a proper
      prefix first. */
  predicate LexLe(a: string, b: string) {
    a == [] || (b != [] && (a[0] < b[0] || (a[0] == b[0] && LexLe(a[1..], b[1..]))))
  }

  lemma {:induction false} LexLeReflexive(a: string)
    ensures LexLe(a, a)
  {
    if a != [] {
      LexLeReflexive(a[1..]);
    }
  }

  lemma {:induction false} LexLeTotal(a: string, b: string)
    ensures LexLe(a, b) || LexLe(b, a)
  {
    if a != [] && b != [] && a[0] == b[0] {
      LexLeTotal(a[1..], b[1..]);
    }
  }

  lemma {:induction false} LexLeAntisymmetric(a: string, b: string)
    requires LexLe(a, b) && LexLe(b, a)
    ensures a == b
  {
    if a != [] && b != [] {
      LexLeAntisymmetric(a[1..], b[1..]);
      assert a == [a[0]] + a[1..] && b == [b[0]] + b[1..];
    }
  }

  lemma {:induction false} LexLeTransitive(a: string, b: string, c: string)
    requires LexLe(a, b) && LexLe(b, c)
    ensures LexLe(a, c)
  {
    if a != [] && b != [] && c != [] && a[0] == b[0] && b[0] == c[0] {
      LexLeTransitive(a[1..], b[1..], c[1..]);
    }
  }

  /** The natural order of keys (only keys of one field are ever compared). */
  predicate KeyLe(a: SortKey, b: SortKey) {
    match (a, b)
    case (Num(x), Num(y)) => x <= y
    case (Word(x), Word(y)) => LexLe(x, y)
    case (Num(_), Word(_)) => true
    case (Word(_), Num(_)) => false
  }

  /** `a` may come before `b` in the requested direction. */
  predicate Ordered(asc: bool, a: SortKey, b: SortKey) {
    if asc then KeyLe(a, b) else KeyLe(b, a)
  }

  /** `Ordered` is a total preorder whose ties are exactly equal keys. */
  lemma OrderedLaws(asc: bool, a: SortKey, b: SortKey, c: SortKey)
    ensures Ordered(asc, a, a)
    ensures Ordered(asc, a, b) || Ordered(asc, b, a)
    ensures Ordered(asc, a, b) && Ordered(asc, b, a) ==> a == b
    ensures Ordered(asc, a, b) && Ordered(asc, b, c) ==> Ordered(asc, a, c)
  {
    if a.Word? { LexLeReflexive(a.w); }
    if a.Word? && b.Word? {
      LexLeTotal(a.w, b.w);
      if LexLe(a.w, b.w) && LexLe(b.w, a.w) { LexLeAntisymmetric(a.w, b.w); }
    }
    if a.Word? && b.Word? && c.Word? {
      if LexLe(a.w, b.w) && LexLe(b.w, c.w) { LexLeTransitive(a.w, b.w, c.w); }
      if LexLe(c.w, b.w) && LexLe(b.w, a.w) { LexLeTransitive(c.w, b.w, a.w); }
    }
  }

  predicate Precedes(f: SortField, asc: bool, x: TaskRow, y: TaskRow) {
    Ordered(asc, KeyOf(f, x), KeyOf(f, y))
  }

  /** Every earlier task may come before every later one. */
  predicate Sorted(f: SortField, asc: bool, s: seq<TaskRow>) {
    forall i, j :: 0 <= i < j < |s| ==> Precedes(f, asc, s[i], s[j])
  }

  function HasKey(f: SortField, k: SortKey): TaskRow -> bool {
    (t: TaskRow) => KeyOf(f, t) == k
  }

  /** The tasks of `s` whose key is `k`, in their order in `s`. A sort is
      stable when this is the same before and after, for every key. */
  function WithKey(f: SortField, s: seq<TaskRow>, k: SortKey): seq<TaskRow> {
    Filter(s, HasKey(f, k))
  }

  /** Puts `x` after the last task of the sorted `t` that may precede it. */
  function Insert(f: SortField, asc: bool, t: seq<TaskRow>, x: TaskRow): seq<TaskRow>
    decreases |t|
  {
    if t == [] then [x]
    else if Precedes(f, asc, t[|t| - 1], x) then t + [x]
    else Insert(f, asc, t[..|t| - 1], x) + [t[|t| - 1]]
  }

  /** Stable insertion sort (`stream().sorted(comparator)`); `SortByCorrect`
      proves it a stable sort. */
  function SortBy(f: SortField, asc: bool, s: seq<TaskRow>): (r: seq<TaskRow>)
    ensures |r| == |s|
    decreases |s|
  {
    if s == [] then []
    else
      var sorted := SortBy(f, asc, s[..|s| - 1]);
      InsertPermutes(f, asc, sorted, s[|s| - 1]);
      assert |multiset(Insert(f, asc, sorted, s[|s| - 1]))| == |sorted| + 1;
      Insert(f, asc, sorted, s[|s| - 1])
  }

  lemma {:induction false} InsertPermutes(f: SortField, asc: bool, t: seq<TaskRow>, x: TaskRow)
    ensures multiset(Insert(f, asc, t, x)) == multiset(t) + multiset{x}
    decreases |t|
  {
    if t != [] && !Precedes(f, asc, t[|t| - 1], x) {
      InsertPermutes(f, asc, t[..|t| - 1], x);
      assert t == t[..|t| - 1] + [t[|t| - 1]];
    }
  }

  lemma {:induction false} InsertSorted(f: SortField, asc: bool, t: seq<TaskRow>, x: TaskRow)
    requires Sorted(f, asc, t)
    ensures Sorted(f, asc, Insert(f, asc, t, x))
    decreases |t|
  {
    if t == [] {
      return;
    }
    var last := t[|t| - 1];
    var init := t[..|t| - 1];
    var r := Insert(f, asc, t, x);
    if Precedes(f, asc, last, x) {
      forall i, j | 0 <= i < j < |r|
        ensures Precedes(f, asc, r[i], r[j])
      {
        if j == |t| && i < |t| - 1 {
          OrderedLaws(asc, KeyOf(f, r[i]), KeyOf(f, last), KeyOf(f, x));
        }
      }
    } else {
      var u := Insert(f, asc, init, x);
      InsertSorted(f, asc, init, x);
      InsertPermutes(f, asc, init, x);
      OrderedLaws(asc, KeyOf(f, last), KeyOf(f, x), KeyOf(f, x));
      assert r == u + [last];
      forall i, j | 0 <= i < j < |r|
        ensures Precedes(f, asc, r[i], r[j])
      {
        if j == |u| {
          assert r[i] == u[i] && u[i] in multiset(init) + multiset{x};
          if r[i] != x {
            var k :| 0 <= k < |init| && init[k] == r[i];
            assert init[k] == t[k];
          }
        }
      }
    }
  }

  lemma {:induction false} InsertStable(f: SortField, asc: bool, t: seq<TaskRow>, x: TaskRow, k: SortKey)
    ensures WithKey(f, Insert(f, asc, t, x), k) == WithKey(f, t, k) + WithKey(f, [x], k)
    decreases |t|
  {
    if t == [] {
      assert [] + [x] == [x];
    } else {
      var last := t[|t| - 1];
      var init := t[..|t| - 1];
      assert t == init + [last];
      var p := HasKey(f, k);
      if Precedes(f, asc, last, x) {
        FilterAppend(t, [x], p);
      } else {
        var u := Insert(f, asc, init, x);
        OrderedLaws(asc, KeyOf(f, last), KeyOf(f, last), KeyOf(f, x));
        assert Filter([x], p) == [] || Filter([last], p) == [];
        calc {
          Filter(Insert(f, asc, t, x), p);
          Filter(u + [last], p);
          { FilterAppend(u, [last], p); }
          Filter(u, p) + Filter([last], p);
          { InsertStable(f, asc, init, x, k); }
          Filter(init, p) + Filter([x], p) + Filter([last], p);
          Filter(init, p) + Filter([last], p) + Filter([x], p);
          { FilterAppend(init, [last], p); }
          Filter(t, p) + Filter([x], p);
        }
      }
    }
  }

  /** `SortBy` returns a permutation of its input, sorted by the key in the
      requested direction, and stable. */
  lemma {:induction false} SortByCorrect(f: SortField, asc: bool, s: seq<TaskRow>)
    ensures multiset(SortBy(f, asc, s)) == multiset(s)
    ensures Sorted(f, asc, SortBy(f, asc, s))
    ensures forall k :: WithKey(f, SortBy(f, asc, s), k) == WithKey(f, s, k)
    decreases |s|
  {
    if s != [] {
      var init := s[..|s| - 1];
      var last := s[|s| - 1];
      SortByCorrect(f, asc, init);
      InsertPermutes(f, asc, SortBy(f, asc, init), last);
      InsertSorted(f, asc, SortBy(f, asc, init), last);
      assert s == init + [last];
      forall k
        ensures WithKey(f, SortBy(f, asc, s), k) == WithKey(f, s, k)
      {
        InsertStable(f, asc, SortBy(f, asc, init), last, k);
        FilterAppend(init, [last], HasKey(f, k));
      }
    }
  }

  /** The sort field named by `sortBy`, matched case-insensitively; `None`
      for a null, empty or unknown name. */
  function ParseSortField(sortBy: Option<string>): (r: Option<SortField>)
    ensures r.Some? ==> sortBy.Some? && sortBy.value != []
  {
    if sortBy.None? || sortBy.value == [] then None
    else
      var name := Lower(sortBy.value);
      if name == "priority" then Some(ByPriority)
      else if name == "duedate" then Some(ByDueDate)
      else if name == "title" then Some(ByTitle)
      else if name == "createdat" then Some(ByCreatedAt)
      else None
  }

  /** The field name is matched ignoring case. */
  lemma ParseSortFieldIgnoresCase(name: string)
    ensures ParseSortField(Some(name)) == ParseSortField(Some(Lower(name)))
  {
    LowerIdempotent(name);
  }

  /** Ascending unless `sortOrder` is "DESC" in any case. */
  predicate Ascending(sortOrder: Option<string>): (r: bool)
    ensures !r <==> sortOrder.Some? && Lower(sortOrder.value) == "desc"
    ensures !r ==> sortOrder.Some? && |sortOrder.value| == 4
  {
    assert Lower("DESC") == "desc";
    sortOrder.None? || !EqualsIgnoreCase(sortOrder.value, "DESC")
  }

  lemma AscendingExamples()
    ensures Ascending(None)
    ensures !Ascending(Some("desc")) && !Ascending(Some("DESC")) && !Ascending(Some("Desc"))
    ensures Ascending(Some("asc")) && Ascending(Some(""))
  {
    assert Lower("DESC") == "desc";
    assert Lower("Desc") == "desc";
    assert Lower("asc") == "asc";
  }

  /** `applySorting(tasks, sortBy, sortOrder)`: the input itself when the
      field is missing or unknown, otherwise a rearrangement of it. */
  function ApplySorting(rows: seq<TaskRow>, sortBy: Option<string>, sortOrder: Option<string>): (r: seq<TaskRow>)
    ensures ParseSortField(sortBy).None? ==> r == rows
    ensures multiset(r) == multiset(rows) && |r| == |rows|
  {
    match ParseSortField(sortBy)
    case None => rows
    case Some(f) =>
      SortByCorrect(f, Ascending(sortOrder), rows);
      assert |multiset(SortBy(f, Ascending(sortOrder), rows))| == |multiset(rows)|;
      SortBy(f, Ascending(sortOrder), rows)
  }

  /** With a known field, the result is ordered by that field's key in the
      requested direction, and tasks with equal keys keep their input order. */
  lemma ApplySortingOrdersStably(rows: seq<TaskRow>, sortBy: Option<string>, sortOrder: Option<string>)
    requires ParseSortField(sortBy).Some?
    ensures var f := ParseSortField(sortBy).value;
      && Sorted(f, Ascending(sortOrder), ApplySorting(rows, sortBy, sortOrder))
      && forall k :: WithKey(f, ApplySorting(rows, sortBy, sortOrder), k) == WithKey(f, rows, k)
  {
    SortByCorrect(ParseSortField(sortBy).value, Ascending(sortOrder), rows);
  }

  /** Sorting by priority ascending puts HIGH first, then MEDIUM, then LOW,
      then the tasks without a priority. */
  lemma PriorityAscendingOrder(rows: seq<TaskRow>, sortOrder: Option<string>, i: int, j: int)
    requires Ascending(sortOrder)
    requires 0 <= i < j < |ApplySorting(rows, Some("priority"), sortOrder)|
    ensures var r := ApplySorting(rows, Some("priority"), sortOrder);
      PriorityRank(r[i].priority) <= PriorityRank(r[j].priority)
  {
    assert Lower("priority") == "priority";
    var r := ApplySorting(rows, Some("priority"), sortOrder);
    ApplySortingOrdersStably(rows, Some("priority"), sortOrder);
    assert Precedes(ByPriority, true, r[i], r[j]);
  }

  /** Sorting by due date ascending puts tasks without a due date after every
      task due before `LocalDate.MAX`. */
  lemma NoDueDateSortsLast(rows: seq<TaskRow>, sortOrder: Option<string>, i: int, j: int)
    requires Ascending(sortOrder)
    requires 0 <= i < j < |ApplySorting(rows, Some("dueDate"), sortOrder)|
    requires ApplySorting(rows, Some("dueDate"), sortOrder)[i].dueDate.None?
    ensures var d := ApplySorting(rows, Some("dueDate"), sortOrder)[j].dueDate;
      d.None? || d.value >= MaxDay
  {
    assert Lower("dueDate") == "duedate";
    var r := ApplySorting(rows, Some("dueDate"), sortOrder);
    ApplySortingOrdersStably(rows, Some("dueDate"), sortOrder);
    assert Precedes(ByDueDate, true, r[i], r[j]);
  }
}
