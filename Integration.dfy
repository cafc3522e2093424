/** What the client's quick date filters select once the server runs
    `findWithFilters` with the range `getDateRange` produced, on the same
    day. The 'overdue' filter relies on the query's last clause to drop
    COMPLETED tasks, and then selects exactly what the statistics count as
    overdue. */
module Integration {
  import opened Common
  import opened Instants
  import opened TaskModel
  import opened Repository
  import opened ClientUtils

  /** The filters of a request carrying only a date range. */
  function RangeQuery(r: DateRange): FilterQuery {
    NoFilters.(dueDateFrom := r.dueDateFrom, dueDateTo := r.dueDateTo)
  }

  /** 'today' selects exactly the tasks due today. */
  lemma TodayFilterSelectsDueToday(rows: seq<TaskRow>, today: Day)
    ensures FindWithFilters(rows, RangeQuery(GetDateRange("today", today)), Some(today))
         == Filter(rows, DueOn(today))
  {
    SameDayBoundsSelectDueOn(rows, today, Some(today));
  }

  /** 'overdue' selects exactly the overdue tasks: due before today and not
      COMPLETED. */
  lemma OverdueFilterSelectsOverdue(rows: seq<TaskRow>, today: Day)
    ensures FindWithFilters(rows, RangeQuery(GetDateRange("overdue", today)), Some(today))
         == Filter(rows, OverdueHolds(today))
    ensures |FindWithFilters(rows, RangeQuery(GetDateRange("overdue", today)), Some(today))|
         == CountOverdueTasks(rows, today)
  {
    var q := RangeQuery(GetDateRange("overdue", today));
    assert q.dueDateTo == Some(today - 1);
    FilterCongruent(rows, FiltersHold(q, Some(today)), OverdueHolds(today));
  }

  function DueWithin(from: Day, to: Day): TaskRow -> bool {
    (t: TaskRow) => t.dueDate.Some? && from <= t.dueDate.value <= to
  }

  /** 'this-week' selects exactly the tasks due from Sunday to Saturday of
      the current week, COMPLETED ones included: the week ends no earlier
      than today, so the COMPLETED clause does not apply. */
  lemma ThisWeekFilterSelectsWeek(rows: seq<TaskRow>, today: Day)
    ensures var r := GetDateRange("this-week", today);
      && r.dueDateFrom.Some? && r.dueDateTo.Some?
      && FindWithFilters(rows, RangeQuery(r), Some(today))
         == Filter(rows, DueWithin(r.dueDateFrom.value, r.dueDateTo.value))
  {
    var r := GetDateRange("this-week", today);
    ThisWeekContainsToday(today);
    FilterCongruent(rows, FiltersHold(RangeQuery(r), Some(today)), DueWithin(r.dueDateFrom.value, r.dueDateTo.value));
  }

  /** Any other value sends no range: every task is selected. */
  lemma OtherFilterSelectsAll(rows: seq<TaskRow>, filter: string, today: Day)
    requires filter !in {"overdue", "today", "this-week"}
    ensures FindWithFilters(rows, RangeQuery(GetDateRange(filter, today)), Some(today)) == rows
  {
    NoFiltersKeepsAll(rows, Some(today));
  }
}
