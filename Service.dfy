/** `TaskService`: the response mapping (`toResponseDTO`, which decodes the
    status history), the read-only queries as pipelines over the repository's
    listing, and the state-changing operations on a store that maps each id
    to the stored fields of its task.

    A query takes `rows`, the stored tasks as the repository lists them (the
    database's order is not modelled), and `now`/`today`, the clock readings.
    The store holds values: an operation loads a task into a fresh `Task`
    object (`findById`), changes it through the entity's own methods and
    writes its fields back (`save`). */
module Service {
  import opened Common
  import opened Text
  import opened Instants
  import opened Domain
  import opened History
  import opened TaskModel
  import opened Repository
  import opened Sorting

  /** The one failure of the service: "Task not found with id: ...". */
  datatype Error = NotFound(id: Uuid)

  datatype Result<T> = Ok(value: T) | Err(error: Error)

  /** `TaskRequestDTO`. */
  datatype TaskRequest = TaskRequest(
    title: Option<string>,
    description: Option<string>,
    priority: Option<Priority>,
    dueDate: Option<Day>)

  /** `@NotBlank`: present, and not only characters that `String.trim` removes
      (those up to and including the space). */
  predicate NotBlank(s: Option<string>) {
    s.Some? && exists i :: 0 <= i < |s.value| && s.value[i] > ' '
  }

  /** `TaskResponseDTO`. */
  datatype TaskResponse = TaskResponse(
    id: Option<Uuid>,
    title: Option<string>,
    description: Option<string>,
    priority: Option<Priority>,
    dueDate: Option<Day>,
    status: Option<Status>,
    createdAt: Option<Instant>,
    statusUpdatedAt: Option<Instant>,
    statusHistory: Option<seq<StatusChange>>)

  /** `toResponseDTO(task)`: the scalar fields copied, and the history decoded
      entry by entry, in order; a null or empty history becomes a null one. */
  function ToResponseDTO(row: TaskRow, now: Instant): (r: TaskResponse)
    ensures r.id == row.id && r.title == row.title && r.description == row.description
    ensures r.priority == row.priority && r.dueDate == row.dueDate && r.status == row.status
    ensures r.createdAt == row.createdAt && r.statusUpdatedAt == row.statusUpdatedAt
    ensures r.statusHistory.None? <==> HistoryOrEmpty(row.statusHistory) == []
    ensures r.statusHistory.Some? ==>
      && |r.statusHistory.value| == |row.statusHistory.value|
      && forall i :: 0 <= i < |row.statusHistory.value| ==>
           r.statusHistory.value[i] == ParseEntry(row.statusHistory.value[i], now)
  {
    var h := HistoryOrEmpty(row.statusHistory);
    TaskResponse(row.id, row.title, row.description, row.priority, row.dueDate, row.status,
      row.createdAt, row.statusUpdatedAt,
      if h == [] then None else Some(seq(|h|, i requires 0 <= i < |h| => ParseEntry(h[i], now))))
  }

  /** The status a history entry decodes to does not depend on the clock. */
  lemma ParseEntryStatusClockFree(entry: string, now: Instant)
    ensures ParseEntry(entry, now).status == EntryStatus(entry)
  {
  }

  /** A history entry written by the entity decodes without falling back:
      the stored `Entry(s, t)` becomes exactly `(s.name(), t)`. */
  lemma DecodedEntryIsExact(row: TaskRow, now: Instant, i: int)
    requires WellFormedHistory(HistoryOrEmpty(row.statusHistory))
    requires 0 <= i < |HistoryOrEmpty(row.statusHistory)|
    ensures ToResponseDTO(row, now).statusHistory.Some?
    ensures exists s: Status, t: Instant ::
      && row.statusHistory.value[i] == Entry(s, t)
      && ToResponseDTO(row, now).statusHistory.value[i] == StatusChange(StatusName(s), t)
  {
    var h := row.statusHistory.value;
    assert HistoryOrEmpty(row.statusHistory)[i] == h[i];
    var s: Status, t: Instant :| h[i] == Entry(s, t);
    EntryRoundTrip(s, t, now);
    assert ToResponseDTO(row, now).statusHistory.value[i] == StatusChange(StatusName(s), t);
  }

  /** So the response for a task with such a history does not depend on the
      clock reading that `parseStatusHistoryEntry` falls back to. */
  lemma ResponseClockFree(row: TaskRow, now1: Instant, now2: Instant)
    requires WellFormedHistory(HistoryOrEmpty(row.statusHistory))
    ensures ToResponseDTO(row, now1) == ToResponseDTO(row, now2)
  {
    var h := HistoryOrEmpty(row.statusHistory);
    if h != [] {
      var d1 := ToResponseDTO(row, now1).statusHistory.value;
      var d2 := ToResponseDTO(row, now2).statusHistory.value;
      forall i | 0 <= i < |h|
        ensures d1[i] == d2[i]
      {
        DecodedEntryIsExact(row, now1, i);
        DecodedEntryIsExact(row, now2, i);
        var s1: Status, t1: Instant :| h[i] == Entry(s1, t1) && d1[i] == StatusChange(StatusName(s1), t1);
        var s2: Status, t2: Instant :| h[i] == Entry(s2, t2) && d2[i] == StatusChange(StatusName(s2), t2);
        EntryRoundTrip(s1, t1, 0);
        EntryRoundTrip(s2, t2, 0);
      }
      assert d1 == d2;
    }
  }

  /** For a task whose history is consistent, the response's history is
      present and its last entry names the response's status. */
  lemma ResponseLastEntryIsStatus(row: TaskRow, now: Instant)
    requires HistoryConsistent(row)
    ensures var d := ToResponseDTO(row, now);
      && d.statusHistory.Some? && d.status.Some?
      && d.statusHistory.value[|d.statusHistory.value| - 1].status == StatusName(d.status.value)
  {
    var h := row.statusHistory.value;
    var d := ToResponseDTO(row, now).statusHistory.value;
    assert |d| == |h| && d[|h| - 1] == ParseEntry(h[|h| - 1], now);
    ParseEntryStatusClockFree(h[|h| - 1], now);
  }

  /** The responses for a list of tasks, in the same order (`stream().map`). */
  function MapDTO(rows: seq<TaskRow>, now: Instant): (r: seq<TaskResponse>)
    ensures |r| == |rows|
    ensures forall i :: 0 <= i < |rows| ==> r[i] == ToResponseDTO(rows[i], now)
  {
    seq(|rows|, i requires 0 <= i < |rows| => ToResponseDTO(rows[i], now))
  }

  /** Mapping a permutation gives, position for position, the responses of
      tasks of the input, and the response of every input task. */
  lemma MapPermutation(sorted: seq<TaskRow>, rows: seq<TaskRow>, now: Instant)
    requires multiset(sorted) == multiset(rows)
    ensures forall i :: 0 <= i < |sorted| ==> MapDTO(sorted, now)[i] in MapDTO(rows, now)
    ensures forall j :: 0 <= j < |rows| ==> ToResponseDTO(rows[j], now) in MapDTO(sorted, now)
  {
    var m := MapDTO(sorted, now);
    forall i | 0 <= i < |sorted|
      ensures m[i] in MapDTO(rows, now)
    {
      assert sorted[i] in multiset(rows);
      var j :| 0 <= j < |rows| && rows[j] == sorted[i];
      assert MapDTO(rows, now)[j] == m[i];
    }
    forall j | 0 <= j < |rows|
      ensures ToResponseDTO(rows[j], now) in m
    {
      assert rows[j] in multiset(sorted);
      var i :| 0 <= i < |sorted| && sorted[i] == rows[j];
      assert m[i] == ToResponseDTO(rows[j], now);
    }
  }

  /** `x` is the response of some task of `rows` that matches the filters. */
  predicate IsResponseOfMatch(x: TaskResponse, rows: seq<TaskRow>, q: FilterQuery, today: Day, now: Instant) {
    exists t :: t in rows && MatchesFilters(t, q, Some(today)) && x == ToResponseDTO(t, now)
  }

  /** The responses of a permutation of the tasks of `rows` that match the
      filters are the responses of exactly those tasks. */
  lemma MapSelection(r: seq<TaskResponse>, sorted: seq<TaskRow>, found: seq<TaskRow>, rows: seq<TaskRow>,
                     q: FilterQuery, today: Day, now: Instant)
    requires r == MapDTO(sorted, now)
    requires multiset(sorted) == multiset(found)
    requires forall i :: 0 <= i < |found| ==> found[i] in rows && MatchesFilters(found[i], q, Some(today))
    requires forall i :: 0 <= i < |rows| && MatchesFilters(rows[i], q, Some(today)) ==> rows[i] in found
    ensures forall i :: 0 <= i < |r| ==>
      IsResponseOfMatch(r[i], rows, q, today, now)
    ensures forall t :: t in rows && MatchesFilters(t, q, Some(today)) ==> ToResponseDTO(t, now) in r
  {
    forall i | 0 <= i < |sorted|
      ensures exists t :: t in rows && MatchesFilters(t, q, Some(today)) && r[i] == ToResponseDTO(t, now)
    {
      assert sorted[i] in multiset(found);
      var j :| 0 <= j < |found| && found[j] == sorted[i];
      assert found[j] in rows && MatchesFilters(found[j], q, Some(today));
    }
    forall t | t in rows && MatchesFilters(t, q, Some(today))
      ensures ToResponseDTO(t, now) in r
    {
      var k :| 0 <= k < |rows| && rows[k] == t;
      assert t in multiset(sorted);
      var i :| 0 <= i < |sorted| && sorted[i] == t;
      assert r[i] == ToResponseDTO(t, now);
    }
  }

  /** `getAll(sortBy, sortOrder)`: every listed task once, in the listing's
      order when the sort field is missing or unknown, otherwise sorted. */
  function GetAll(rows: seq<TaskRow>, sortBy: Option<string>, sortOrder: Option<string>, now: Instant): (r: seq<TaskResponse>)
    ensures |r| == |rows|
    ensures ParseSortField(sortBy).None? ==> r == MapDTO(rows, now)
    ensures forall i :: 0 <= i < |r| ==> r[i] in MapDTO(rows, now)
    ensures forall j :: 0 <= j < |rows| ==> ToResponseDTO(rows[j], now) in r
    ensures r == MapDTO(ApplySorting(rows, sortBy, sortOrder), now)
  {
    var sorted := ApplySorting(rows, sortBy, sortOrder);
    MapPermutation(sorted, rows, now);
    MapDTO(sorted, now)
  }

  /** `filterTasks(...)`: the responses of exactly the tasks that match the
      filters, sorted as requested. */
  function FilterTasks(rows: seq<TaskRow>, q: FilterQuery, today: Day, sortBy: Option<string>,
                       sortOrder: Option<string>, now: Instant): (r: seq<TaskResponse>)
    ensures forall i :: 0 <= i < |r| ==>
      IsResponseOfMatch(r[i], rows, q, today, now)
    ensures forall t :: t in rows && MatchesFilters(t, q, Some(today)) ==> ToResponseDTO(t, now) in r
    ensures |r| == |FindWithFilters(rows, q, Some(today))|
    ensures r == MapDTO(ApplySorting(FindWithFilters(rows, q, Some(today)), sortBy, sortOrder), now)
  {
    var found := FindWithFilters(rows, q, Some(today));
    var sorted := ApplySorting(found, sortBy, sortOrder);
    var r := MapDTO(sorted, now);
    MapSelection(r, sorted, found, rows, q, today, now);
    r
  }

  /** With a known sort field, the responses of `getAll` are those of the
      listing rearranged into the requested order of that field's key, tasks
      with equal keys keeping their listing order. */
  lemma GetAllSorted(rows: seq<TaskRow>, sortBy: Option<string>, sortOrder: Option<string>, now: Instant)
    requires ParseSortField(sortBy).Some?
    ensures var f := ParseSortField(sortBy).value;
      exists s :: GetAll(rows, sortBy, sortOrder, now) == MapDTO(s, now)
        && multiset(s) == multiset(rows)
        && Sorted(f, Ascending(sortOrder), s)
        && forall k :: WithKey(f, s, k) == WithKey(f, rows, k)
  {
    ApplySortingOrdersStably(rows, sortBy, sortOrder);
    var s := ApplySorting(rows, sortBy, sortOrder);
    assert GetAll(rows, sortBy, sortOrder, now) == MapDTO(s, now);
  }

  /** With a known sort field, the responses of `filterTasks` are those of
      the matching tasks rearranged into the requested order of that field's
      key, tasks with equal keys keeping their listing order. */
  lemma FilterTasksSorted(rows: seq<TaskRow>, q: FilterQuery, today: Day, sortBy: Option<string>,
                          sortOrder: Option<string>, now: Instant)
    requires ParseSortField(sortBy).Some?
    ensures var f := ParseSortField(sortBy).value;
      var found := FindWithFilters(rows, q, Some(today));
      exists s :: FilterTasks(rows, q, today, sortBy, sortOrder, now) == MapDTO(s, now)
        && multiset(s) == multiset(found)
        && Sorted(f, Ascending(sortOrder), s)
        && forall k :: WithKey(f, s, k) == WithKey(f, found, k)
  {
    var found := FindWithFilters(rows, q, Some(today));
    ApplySortingOrdersStably(found, sortBy, sortOrder);
    var s := ApplySorting(found, sortBy, sortOrder);
    assert FilterTasks(rows, q, today, sortBy, sortOrder, now) == MapDTO(s, now);
  }

  /** `getTasksDueToday()`: `filterTasks` with both bounds on `today` and no
      sorting. `today` is the method's own clock reading and `filterToday` the
      one `filterTasks` takes again. While they agree this is the tasks due
      today, in the listing's order; when the call straddles midnight the
      query's last clause becomes active and drops the COMPLETED ones (and
      those without a status). */
  function GetTasksDueToday(rows: seq<TaskRow>, today: Day, filterToday: Day, now: Instant): (r: seq<TaskResponse>)
    ensures filterToday <= today ==> r == MapDTO(Filter(rows, DueOn(today)), now)
    ensures filterToday > today ==> r == MapDTO(Filter(rows, DueOnNotCompleted(today)), now)
  {
    var q := NoFilters.(dueDateFrom := Some(today), dueDateTo := Some(today));
    if filterToday <= today then
      SameDayBoundsSelectDueOn(rows, today, Some(filterToday));
      FilterTasks(rows, q, filterToday, None, None, now)
    else
      SameDayBoundsInPast(rows, today, filterToday);
      FilterTasks(rows, q, filterToday, None, None, now)
  }

  /** The stream filter `task.getStatus() != Status.COMPLETED`, a null status
      included. */
  function NotCompleted(): TaskRow -> bool {
    (t: TaskRow) => t.status != Some(COMPLETED)
  }

  /** Due before `d` with a status other than COMPLETED (a null status kept). */
  function DueBeforeNotCompleted(d: Day): TaskRow -> bool {
    (t: TaskRow) => t.dueDate.Some? && t.dueDate.value < d && t.status != Some(COMPLETED)
  }

  /** The repository's date filter followed by the stream's status filter is
      one filter on both conditions. */
  lemma OverdueListFilter(rows: seq<TaskRow>, today: Day)
    ensures Filter(FindByDueDateBefore(rows, today), NotCompleted()) == Filter(rows, DueBeforeNotCompleted(today))
  {
    FilterFilter(rows, DueBefore(today), NotCompleted());
    FilterCongruent(rows, (x: TaskRow) => DueBefore(today)(x) && NotCompleted()(x), DueBeforeNotCompleted(today));
  }

  /** `getOverdueTasks()`: the tasks due before today whose status is not
      COMPLETED, in the listing's order. */
  function GetOverdueTasks(rows: seq<TaskRow>, today: Day, now: Instant): (r: seq<TaskResponse>)
    ensures |r| <= |rows|
    ensures forall i :: 0 <= i < |r| ==>
      exists t :: t in rows && t.dueDate.Some? && t.dueDate.value < today && t.status != Some(COMPLETED)
        && r[i] == ToResponseDTO(t, now)
    ensures forall t :: t in rows && t.dueDate.Some? && t.dueDate.value < today && t.status != Some(COMPLETED) ==>
      ToResponseDTO(t, now) in r
    ensures r == MapDTO(Filter(rows, DueBeforeNotCompleted(today)), now)
  {
    var before := FindByDueDateBefore(rows, today);
    var kept := Filter(before, NotCompleted());
    FilterSound(before, NotCompleted());
    OverdueListFilter(rows, today);
    var r := MapDTO(kept, now);
    forall i | 0 <= i < |r|
      ensures exists t ::
        t in rows && t.dueDate.Some? && t.dueDate.value < today && t.status != Some(COMPLETED) && r[i] == ToResponseDTO(t, now)
    {
      var t := kept[i];
      assert t in before;
      var j :| 0 <= j < |before| && before[j] == t;
      assert t in multiset(rows);
    }
    forall t | t in rows && t.dueDate.Some? && t.dueDate.value < today && t.status != Some(COMPLETED)
      ensures ToResponseDTO(t, now) in r
    {
      var k :| 0 <= k < |rows| && rows[k] == t;
      assert t in before;
      var j :| 0 <= j < |before| && before[j] == t;
      assert t in kept;
      var i :| 0 <= i < |kept| && kept[i] == t;
      assert r[i] == ToResponseDTO(t, now);
    }
    r
  }

  /** The two overdue filters agree on tasks that have a status. */
  lemma {:induction false} OverdueFiltersAgree(rows: seq<TaskRow>, today: Day)
    requires forall i :: 0 <= i < |rows| ==> rows[i].status.Some?
    ensures Filter(Filter(rows, DueBefore(today)), NotCompleted()) == Filter(rows, OverdueHolds(today))
  {
    if rows != [] {
      OverdueFiltersAgree(rows[1..], today);
    }
  }

  /** When every task has a status, the overdue list and the overdue count of
      the statistics agree. */
  lemma OverdueListMatchesCount(rows: seq<TaskRow>, today: Day, now: Instant)
    requires forall i :: 0 <= i < |rows| ==> rows[i].status.Some?
    ensures |GetOverdueTasks(rows, today, now)| == CountOverdueTasks(rows, today)
  {
    OverdueFiltersAgree(rows, today);
  }

  /** `TaskStatsDTO`. */
  datatype TaskStats = TaskStats(open: nat, inProgress: nat, completed: nat, overdue: nat, total: nat)

  /** `getStatistics()`. */
  function GetStatistics(rows: seq<TaskRow>, today: Day): (r: TaskStats)
    ensures r.total == |rows|
    ensures r.open <= r.total && r.inProgress <= r.total && r.completed <= r.total && r.overdue <= r.total
    ensures r.open == |Filter(rows, (t: TaskRow) => t.status == Some(OPEN))|
    ensures r.inProgress == |Filter(rows, (t: TaskRow) => t.status == Some(IN_PROGRESS))|
    ensures r.completed == |Filter(rows, (t: TaskRow) => t.status == Some(COMPLETED))|
    ensures r.overdue == |Filter(rows, (t: TaskRow) => IsOverdue(t, today))|
  {
    TaskStats(CountByStatus(rows, OPEN), CountByStatus(rows, IN_PROGRESS), CountByStatus(rows, COMPLETED),
      CountOverdueTasks(rows, today), |rows|)
  }

  /** When every task has a status, the per-status counts add up to the
      total. */
  lemma StatisticsAddUp(rows: seq<TaskRow>, today: Day)
    requires forall i :: 0 <= i < |rows| ==> rows[i].status.Some?
    ensures var st := GetStatistics(rows, today);
      st.open + st.inProgress + st.completed == st.total
  {
    StatusCountsPartition(rows);
    FilterNone(rows, StatusIsNull());
  }

  /** The invariant of a stored task: it is filed under its own id, its title
      is not blank, and its history is consistent and written by the entity. */
  ghost predicate Stored(id: Uuid, row: TaskRow) {
    && row.id == Some(id)
    && NotBlank(row.title)
    && HistoryConsistent(row)
    && WellFormedHistory(HistoryOrEmpty(row.statusHistory))
  }

  /** What `update` does to the fields of a stored task. */
  function Edited(row: TaskRow, req: TaskRequest): (r: TaskRow)
    ensures r.title == req.title && r.description == req.description && r.dueDate == req.dueDate
    ensures req.priority.Some? ==> r.priority == req.priority
    ensures req.priority.None? ==> r.priority == row.priority
    ensures r.(title := row.title, description := row.description, priority := row.priority, dueDate := row.dueDate) == row
  {
    row.(title := req.title,
         description := req.description,
         priority := if req.priority.Some? then req.priority else row.priority,
         dueDate := req.dueDate)
  }

  /** An update with a non-blank title keeps a stored task stored. */
  lemma EditedStored(id: Uuid, row: TaskRow, req: TaskRequest)
    requires Stored(id, row) && NotBlank(req.title)
    ensures Stored(id, Edited(row, req))
  {
    assert HistoryOrEmpty(Edited(row, req).statusHistory) == HistoryOrEmpty(row.statusHistory);
  }

  /** A status transition keeps a stored task stored. */
  lemma TransitionStored(id: Uuid, row: TaskRow, newStatus: Status, changedAt: Instant, loggedAt: Instant)
    requires Stored(id, row)
    ensures Stored(id, StatusUpdated(row, newStatus, changedAt, loggedAt))
  {
    StatusUpdatedWellFormed(row, newStatus, changedAt, loggedAt);
  }

  /** Every task of `store` is stored under its id. */
  ghost predicate AllStored(store: map<Uuid, TaskRow>) {
    forall id :: id in store ==> Stored(id, store[id])
  }

  /** Writing a stored task keeps the store valid. */
  lemma StoreWrite(store: map<Uuid, TaskRow>, id: Uuid, row: TaskRow)
    requires AllStored(store) && Stored(id, row)
    ensures AllStored(store[id := row])
  {
    var written := store[id := row];
    forall x | x in written
      ensures Stored(x, written[x])
    {
      if x != id {
        assert written[x] == store[x];
        assert Stored(x, store[x]);
      }
    }
  }

  /** Removing a task keeps the store valid. */
  lemma StoreRemove(store: map<Uuid, TaskRow>, id: Uuid)
    requires AllStored(store)
    ensures AllStored(store - {id})
  {
    forall x | x in store - {id}
      ensures Stored(x, (store - {id})[x])
    {
      assert (store - {id})[x] == store[x];
      assert Stored(x, store[x]);
    }
  }

  /** `rows` lists the tasks of `store`, each once. */
  ghost predicate Lists(rows: seq<TaskRow>, store: map<Uuid, TaskRow>) {
    && |rows| == |store|
    && (forall i :: 0 <= i < |rows| ==> rows[i].id.Some? && rows[i].id.value in store && store[rows[i].id.value] == rows[i])
    && (forall i, j :: 0 <= i < j < |rows| ==> rows[i] != rows[j])
  }

  /** The service over its store. */
  class TaskService {
    var store: map<Uuid, TaskRow>

    ghost predicate Valid()
      reads this
    {
      AllStored(store)
    }

    constructor ()
      ensures store == map[]
      ensures Valid()
    {
      store := map[];
    }

    /** A listing of a valid store holds only tasks that have a status, so its
        statistics add up and its overdue list matches its overdue count. */
    lemma ListingHasStatuses(rows: seq<TaskRow>)
      requires Valid() && Lists(rows, store)
      ensures forall i :: 0 <= i < |rows| ==> rows[i].status.Some?
    {
      forall i | 0 <= i < |rows|
        ensures rows[i].status.Some?
      {
        assert Stored(rows[i].id.value, store[rows[i].id.value]);
      }
    }

    /** `getById(id)`. */
    method GetById(id: Uuid, now: Instant) returns (r: Result<TaskResponse>)
      requires Valid()
      ensures r.Ok? <==> id in store
      ensures r.Err? ==> r.error == NotFound(id)
      ensures r.Ok? ==> r.value == ToResponseDTO(store[id], now)
      ensures r.Ok? ==> r.value.id == Some(id) && r.value.status.Some? && r.value.statusHistory.Some?
      ensures r.Ok? ==>
        r.value.statusHistory.value[|r.value.statusHistory.value| - 1].status == StatusName(r.value.status.value)
    {
      if id !in store {
        return Err(NotFound(id));
      }
      var row := store[id];
      assert Stored(id, row);
      ResponseLastEntryIsStatus(row, now);
      r := Ok(ToResponseDTO(row, now));
    }

    /** `create(request)`. `newId` is the generated id, `createdNow` and
        `updatedNow` the two clock readings of the service, `persistNow` the
        one of `onCreate`, `readNow` the one of the response mapping. */
    method Create(req: TaskRequest, newId: Uuid, createdNow: Instant, updatedNow: Instant,
                  persistNow: Instant, readNow: Instant) returns (r: TaskResponse)
      requires Valid() && newId !in store && NotBlank(req.title)
      modifies this
      ensures Valid()
      ensures store == old(store)[newId := TaskRow(
        Some(newId), req.title, req.description,
        Some(if req.priority.Some? then req.priority.value else MEDIUM),
        req.dueDate, Some(OPEN), Some(createdNow), Some(updatedNow),
        Some([Entry(OPEN, persistNow)]))]
      ensures r == ToResponseDTO(store[newId], readNow)
    {
      var task := new Task();
      task.SetTitle(req.title);
      task.SetDescription(req.description);
      task.SetPriority(if req.priority.Some? then req.priority else Some(MEDIUM));
      task.SetDueDate(req.dueDate);
      task.SetStatus(Some(OPEN));
      task.SetCreatedAt(Some(createdNow));
      task.SetStatusUpdatedAt(Some(updatedNow));
      // `save` of a new entity: the id is generated, then `@PrePersist` runs.
      task.SetId(Some(newId));
      task.OnCreate(persistNow);
      var saved := task.Snapshot();
      assert saved.statusHistory.value[0] == Entry(OPEN, persistNow);
      assert Stored(newId, saved);
      StoreWrite(store, newId, saved);
      store := store[newId := saved];
      r := ToResponseDTO(saved, readNow);
    }

    /** `update(id, request)`: title, description and due date overwritten,
        even with null; the priority kept when the request has none; status,
        timestamps and history untouched. */
    method Update(id: Uuid, req: TaskRequest, readNow: Instant) returns (r: Result<TaskResponse>)
      requires Valid() && NotBlank(req.title)
      modifies this
      ensures Valid()
      ensures id !in old(store) ==> r == Err(NotFound(id)) && store == old(store)
      ensures id in old(store) ==>
        && store == old(store)[id := Edited(old(store)[id], req)]
        && r == Ok(ToResponseDTO(store[id], readNow))
    {
      if id !in store {
        return Err(NotFound(id));
      }
      var task := new Task.WithFields(store[id]);
      task.SetTitle(req.title);
      task.SetDescription(req.description);
      task.SetPriority(if req.priority.Some? then req.priority else task.priority);
      task.SetDueDate(req.dueDate);
      var saved := task.Snapshot();
      assert saved == Edited(store[id], req);
      EditedStored(id, store[id], req);
      StoreWrite(store, id, saved);
      store := store[id := saved];
      r := Ok(ToResponseDTO(saved, readNow));
    }

    /** `updateStatus(id, newStatus)`: the entity's guarded transition on the
        stored task. */
    method UpdateStatus(id: Uuid, newStatus: Status, changedAt: Instant, loggedAt: Instant,
                        readNow: Instant) returns (r: Result<TaskResponse>)
      requires Valid()
      modifies this
      ensures Valid()
      ensures id !in old(store) ==> r == Err(NotFound(id)) && store == old(store)
      ensures id in old(store) ==>
        && store == old(store)[id := StatusUpdated(old(store)[id], newStatus, changedAt, loggedAt)]
        && r == Ok(ToResponseDTO(store[id], readNow))
    {
      if id !in store {
        return Err(NotFound(id));
      }
      var task := new Task.WithFields(store[id]);
      task.UpdateStatus(newStatus, changedAt, loggedAt);
      var saved := task.Snapshot();
      TransitionStored(id, store[id], newStatus, changedAt, loggedAt);
      StoreWrite(store, id, saved);
      store := store[id := saved];
      r := Ok(ToResponseDTO(saved, readNow));
    }

    /** `delete(id)`. */
    method Delete(id: Uuid) returns (r: Result<()>)
      requires Valid()
      modifies this
      ensures Valid()
      ensures id !in old(store) ==> r == Err(NotFound(id)) && store == old(store)
      ensures id in old(store) ==> r == Ok(()) && store == old(store) - {id}
    {
      if id !in store {
        return Err(NotFound(id));
      }
      StoreRemove(store, id);
      store := store - {id};
      r := Ok(());
    }
  }
}
