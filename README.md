# task-flow, modelled in Dafny

task-flow is a small task tracker with a Spring backend and a browser client.
A task has a title, an optional description, a priority (HIGH, MEDIUM, LOW), an
optional due date and a status (OPEN, IN_PROGRESS, COMPLETED). It also keeps a
status history: a list of `NAME|instant` strings. This project models the
sequential logic behind that:

- **The `Task` entity** (`TaskModel.dfy`). This is a class whose fields are
  updated in place.
  - `onCreate` fills in the defaults when the task is persisted.
  - `updateStatus` is a guarded transition that appends one history entry.
  - The plain setters change one field each.
  - `TaskRow` is the value of all the fields at one moment, and is what the
    store keeps.
- **The history format** (`History.dfy`). `createStatusHistoryEntry` writes an
  entry. `parseStatusHistoryEntry` reads it back and never fails. The model
  follows Java's `split("\\|")`, which drops trailing empty fields.
- **The repository queries** (`Repository.dfy`).
  - The JPQL WHERE clauses of `findWithFilters` and `countOverdueTasks` are
    written clause by clause in SQL's three-valued logic.
  - Each clause is proved equal to a plain two-valued condition.
  - `findByDueDateBefore` and `countByStatus` are filters over the listing.
- **The sort policy of `applySorting`** (`Sorting.dfy`).
  - The sort field is matched by name, ignoring case. Each field has a key,
    with its own handling of nulls.
  - The direction is ascending unless the request says "DESC".
  - The sort is a stable insertion sort. It is proved to return a permutation
    that is sorted by the key, with equal keys kept in input order.
- **`TaskService`** (`Service.dfy`).
  - `toResponseDTO` maps a task to its response.
  - The read-only queries are pipelines over the repository's listing.
  - `create`, `update`, `updateStatus`, `delete` and `getById` are methods of a
    class. The class holds the store as a map from id to stored task.
  - The class invariant is that every stored task is filed under its own id,
    has a non-blank title, and has a history whose last entry names its
    status.
- **The client helpers of `utils.js`** (`ClientUtils.dfy`): `formatDate`,
  `getDateRange` and the badge classes. Dates are whole epoch days.
  `Integration.dfy` states what each quick date filter of the client selects
  on the server.

Supporting modules:

- `Common.dfy`: `Option`, and `Filter` (a stream `filter` or a WHERE clause
  over a listing).
- `Text.dfy`: lower-casing, substring search, first-occurrence replacement and
  decimal text.
- `Instants.dfy`: instants as nanoseconds, dates as epoch days, and the text
  form of an instant.
- `Domain.dfy`: the two enumerations.

Clock readings are parameters. Each separate `Instant.now()` or
`LocalDate.now()` call in the source gets its own parameter. So do the
generated id and the date text the browser localises.

## Model

| member | source | states |
|---|---|---|
| `Domain.StatusName` | src/main/java/erdem/taskflow/model/Task.java:89-91 | a status name is non-empty and contains no '\|' |
| `Domain.PriorityName` | src/main/java/erdem/taskflow/model/Task.java:34-36 | a priority name is non-empty and contains no '\|' |
| `Domain.StatusNameInjective` | src/main/java/erdem/taskflow/model/Task.java:90 | different statuses have different names, so an entry's name identifies its status |
| `Instants.InstantText` | src/main/java/erdem/taskflow/model/Task.java:90 | the text of an instant is non-empty and contains no '\|' |
| `Instants.InstantTextRoundTrip` | src/main/java/erdem/taskflow/service/TaskService.java:255 | parsing the text of an instant gives the instant back |
| `History.Entry` | src/main/java/erdem/taskflow/model/Task.java:89-91 | an entry holds exactly one '\|' and starts with the status name |
| `History.ParseEntry` | src/main/java/erdem/taskflow/service/TaskService.java:247-264 | "" decodes to "UNKNOWN"; otherwise the status is a prefix of the entry; a time other than `now` only comes from a two-field split whose second field parses to it |
| `History.EntryRoundTrip` | src/main/java/erdem/taskflow/service/TaskService.java:252-255 | decoding `Entry(s, t)` gives `(s.name(), t)`, whatever the clock reads |
| `History.EntryStatusOfEntry` | src/main/java/erdem/taskflow/service/TaskService.java:253-255 | the status decoded from `Entry(s, t)` is `s.name()` |
| `History.PlainEntryIsStatus` | src/main/java/erdem/taskflow/service/TaskService.java:261-263 | an entry without '\|' decodes to (whole entry, now) |
| `History.TrailingBarEntryIsStatus` | src/main/java/erdem/taskflow/service/TaskService.java:252-263 | "OPEN\|" splits into one field, so the whole text, bar included, is the status |
| `History.UnreadableTimeFallsBack` | src/main/java/erdem/taskflow/service/TaskService.java:256-259 | two fields with an unreadable time decode to (first field, now) |
| `History.TwoFieldsDecode` | src/main/java/erdem/taskflow/service/TaskService.java:252-255 | two fields whose second reads as an instant decode to (first field, that instant) for any first field, even an empty one |
| `History.JavaSplit` | src/main/java/erdem/taskflow/service/TaskService.java:252 | text without '\|' is its own single field; otherwise the fields in order, with only empty fields dropped, and only from the end |
| `History.ThreeFieldsIsStatus` | src/main/java/erdem/taskflow/service/TaskService.java:261-263 | three fields are a wrong count: (whole entry, now) |
| `TaskModel.Created` | src/main/java/erdem/taskflow/model/Task.java:52-71 | createdAt, status (OPEN) and statusUpdatedAt are filled only when null; an empty or null history gets exactly one entry for the status and becomes consistent; a non-empty history is kept; nothing else changes |
| `TaskModel.StatusUpdated` | src/main/java/erdem/taskflow/model/Task.java:78-87 | the same status is a no-op; a new one sets status and statusUpdatedAt and appends exactly one entry for it; earlier entries are kept (prefix); other fields are unchanged; a consistent history stays consistent |
| `TaskModel.NullHistoryStartsAfresh` | src/main/java/erdem/taskflow/model/Task.java:82-85 | a transition on a null history yields the one new entry |
| `TaskModel.StatusUpdatedWellFormed` | src/main/java/erdem/taskflow/model/Task.java:85 | transitions keep every entry in the `NAME\|instant` format |
| `TaskModel.SetStatusCanBreakHistory` | src/main/java/erdem/taskflow/model/Task.java:138-140 | `setStatus` can leave the last entry naming a status the task no longer has |
| `TaskModel.Task.constructor` | src/main/java/erdem/taskflow/model/Task.java:50 | a new task has every field null except an empty history |
| `TaskModel.Task.WithFields` | src/main/java/erdem/taskflow/model/Task.java:20 | the all-arguments constructor sets every field |
| `TaskModel.Task.OnCreate` | src/main/java/erdem/taskflow/model/Task.java:52-71 | the fields become `Created(old fields, now)`; set values are never overwritten |
| `TaskModel.Task.UpdateStatus` | src/main/java/erdem/taskflow/model/Task.java:78-87 | the fields become `StatusUpdated(old fields, ...)`; the history only grows; consistency is preserved |
| `TaskModel.Task.SetId` | src/main/java/erdem/taskflow/model/Task.java:97-99 | only the id changes |
| `TaskModel.Task.SetTitle` | src/main/java/erdem/taskflow/model/Task.java:106-108 | only the title changes |
| `TaskModel.Task.SetDescription` | src/main/java/erdem/taskflow/model/Task.java:114-116 | only the description changes |
| `TaskModel.Task.SetPriority` | src/main/java/erdem/taskflow/model/Task.java:122-124 | only the priority changes |
| `TaskModel.Task.SetDueDate` | src/main/java/erdem/taskflow/model/Task.java:130-132 | only the due date changes |
| `TaskModel.Task.SetStatus` | src/main/java/erdem/taskflow/model/Task.java:138-140 | only the status changes: neither the history nor statusUpdatedAt |
| `TaskModel.Task.SetCreatedAt` | src/main/java/erdem/taskflow/model/Task.java:146-148 | only createdAt changes |
| `TaskModel.Task.SetStatusUpdatedAt` | src/main/java/erdem/taskflow/model/Task.java:154-156 | only statusUpdatedAt changes |
| `TaskModel.Task.SetStatusHistory` | src/main/java/erdem/taskflow/model/Task.java:162-164 | only the history changes |
| `Repository.FindWithFiltersWhere` | src/main/java/erdem/taskflow/repository/TaskRepository.java:22-28 | the three-valued WHERE clause is TRUE exactly when the two-valued `MatchesFilters` holds |
| `Repository.FindWithFilters` | src/main/java/erdem/taskflow/repository/TaskRepository.java:22-36 | the result is a sub-multiset of the stored tasks; every returned task matches; every matching task is returned |
| `Repository.NoFiltersKeepsAll` | src/main/java/erdem/taskflow/repository/TaskRepository.java:22-28 | with every parameter null, all tasks are returned |
| `Repository.NullColumnNeverMatches` | src/main/java/erdem/taskflow/repository/TaskRepository.java:23-24 | a null status or priority never matches a non-null filter |
| `Repository.NoDueDateFailsBounds` | src/main/java/erdem/taskflow/repository/TaskRepository.java:25-26 | a task without a due date fails either date bound |
| `Repository.SameDayBoundsSelectDueOn` | src/main/java/erdem/taskflow/repository/TaskRepository.java:25-26 | with from = to = d (not before today) the result is exactly the tasks due on d, in listing order |
| `Repository.SameDayBoundsInPast` | src/main/java/erdem/taskflow/repository/TaskRepository.java:25-28 | with from = to = d before today, the result is exactly the tasks due on d with a status other than COMPLETED |
| `Repository.SearchMatchesTitleOrDescription` | src/main/java/erdem/taskflow/repository/TaskRepository.java:27 | the term matches, ignoring case, in the title or in the description; a null in one does not block the other |
| `Repository.PastDueDateToExcludesCompleted` | src/main/java/erdem/taskflow/repository/TaskRepository.java:28 | when dueDateTo is before today, only tasks with a status other than COMPLETED pass |
| `Repository.GuardInactive` | src/main/java/erdem/taskflow/repository/TaskRepository.java:28 | when today or dueDateTo is null, or dueDateTo >= today, the last clause constrains nothing |
| `Repository.OverdueWhere` | src/main/java/erdem/taskflow/repository/TaskRepository.java:38 | the clause is TRUE exactly for a due date before today and a status other than COMPLETED |
| `Repository.CountOverdueTasks` | src/main/java/erdem/taskflow/repository/TaskRepository.java:38-39 | the count is the number of tasks due before today whose status is present and not COMPLETED |
| `Repository.CountByStatus` | src/main/java/erdem/taskflow/repository/TaskRepository.java:18 | the count is the number of tasks whose status is the given one; a null status is never counted |
| `Repository.FindByDueDateBefore` | src/main/java/erdem/taskflow/repository/TaskRepository.java:20 | exactly the stored tasks due strictly before the date |
| `Repository.StatusCountsPartition` | src/main/java/erdem/taskflow/repository/TaskRepository.java:18 | the three per-status counts plus the status-less tasks add up to the total |
| `Sorting.PriorityRank` | src/main/java/erdem/taskflow/service/TaskService.java:176-183 | the rank lies in 1..4, and it is 4 exactly for a null priority |
| `Sorting.KeyOfFields` | src/main/java/erdem/taskflow/service/TaskService.java:176-206 | priority by rank; a null due date as `LocalDate.MAX`; the title lower-cased, a null title as ""; a null createdAt as `Instant.MIN`; only titles compare as text |
| `Sorting.SortBy` | src/main/java/erdem/taskflow/service/TaskService.java:216-218 | the sort keeps the number of tasks (its full correctness is `SortByCorrect`) |
| `Sorting.Ascending` | src/main/java/erdem/taskflow/service/TaskService.java:169 | descending exactly when the order is present and is "DESC" in some casing; ascending for every other value, null included |
| `Sorting.OrderedLaws` | src/main/java/erdem/taskflow/service/TaskService.java:189-208 | the key order in either direction is a total preorder whose ties are equal keys |
| `Sorting.LexLeTransitive` | src/main/java/erdem/taskflow/service/TaskService.java:197-200 | string `compareTo` order is transitive (with `LexLeTotal` and `LexLeAntisymmetric`: a total order) |
| `Sorting.LexLeTotal` | src/main/java/erdem/taskflow/service/TaskService.java:197-200 | any two strings are comparable |
| `Sorting.LexLeAntisymmetric` | src/main/java/erdem/taskflow/service/TaskService.java:197-200 | strings ordered both ways are equal |
| `Sorting.InsertStable` | src/main/java/erdem/taskflow/service/TaskService.java:216-218 | inserting keeps the tasks of each key in order, with the new one last |
| `Sorting.SortByCorrect` | src/main/java/erdem/taskflow/service/TaskService.java:216-218 | the sort returns a permutation, sorted by the key, stable for every key |
| `Sorting.ParseSortField` | src/main/java/erdem/taskflow/service/TaskService.java:164-173 | a field is chosen only for a present, non-empty name |
| `Sorting.ParseSortFieldIgnoresCase` | src/main/java/erdem/taskflow/service/TaskService.java:173 | the field name is matched ignoring case |
| `Sorting.AscendingExamples` | src/main/java/erdem/taskflow/service/TaskService.java:169 | null, "asc" and "" sort ascending; "DESC" in any case sorts descending |
| `Sorting.ApplySorting` | src/main/java/erdem/taskflow/service/TaskService.java:161-221 | a missing, empty or unknown field returns the input itself; otherwise a permutation of it |
| `Sorting.ApplySortingOrdersStably` | src/main/java/erdem/taskflow/service/TaskService.java:184-218 | with a known field the result is sorted by its key in the requested direction, and equal keys keep input order |
| `Sorting.PriorityAscendingOrder` | src/main/java/erdem/taskflow/service/TaskService.java:176-185 | ascending by priority: HIGH, MEDIUM, LOW, then no priority |
| `Sorting.NoDueDateSortsLast` | src/main/java/erdem/taskflow/service/TaskService.java:189-192 | ascending by due date: tasks without a due date come after every dated task |
| `Service.ToResponseDTO` | src/main/java/erdem/taskflow/service/TaskService.java:223-245 | every scalar is copied; a null or empty history becomes null; otherwise one decoded entry per stored entry, in order |
| `Service.DecodedEntryIsExact` | src/main/java/erdem/taskflow/service/TaskService.java:236-239 | an entry written by the entity decodes without fallback to its status name and instant |
| `Service.ResponseClockFree` | src/main/java/erdem/taskflow/service/TaskService.java:247-263 | for a well-formed history the response does not depend on the fallback clock |
| `Service.ResponseLastEntryIsStatus` | src/main/java/erdem/taskflow/service/TaskService.java:236-242 | for a consistent task, the response's last history entry names its status |
| `Service.MapPermutation` | src/main/java/erdem/taskflow/service/TaskService.java:41-43 | mapping a permutation yields only responses of input tasks, and all of them |
| `Service.MapDTO` | src/main/java/erdem/taskflow/service/TaskService.java:41-43 | one response per task, in the same order |
| `Service.Edited` | src/main/java/erdem/taskflow/service/TaskService.java:80-83 | title, description and due date are taken from the request (null included); the priority only when the request has one; every other field is kept |
| `Service.MapSelection` | src/main/java/erdem/taskflow/service/TaskService.java:121-129 | mapping a reordering of the matching tasks yields the responses of exactly the matching tasks |
| `Service.GetAll` | src/main/java/erdem/taskflow/service/TaskService.java:35-46 | one response per task, every task's response present; listing order when no known sort field; in every case the responses of `ApplySorting` of the listing, in that order |
| `Service.FilterTasks` | src/main/java/erdem/taskflow/service/TaskService.java:112-132 | every response is that of a stored task matching the filters (`IsResponseOfMatch`), and every matching task's response is present; as many responses as matching tasks; the responses of `ApplySorting` of the query's result, in that order |
| `Service.GetAllSorted` | src/main/java/erdem/taskflow/service/TaskService.java:39-43 | with a known sort field, the responses are those of a rearrangement of the listing that is sorted by the field's key in the requested direction, equal keys in listing order |
| `Service.FilterTasksSorted` | src/main/java/erdem/taskflow/service/TaskService.java:120-128 | with a known sort field, the responses are those of a rearrangement of the matching tasks that is sorted by the field's key in the requested direction, equal keys in query order |
| `Service.GetTasksDueToday` | src/main/java/erdem/taskflow/service/TaskService.java:117-159 | with the two clock readings on the same day (or the second earlier): the tasks due today, in listing order; when the second reading is a later day: only those due today whose status is present and not COMPLETED |
| `Service.GetOverdueTasks` | src/main/java/erdem/taskflow/service/TaskService.java:148-154 | the responses of exactly the tasks due before today whose status is not COMPLETED, in the listing's order |
| `Service.OverdueListFilter` | src/main/java/erdem/taskflow/service/TaskService.java:148-151 | the date query followed by the status filter is one filter on both conditions |
| `Service.OverdueFiltersAgree` | src/main/java/erdem/taskflow/service/TaskService.java:149-151 | on tasks that have a status, "due before today, then not COMPLETED" selects the same tasks, in the same order, as the overdue count's WHERE clause |
| `Service.OverdueListMatchesCount` | src/main/java/erdem/taskflow/service/TaskService.java:139 | when every task has a status, the overdue list is as long as the overdue count |
| `Service.GetStatistics` | src/main/java/erdem/taskflow/service/TaskService.java:134-146 | open, in progress and completed are the numbers of tasks with that status, overdue the number of overdue tasks, total the number of tasks; each count is at most the total |
| `Service.StatisticsAddUp` | src/main/java/erdem/taskflow/service/TaskService.java:136-140 | when every task has a status, open + in progress + completed = total |
| `Service.EditedStored` | src/main/java/erdem/taskflow/service/TaskService.java:80-85 | an update with a non-blank title keeps a stored task valid |
| `Service.TransitionStored` | src/main/java/erdem/taskflow/service/TaskService.java:97-100 | a status transition keeps a stored task valid |
| `Service.TaskService.constructor` | src/main/java/erdem/taskflow/service/TaskService.java:30-33 | the store starts empty and valid |
| `Service.TaskService.ListingHasStatuses` | src/main/java/erdem/taskflow/service/TaskService.java:134-154 | every task listed from a valid store has a status |
| `Service.TaskService.GetById` | src/main/java/erdem/taskflow/service/TaskService.java:48-52 | Ok with the task's response exactly when the id is stored, else NotFound(id); the response's last history entry names its status |
| `Service.TaskService.Create` | src/main/java/erdem/taskflow/service/TaskService.java:54-74 | one task is added under the new id: status OPEN, priority defaulting to MEDIUM, title, description and due date copied, both timestamps set, history one OPEN entry; the store stays valid |
| `Service.TaskService.Update` | src/main/java/erdem/taskflow/service/TaskService.java:76-87 | unknown id: NotFound and the store unchanged; otherwise title, description and due date overwritten (even with null), priority kept when absent, status, timestamps and history untouched |
| `Service.TaskService.UpdateStatus` | src/main/java/erdem/taskflow/service/TaskService.java:89-103 | unknown id: NotFound and the store unchanged; otherwise the entity's transition on the stored task; the store stays valid |
| `Service.TaskService.Delete` | src/main/java/erdem/taskflow/service/TaskService.java:105-110 | unknown id: NotFound and the store unchanged; otherwise exactly that task is removed |
| `ClientUtils.FormatDate` | src/main/resources/static/js/utils.js:3-25 | no date gives the plain string "No due date"; a date gives a `{text, class}` badge |
| `ClientUtils.FormatDateClass` | src/main/resources/static/js/utils.js:14-24 | the class is "overdue" exactly before today, "due-today" exactly today, and "" exactly after |
| `ClientUtils.FormatDateBuckets` | src/main/resources/static/js/utils.js:16-24 | today gives "Due today", tomorrow "Due tomorrow", 2..7 days "Due in n days", beyond a week the localised date |
| `ClientUtils.OverdueTextReadsBack` | src/main/resources/static/js/utils.js:14-15 | the number in "Overdue (n days)" is digits with no leading zero and reads back as the days late |
| `ClientUtils.DueInTextReadsBack` | src/main/resources/static/js/utils.js:20-21 | the number in "Due in n days" is digits with no leading zero and reads back as the days ahead |
| `ClientUtils.DayOfWeek` | src/main/resources/static/js/utils.js:89 | the weekday lies in 0..6 |
| `ClientUtils.GetDateRange` | src/main/resources/static/js/utils.js:67-103 | 'overdue' sets only dueDateTo, to yesterday; 'today' sets both to today; other values set nothing |
| `ClientUtils.ThisWeekContainsToday` | src/main/resources/static/js/utils.js:87-98 | 'this-week' runs from a Sunday on or before today to six days later, so it contains today |
| `ClientUtils.PriorityClass` | src/main/resources/static/js/utils.js:39-41 | "" for a missing or empty name, otherwise "badge-priority-" followed by the lower-cased name |
| `ClientUtils.StatusClass` | src/main/resources/static/js/utils.js:43-45 | "" for a missing or empty name, otherwise "badge-status-" and as many characters as the name |
| `ClientUtils.StatusClassAt` | src/main/resources/static/js/utils.js:44 | after the prefix: the name lower-cased, its first '_' and only that one made '-' |
| `ClientUtils.StatusClassReplacesFirstOnly` | src/main/resources/static/js/utils.js:44 | a second '_' in the name stays a '_' |
| `ClientUtils.StatusClassOfInProgress` | src/main/resources/static/js/utils.js:43-45 | IN_PROGRESS gives "badge-status-in-progress" |
| `ClientUtils.PriorityCardClass` | src/main/resources/static/js/utils.js:47-49 | "" for a missing or empty name, otherwise the lower-cased name followed by "-priority" |
| `ClientUtils.PriorityClassOfName` | src/main/resources/static/js/utils.js:39-41 | HIGH, MEDIUM and LOW give "badge-priority-high", "badge-priority-medium" and "badge-priority-low" |
| `ClientUtils.PriorityCardClassOfName` | src/main/resources/static/js/utils.js:47-49 | HIGH, MEDIUM and LOW give "high-priority", "medium-priority" and "low-priority" |
| `Integration.TodayFilterSelectsDueToday` | src/main/resources/static/js/utils.js:81-86 | the 'today' range selects exactly the tasks due today |
| `Integration.OverdueFilterSelectsOverdue` | src/main/resources/static/js/utils.js:75-80 | the 'overdue' range selects exactly the overdue tasks, as many as the overdue count |
| `Integration.ThisWeekFilterSelectsWeek` | src/main/resources/static/js/utils.js:87-98 | the 'this-week' range selects exactly the tasks due that week, COMPLETED ones included |
| `Integration.OtherFilterSelectsAll` | src/main/resources/static/js/utils.js:99-101 | any other value selects every task |
| `Text.ReplaceFirstAt` | src/main/resources/static/js/utils.js:44 | `replace` with a one-character pattern changes only the first occurrence |
| `Text.ReplaceFirstAbsent` | src/main/resources/static/js/utils.js:44 | a name without '_' is left as it is by `replace` |
| `Text.LowerIdempotent` | src/main/java/erdem/taskflow/service/TaskService.java:173 | lower-casing twice is lower-casing once |
| `Text.ContainsIffOccurs` | src/main/java/erdem/taskflow/repository/TaskRepository.java:27 | `LIKE '%term%'` holds exactly when the term occurs at some position |

## Left out

- Text.Lower: character case is ASCII only. `toLowerCase` and
  `equalsIgnoreCase` map 'A'..'Z' and leave every other character as it is.
  Java and JavaScript also map non-ASCII letters.
  - The model is Java's `toLowerCase(Locale.ROOT)`.
  - The source calls `toLowerCase()` with no locale (TaskService.java:173 and
    :198), so it uses the JVM's default locale. Under a Turkish or Azeri
    default, 'I' becomes dotless 'ı'.
  - With such a default, `sortBy=TITLE` or `PRIORITY` falls to the unknown
    branch and the list comes back unsorted. A title such as "Ideas" then
    sorts after "Jobs".
  - The model does not capture either effect. JavaScript's `toLowerCase` and
    Java's `equalsIgnoreCase` do not depend on the locale.
- `Instants.ParseInstant`: ISO-8601 text (`Instant.toString`/`Instant.parse`)
  is replaced by a signed decimal count of nanoseconds. The properties used
  are the ones ISO text also has: it is non-empty, it has no '|', and it reads
  back what was written. Which other strings `Instant.parse` accepts is not
  modelled.
- Sorting.LexLe: titles are compared character by character as Unicode
  scalar values. Java's `String.compareTo` compares UTF-16 code units, so a
  character above U+FFFF (stored as a surrogate pair from 0xD800) sorts before
  characters such as U+FF01 in Java but after them here.
- History order: the history is an `@ElementCollection` list without an
  `@OrderColumn` (Task.java:47-50), so the database does not promise to give a
  reloaded history back in insertion order. The model keeps the list in the
  order it was written. `HistoryConsistent` (which reads the last entry) and
  the entry order of `Service.ToResponseDTO` depend on that.
- `Repository.Like`: `%` and `_` inside a search term would act as SQL
  wildcards. Here the term is matched as plain text.
- `findAllByOrderByPriorityDescDueDateAsc`: the default listing order is not
  modelled.
  - Priority is stored as its name, so the database sorts the names, and
    where nulls go depends on the database.
  - Every query takes the listing as given, in any order.
- `Service.ToResponseDTO` and `Service.MapDTO`: one clock reading `now` serves
  every fallback entry of a response list (`getAll`, `filterTasks`,
  `getOverdueTasks`). The source reads the clock once per entry that falls
  back. `ResponseClockFree` shows this has no visible effect on the histories
  the entity writes.
- Null elements inside the history list are not modelled. Entries are
  strings, so the `entry == null` case is the empty entry.
- `Service.TaskService.UpdateStatus`: a null new status is not modelled. In the
  source it throws a NullPointerException when the history entry is built.
- `Service.TaskService.Create` and `Service.TaskService.Update` require a
  non-blank title. In the source the framework's validation rejects the
  request before the service runs.
- `ClientUtils.FormatDate`:
  - The day difference is taken as a whole number of days.
  - Time zones are not modelled. That covers the local midnight set by
    `setHours`, the UTC reading of a date-only string, and a day that is 23
    or 25 hours long across a daylight-saving change.
  - `toLocaleDateString` is passed in as text.
- `ClientUtils.GetDateRange`: `toISOString` renders the date in UTC. In a
  zone ahead of UTC, local midnight renders as the previous day, and the model
  does not capture this.
- `formatDateTime`, `showNotification`, the DOM, `fetch`, timers and logging
  are not modelled. `showNotification` is DOM and timers only.
- Not modelled:
  - the controllers (HTTP status mapping);
  - `BackupController.java`, which is commented out;
  - `app.js`, `api.js` and `router.js`.
  - The controller's choice between `getAll` and `filterTasks` is not a
    member. `getAll` and `filterTasks` are both modelled.
- Transactions, JPA lifecycle wiring beyond `@PrePersist` and concurrent
  access are not modelled.
- Every clock reading and the generated UUID are parameters. Ids are natural
  numbers.
- Dates after `LocalDate.MAX` do not exist in Java. Here a task due on exactly
  `LocalDate.MAX` ties with a task that has no due date.
