/** The browser helpers of `utils.js`. Dates are whole epoch days: the client
    sets both dates to local midnight before subtracting, so the day
    difference is an integer. Text that the browser localises
    (`toLocaleDateString`) is a parameter. */
module ClientUtils {
  import opened Common
  import opened Text
  import opened Instants
  import opened Domain

  /** What `formatDate` returns: the bare string for a missing date, an
      object `{ text, class }` otherwise. */
  datatype DateDisplay = Plain(text: string) | Badge(text: string, cls: string)

  /** `formatDate(dateString)` for a due date `due`, on day `today`; `localized`
      is the browser's rendering of the date, used beyond a week ahead. */
  function FormatDate(due: Option<Day>, today: Day, localized: string): (r: DateDisplay)
    ensures due.None? <==> r == Plain("No due date")
    ensures due.Some? ==> r.Badge?
  {
    if due.None? then Plain("No due date")
    else
      var diff := due.value - today;
      if diff < 0 then Badge("Overdue (" + NatText(-diff) + " days)", "overdue")
      else if diff == 0 then Badge("Due today", "due-today")
      else if diff == 1 then Badge("Due tomorrow", "")
      else if diff <= 7 then Badge("Due in " + NatText(diff) + " days", "")
      else Badge(localized, "")
  }

  /** The badge's class tells overdue, due today and later apart, and nothing
      else does. */
  lemma FormatDateClass(due: Day, today: Day, localized: string)
    ensures var r := FormatDate(Some(due), today, localized);
      && (r.cls == "overdue" <==> due < today)
      && (r.cls == "due-today" <==> due == today)
      && (r.cls == "" <==> due > today)
  {
  }

  /** The buckets by day difference: the texts of the days from tomorrow to a
      week ahead, and the localised date beyond. */
  lemma FormatDateBuckets(due: Day, today: Day, localized: string)
    ensures var r := FormatDate(Some(due), today, localized);
      && (due == today ==> r.text == "Due today")
      && (due == today + 1 ==> r.text == "Due tomorrow")
      && (today + 2 <= due <= today + 7 ==> exists n: string :: r.text == "Due in " + n + " days")
      && (due > today + 7 ==> r.text == localized)
  {
  }

  /** The number in an overdue badge is written without leading zeros and
      reads back as the number of days the task is late. */
  lemma OverdueTextReadsBack(due: Day, today: Day, localized: string)
    requires due < today
    ensures exists n: string ::
      && AllDigits(n) && n != [] && n[0] != '0' && DigitsValue(n) == today - due
      && FormatDate(Some(due), today, localized).text == "Overdue (" + n + " days)"
  {
    DigitsValueNatText(today - due);
  }

  /** The number in a "Due in n days" badge is written without leading zeros
      and reads back as the difference. */
  lemma DueInTextReadsBack(due: Day, today: Day, localized: string)
    requires today + 2 <= due <= today + 7
    ensures exists n: string ::
      && AllDigits(n) && n != [] && n[0] != '0' && DigitsValue(n) == due - today
      && FormatDate(Some(due), today, localized).text == "Due in " + n + " days"
  {
    DigitsValueNatText(due - today);
  }

  /** JavaScript's `getDay()`: 0 is Sunday; epoch day 0 was a Thursday. */
  function DayOfWeek(d: Day): (r: int)
    ensures 0 <= r < 7
  {
    (d + 4) % 7
  }

  /** The query parameters `getDateRange` sets; `None` is a parameter left
      out. */
  datatype DateRange = DateRange(dueDateFrom: Option<Day>, dueDateTo: Option<Day>)

  /** `getDateRange(filterValue)` on day `today`. */
  function GetDateRange(filter: string, today: Day): (r: DateRange)
    ensures filter == "overdue" ==> r == DateRange(None, Some(today - 1))
    ensures filter == "today" ==> r == DateRange(Some(today), Some(today))
    ensures filter !in {"overdue", "today", "this-week"} ==> r == DateRange(None, None)
  {
    if filter == "overdue" then DateRange(None, Some(today - 1))
    else if filter == "today" then DateRange(Some(today), Some(today))
    else if filter == "this-week" then
      var weekStart := today - DayOfWeek(today);
      DateRange(Some(weekStart), Some(weekStart + 6))
    else DateRange(None, None)
  }

  /** The week runs from the Sunday on or before today to the Saturday after
      it, and so contains today. */
  lemma ThisWeekContainsToday(today: Day)
    ensures var r := GetDateRange("this-week", today);
      && r.dueDateFrom.Some? && r.dueDateTo.Some?
      && r.dueDateFrom.value <= today <= r.dueDateTo.value
      && r.dueDateTo.value == r.dueDateFrom.value + 6
      && DayOfWeek(r.dueDateFrom.value) == 0
  {
    var start := today - (today + 4) % 7;
    assert start + 4 == (today + 4) / 7 * 7;
  }

  /** `getPriorityClass(priority)`; an absent or empty name is falsy. */
  function PriorityClass(priority: Option<string>): (r: string)
    ensures priority.None? || priority.value == [] ==> r == []
    ensures priority.Some? && priority.value != [] ==>
      IsPrefix("badge-priority-", r) && r[|"badge-priority-"|..] == Lower(priority.value)
  {
    if priority.None? || priority.value == [] then ""
    else "badge-priority-" + Lower(priority.value)
  }

  /** `getStatusClass(status)`. */
  function StatusClass(status: Option<string>): (r: string)
    ensures status.None? || status.value == [] ==> r == []
    ensures status.Some? && status.value != [] ==>
      IsPrefix("badge-status-", r) && |r| == |"badge-status-"| + |status.value|
  {
    if status.None? || status.value == [] then ""
    else "badge-status-" + ReplaceFirst(Lower(status.value), '_', '-')
  }

  /** After the prefix, the status class is the name lower-cased with its first
      '_', and only that one, made a '-'. */
  lemma StatusClassAt(name: string)
    requires name != []
    ensures forall i :: 0 <= i < |name| ==>
      StatusClass(Some(name))[|"badge-status-"| + i] ==
        if name[i] == '_' && '_' !in name[..i] then '-' else LowerChar(name[i])
  {
    var lower := Lower(name);
    LowerAt(name);
    ReplaceFirstAt(lower, '_', '-');
    forall i | 0 <= i <= |name|
      ensures ('_' in lower[..i]) <==> ('_' in name[..i])
    {
      assert forall k :: 0 <= k < i ==> (lower[..i][k] == '_' <==> name[..i][k] == '_');
    }
  }

  /** `getPriorityCardClass(priority)`. */
  function PriorityCardClass(priority: Option<string>): (r: string)
    ensures priority.None? || priority.value == [] ==> r == []
    ensures priority.Some? && priority.value != [] ==>
      && |r| == |priority.value| + |"-priority"|
      && r[..|priority.value|] == Lower(priority.value)
      && r[|priority.value|..] == "-priority"
  {
    if priority.None? || priority.value == [] then ""
    else Lower(priority.value) + "-priority"
  }

  /** The badge class of each priority name the server sends. */
  lemma PriorityClassOfName(p: Priority)
    ensures PriorityClass(Some(PriorityName(p))) == (match p
      case HIGH => "badge-priority-high"
      case MEDIUM => "badge-priority-medium"
      case LOW => "badge-priority-low")
  {
    LowerOfPriorityName(p);
  }

  /** The card class of each priority name the server sends. */
  lemma PriorityCardClassOfName(p: Priority)
    ensures PriorityCardClass(Some(PriorityName(p))) == (match p
      case HIGH => "high-priority"
      case MEDIUM => "medium-priority"
      case LOW => "low-priority")
  {
    LowerOfPriorityName(p);
  }

  lemma LowerOfPriorityName(p: Priority)
    ensures Lower(PriorityName(p)) == (match p case HIGH => "high" case MEDIUM => "medium" case LOW => "low")
  {
    var n := PriorityName(p);
    LowerAt(n);
    var l: string := match p case HIGH => "high" case MEDIUM => "medium" case LOW => "low";
    assert forall i :: 0 <= i < |n| ==> Lower(n)[i] == l[i];
  }

  lemma StatusClassOfInProgress()
    ensures StatusClass(Some("IN_PROGRESS")) == "badge-status-" + "in-progress"
  {
    LowerInProgress();
    DashInProgress();
  }

  lemma LowerInProgress()
    ensures Lower("IN_PROGRESS") == "in_progress"
  {
    LowerAt("IN_PROGRESS");
    assert forall i :: 0 <= i < 11 ==> Lower("IN_PROGRESS")[i] == "in_progress"[i];
  }

  lemma DashInProgress()
    ensures ReplaceFirst("in_progress", '_', '-') == "in-progress"
  {
    assert "in_progress" == "in" + ['_'] + "progress";
    ReplaceFirstAfter("in", "progress", '_', '-');
    assert "in" + ['-'] + "progress" == "in-progress";
  }

  /** Only the first '_' becomes a '-': a second one stays. */
  lemma StatusClassReplacesFirstOnly(name: string, i: int, j: int)
    requires 0 <= i < j < |name| && name[i] == '_' && name[j] == '_'
    ensures StatusClass(Some(name))[|"badge-status-"| + j] == '_'
  {
    StatusClassAt(name);
    assert name[..j][i] == '_';
  }
}
