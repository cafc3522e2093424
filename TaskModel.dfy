/** The `Task` entity: its fields, its persist-time defaults (`onCreate`), the
    guarded status transition (`updateStatus`) that appends to the status
    history, and its plain setters. `TaskRow` is the value of all the fields at
    one moment, which is what the store keeps. */
module TaskModel {
  import opened Common
  import opened Instants
  import opened Domain
  import opened History

  /** Task identifiers (the source's generated UUIDs). */
  type Uuid = nat

  /** The fields of a task; `None` is a null column or reference. */
  datatype TaskRow = TaskRow(
    id: Option<Uuid>,
    title: Option<string>,
    description: Option<string>,
    priority: Option<Priority>,
    dueDate: Option<Day>,
    status: Option<Status>,
    createdAt: Option<Instant>,
    statusUpdatedAt: Option<Instant>,
    statusHistory: Option<seq<string>>)

  /** A freshly constructed `Task`: every field null except the history, which
      the field initialiser makes an empty list. */
  const BlankRow := TaskRow(None, None, None, None, None, None, None, None, Some([]))

  /** The history as a list, a null history read as empty. */
  function HistoryOrEmpty(h: Option<seq<string>>): seq<string> {
    if h.Some? then h.value else []
  }

  /** The history invariant: there is a current status, the history is not
      empty, and its last entry records that status. */
  predicate HistoryConsistent(row: TaskRow) {
    && row.status.Some?
    && row.statusHistory.Some?
    && |row.statusHistory.value| > 0
    && EntryStatus(row.statusHistory.value[|row.statusHistory.value| - 1]) == StatusName(row.status.value)
  }

  /** Every entry of the history is in the format `createStatusHistoryEntry`
      writes. */
  ghost predicate WellFormedHistory(h: seq<string>) {
    forall i :: 0 <= i < |h| ==> exists s: Status, t: Instant :: h[i] == Entry(s, t)
  }

  /** What `onCreate(now)` does to the fields: fill in what is null, and seed an
      empty history with the current status. */
  function Created(row: TaskRow, now: Instant): (r: TaskRow)
    ensures r.createdAt == if row.createdAt.Some? then row.createdAt else Some(now)
    ensures r.status == if row.status.Some? then row.status else Some(OPEN)
    ensures r.statusUpdatedAt == if row.statusUpdatedAt.Some? then row.statusUpdatedAt else Some(now)
    ensures HistoryOrEmpty(row.statusHistory) != [] ==> r.statusHistory == row.statusHistory
    ensures HistoryOrEmpty(row.statusHistory) == [] ==> r.statusHistory == Some([Entry(r.status.value, now)])
    ensures HistoryOrEmpty(row.statusHistory) == [] ==> HistoryConsistent(r)
    ensures r.(createdAt := row.createdAt, status := row.status, statusUpdatedAt := row.statusUpdatedAt,
               statusHistory := row.statusHistory) == row
  {
    var status := if row.status.Some? then row.status.value else OPEN;
    var history := HistoryOrEmpty(row.statusHistory);
    EntryStatusOfEntry(status, now);
    row.(createdAt := if row.createdAt.Some? then row.createdAt else Some(now),
         status := Some(status),
         statusUpdatedAt := if row.statusUpdatedAt.Some? then row.statusUpdatedAt else Some(now),
         statusHistory := if history == [] then Some([Entry(status, now)]) else Some(history))
  }

  /** What `updateStatus(newStatus)` does to the fields. `changedAt` and
      `loggedAt` are the two separate `Instant.now()` readings. */
  function StatusUpdated(row: TaskRow, newStatus: Status, changedAt: Instant, loggedAt: Instant): (r: TaskRow)
    ensures row.status == Some(newStatus) ==> r == row
    ensures row.status != Some(newStatus) ==>
      && r.status == Some(newStatus)
      && r.statusUpdatedAt == Some(changedAt)
      && r.statusHistory == Some(HistoryOrEmpty(row.statusHistory) + [Entry(newStatus, loggedAt)])
      && HistoryConsistent(r)
    ensures r.(status := row.status, statusUpdatedAt := row.statusUpdatedAt, statusHistory := row.statusHistory) == row
    ensures HistoryOrEmpty(row.statusHistory) <= HistoryOrEmpty(r.statusHistory)
    ensures HistoryConsistent(row) ==> HistoryConsistent(r)
  {
    if row.status == Some(newStatus) then row
    else
      EntryStatusOfEntry(newStatus, loggedAt);
      row.(status := Some(newStatus),
           statusUpdatedAt := Some(changedAt),
           statusHistory := Some(HistoryOrEmpty(row.statusHistory) + [Entry(newStatus, loggedAt)]))
  }

  /** A status transition on a task whose history is null starts a new history
      holding only the new entry. */
  lemma NullHistoryStartsAfresh(row: TaskRow, newStatus: Status, changedAt: Instant, loggedAt: Instant)
    requires row.statusHistory.None? && row.status != Some(newStatus)
    ensures StatusUpdated(row, newStatus, changedAt, loggedAt).statusHistory == Some([Entry(newStatus, loggedAt)])
  {
    assert [] + [Entry(newStatus, loggedAt)] == [Entry(newStatus, loggedAt)];
  }

  /** Transitions keep every entry in the format the entity writes. */
  lemma StatusUpdatedWellFormed(row: TaskRow, newStatus: Status, changedAt: Instant, loggedAt: Instant)
    requires WellFormedHistory(HistoryOrEmpty(row.statusHistory))
    ensures WellFormedHistory(HistoryOrEmpty(StatusUpdated(row, newStatus, changedAt, loggedAt).statusHistory))
  {
    var h := HistoryOrEmpty(row.statusHistory);
    var h' := HistoryOrEmpty(StatusUpdated(row, newStatus, changedAt, loggedAt).statusHistory);
    forall i | 0 <= i < |h'|
      ensures exists s: Status, t: Instant :: h'[i] == Entry(s, t)
    {
      if i < |h| {
        assert h'[i] == h[i];
      } else {
        assert h'[i] == Entry(newStatus, loggedAt);
      }
    }
  }

  /** `setStatus` is not a transition: it can leave the history recording a
      status the task no longer has. */
  lemma SetStatusCanBreakHistory()
    ensures exists row: TaskRow, s: Status ::
      HistoryConsistent(row) && !HistoryConsistent(row.(status := Some(s)))
  {
    var row := BlankRow.(status := Some(OPEN), statusHistory := Some([Entry(OPEN, 0)]));
    EntryStatusOfEntry(OPEN, 0);
    assert HistoryConsistent(row);
    assert !HistoryConsistent(row.(status := Some(COMPLETED)));
  }

  /** A task object, updated in place. */
  class Task {
    var id: Option<Uuid>
    var title: Option<string>
    var description: Option<string>
    var priority: Option<Priority>
    var dueDate: Option<Day>
    var status: Option<Status>
    var createdAt: Option<Instant>
    var statusUpdatedAt: Option<Instant>
    var statusHistory: Option<seq<string>>

    /** The current values of the fields. */
    function Snapshot(): TaskRow
      reads this
    {
      TaskRow(id, title, description, priority, dueDate, status, createdAt, statusUpdatedAt, statusHistory)
    }

    /** `new Task()`. */
    constructor ()
      ensures Snapshot() == BlankRow
    {
      id, title, description, priority, dueDate := None, None, None, None, None;
      status, createdAt, statusUpdatedAt := None, None, None;
      statusHistory := Some([]);
    }

    /** The all-arguments constructor; also how a stored task is loaded. */
    constructor WithFields(row: TaskRow)
      ensures Snapshot() == row
    {
      id, title, description, priority, dueDate := row.id, row.title, row.description, row.priority, row.dueDate;
      status, createdAt, statusUpdatedAt := row.status, row.createdAt, row.statusUpdatedAt;
      statusHistory := row.statusHistory;
    }

    /** `onCreate()`, run before the first save, with `now` its clock reading. */
    method OnCreate(now: Instant)
      modifies this
      ensures Snapshot() == Created(old(Snapshot()), now)
      ensures old(createdAt).Some? ==> createdAt == old(createdAt)
      ensures old(status).Some? ==> status == old(status)
      ensures old(statusUpdatedAt).Some? ==> statusUpdatedAt == old(statusUpdatedAt)
      ensures old(HistoryOrEmpty(statusHistory)) == [] ==> HistoryConsistent(Snapshot())
    {
      if createdAt.None? {
        createdAt := Some(now);
      }
      if status.None? {
        status := Some(OPEN);
      }
      if statusUpdatedAt.None? {
        statusUpdatedAt := Some(now);
      }
      if statusHistory.None? {
        statusHistory := Some([]);
      }
      if statusHistory.value == [] && status.Some? {
        assert statusHistory.value + [Entry(status.value, now)] == [Entry(status.value, now)];
        statusHistory := Some(statusHistory.value + [Entry(status.value, now)]);
      }
    }

    /** `updateStatus(newStatus)`: a no-op for the current status, otherwise set
        the status and its time and append one history entry. */
    method UpdateStatus(newStatus: Status, changedAt: Instant, loggedAt: Instant)
      modifies this
      ensures Snapshot() == StatusUpdated(old(Snapshot()), newStatus, changedAt, loggedAt)
      ensures old(status) == Some(newStatus) ==> Snapshot() == old(Snapshot())
      ensures old(HistoryOrEmpty(statusHistory)) <= HistoryOrEmpty(statusHistory)
      ensures old(HistoryConsistent(Snapshot())) ==> HistoryConsistent(Snapshot())
    {
      if status != Some(newStatus) {
        status := Some(newStatus);
        statusUpdatedAt := Some(changedAt);
        if statusHistory.None? {
          statusHistory := Some([]);
        }
        statusHistory := Some(statusHistory.value + [Entry(newStatus, loggedAt)]);
      }
    }

    method SetId(v: Option<Uuid>)
      modifies this
      ensures Snapshot() == old(Snapshot()).(id := v)
    {
      id := v;
    }

    method SetTitle(v: Option<string>)
      modifies this
      ensures Snapshot() == old(Snapshot()).(title := v)
    {
      title := v;
    }

    method SetDescription(v: Option<string>)
      modifies this
      ensures Snapshot() == old(Snapshot()).(description := v)
    {
      description := v;
    }

    method SetPriority(v: Option<Priority>)
      modifies this
      ensures Snapshot() == old(Snapshot()).(priority := v)
    {
      priority := v;
    }

    method SetDueDate(v: Option<Day>)
      modifies this
      ensures Snapshot() == old(Snapshot()).(dueDate := v)
    {
      dueDate := v;
    }

    /** `setStatus`: the status alone; history and `statusUpdatedAt` untouched. */
    method SetStatus(v: Option<Status>)
      modifies this
      ensures Snapshot() == old(Snapshot()).(status := v)
    {
      status := v;
    }

    method SetCreatedAt(v: Option<Instant>)
      modifies this
      ensures Snapshot() == old(Snapshot()).(createdAt := v)
    {
      createdAt := v;
    }

    method SetStatusUpdatedAt(v: Option<Instant>)
      modifies this
      ensures Snapshot() == old(Snapshot()).(statusUpdatedAt := v)
    {
      statusUpdatedAt := v;
    }

    method SetStatusHistory(v: Option<seq<string>>)
      modifies this
      ensures Snapshot() == old(Snapshot()).(statusHistory := v)
    {
      statusHistory := v;
    }
  }
}
