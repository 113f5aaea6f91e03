/*
 * The client's mutation handlers (frontend/modules/taskActions.js). Each one
 * first changes the local database, then calls the server, and when that call
 * fails keeps the local change and records the request in the queue for
 * background sync. The server's answer, the clock, the confirm() dialog and
 * whether the browser supports background sync are parameters. Also here:
 * the snooze-duration arithmetic, the swipe classification and the
 * datetime-local formatter of the edit form.
 */
module TaskActions {
  import opened Base
  import Api
  import opened LocalDb

  /** The server's answer to one API call as a handler sees it: a value, or
      any error (network failure or non-2xx response). */
  datatype Reply<T> = Accepted(value: T) | Rejected

  /** How `await api.x(...)` settles inside a handler. `fetched` is the
      response, or `None` when fetch itself rejected (the network is down).
      The call fails when fetch rejected, the status is not 2xx, or a body
      announced as JSON does not parse. */
  function CallReply(fetched: Option<Api.Response>): (r: Reply<()>)
    ensures r.Rejected? <==>
      fetched.None? || !Api.IsOk(fetched.value) || (Api.AnnouncesJson(fetched.value) && fetched.value.json.None?)
  {
    if fetched.None? || Api.HandleResponse(fetched.value).Failed? then Rejected else Accepted(())
  }

  /** What a handler leaves behind: the local database, the API call it
      issued, and the background-sync tag it registered. */
  datatype Effect = Effect(db: Db, call: Option<Api.ApiCall>, syncTag: Option<string>)

  const NewTaskTag := "sync-new-task"
  const DeleteTaskTag := "sync-delete-task"
  const UpdateTaskTag := "sync-update-task"
  const SnoozeTaskTag := "sync-snooze-task"

  // ---------------------------------------------------------------------------
  // Recording a failed call
  // ---------------------------------------------------------------------------

  /** The catch block of every handler: when the browser supports background
      sync, append the request to the queue and register a sync tag. */
  function RecordFailure(db: Db, req: QueuedRequest, tag: string, syncSupported: bool): (r: (Db, Option<string>))
    ensures syncSupported ==> r.0.queue == db.queue + [req] && r.1 == Some(tag)
    ensures !syncSupported ==> r.0 == db && r.1.None?
    ensures r.0.tasks == db.tasks && r.0.lists == db.lists
  {
    if syncSupported then (Enqueue(db, req), Some(tag)) else (db, None)
  }

  /** The same catch block as written: `db.addToRequestQueue` is not a
      function of localDb.js, so calling it throws a TypeError before the
      entry is stored or the tag registered. */
  function RecordFailureAsWritten(db: Db, req: QueuedRequest, tag: string, syncSupported: bool): (r: (Db, Option<string>))
    ensures r.0.queue == db.queue
    ensures r.1.None?
  {
    (db, None)
  }

  /** The discrepancy: a failed call on a browser with background sync
      leaves the queue as it was, where one entry was meant to be added. */
  lemma AsWrittenQueuesNothing(db: Db, req: QueuedRequest, tag: string)
    ensures |RecordFailureAsWritten(db, req, tag, true).0.queue| == |db.queue|
    ensures |RecordFailure(db, req, tag, true).0.queue| == |db.queue| + 1
  {
  }

  // ---------------------------------------------------------------------------
  // handleAddTask
  // ---------------------------------------------------------------------------

  /** The add form: the title as typed, the parsed priority, the two
      datetime inputs as instants (absent when empty) and the list input. */
  datatype TaskForm = TaskForm(
    title: string, priority: int, prioritySchedule: Option<int>,
    notificationDate: Option<int>, list: string)

  /** The temporary id `temp-<Date.now()>`. */
  function TempId(now: int): string {
    "temp-" + IntToString(now)
  }

  function NewTask(form: TaskForm, now: int): Task {
    Task(TempId(now), Trim(form.title), Some(form.priority), form.prioritySchedule,
         form.notificationDate, Some(form.list), false, None, false, None)
  }

  /** The `newTask` object as JSON.stringify writes it (it has no
      completedTimestamp or snoozeUntil property, and a priority only when
      the record has one). */
  function NewTaskJson(t: Task, list: string): Api.Json {
    var fields := map[
      "_id" := Api.JStr(t.id), "title" := Api.JStr(t.title),
      "prioritySchedule" := Api.NullableTime(t.prioritySchedule),
      "notificationDate" := Api.NullableTime(t.notificationDate),
      "list" := Api.JStr(list), "completed" := Api.JBool(false), "snoozed" := Api.JBool(false)];
    match t.priority
    case None => Api.JObj(fields)
    case Some(p) => Api.JObj(fields["priority" := Api.JNum(p)])
  }

  function HandleAddTask(db: Db, form: TaskForm, now: int, reply: Reply<Task>, syncSupported: bool): (e: Effect)
    ensures Trim(form.title) == "" ==> e == Effect(db, None, None)
    ensures Trim(form.title) != "" ==>
      && e.call == Some(Api.AddTask(Trim(form.title), form.priority, form.prioritySchedule, form.notificationDate, form.list))
      && e.db.lists == db.lists
    // optimistic record, kept when the server call fails
    ensures Trim(form.title) != "" && reply.Rejected? ==>
      && GetTask(e.db, TempId(now)) == Some(NewTask(form, now))
      && (forall k :: k != TempId(now) ==> GetTask(e.db, k) == GetTask(db, k))
    // confirmation swaps the temporary record for the server's
    ensures Trim(form.title) != "" && reply.Accepted? ==>
      && GetTask(e.db, reply.value.id) == Some(reply.value)
      && (reply.value.id != TempId(now) ==> GetTask(e.db, TempId(now)).None?)
      && (forall k :: k != TempId(now) && k != reply.value.id ==> GetTask(e.db, k) == GetTask(db, k))
      && e.db.queue == db.queue && e.syncTag.None?
    ensures Trim(form.title) != "" && reply.Rejected? && syncSupported ==>
      && e.db.queue == db.queue + [QueuedRequest(Api.TasksUrl, Api.POST, Some(NewTaskJson(NewTask(form, now), form.list)), TempId(now))]
      && e.syncTag == Some(NewTaskTag)
    ensures reply.Rejected? && !syncSupported ==> e.db.queue == db.queue && e.syncTag.None?
  {
    var title := Trim(form.title);
    if title == "" then Effect(db, None, None)
    else
      var t := NewTask(form, now);
      var local := PutTask(db, t);
      var call := Api.AddTask(title, form.priority, form.prioritySchedule, form.notificationDate, form.list);
      match reply
      case Accepted(serverTask) => Effect(PutTask(DeleteTask(local, t.id), serverTask), Some(call), None)
      case Rejected =>
        var entry := QueuedRequest(Api.TasksUrl, Api.POST, Some(NewTaskJson(t, form.list)), t.id);
        var (db', tag) := RecordFailure(local, entry, NewTaskTag, syncSupported);
        Effect(db', Some(call), tag)
  }

  /** Scenario: an offline add of a non-blank title leaves exactly one new
      record, under the temporary id, with the trimmed title and neither
      completed nor snoozed, and one POST /api/tasks entry in the queue. */
  lemma OfflineAdd(db: Db, form: TaskForm, now: int)
    requires Trim(form.title) != ""
    requires TempId(now) !in db.tasks
    ensures var e := HandleAddTask(db, form, now, Rejected, true);
      && e.db.tasks.Keys == db.tasks.Keys + {TempId(now)}
      && e.db.tasks[TempId(now)].title == Trim(form.title)
      && !e.db.tasks[TempId(now)].completed && !e.db.tasks[TempId(now)].snoozed
      && |e.db.queue| == |db.queue| + 1
      && e.db.queue[|db.queue|].url == "/api/tasks" && e.db.queue[|db.queue|].verb == Api.POST
      && e.db.queue[|db.queue|].entityId == TempId(now)
  {
    var e := HandleAddTask(db, form, now, Rejected, true);
    forall k | k in e.db.tasks ensures k in db.tasks || k == TempId(now) {
      if k != TempId(now) { assert GetTask(e.db, k) == GetTask(db, k); }
    }
    forall k | k in db.tasks ensures k in e.db.tasks {
      if k != TempId(now) { assert GetTask(e.db, k) == GetTask(db, k); }
    }
  }

  // ---------------------------------------------------------------------------
  // handleDeleteTask
  // ---------------------------------------------------------------------------

  function HandleDeleteTask(db: Db, id: string, confirmed: bool, reply: Reply<()>, syncSupported: bool): (e: Effect)
    ensures !confirmed ==> e == Effect(db, None, None)
    ensures confirmed ==> e.call == Some(Api.DeleteTask(id)) && GetTask(e.db, id).None?
    ensures confirmed ==> forall k :: k != id ==> GetTask(e.db, k) == GetTask(db, k)
    ensures confirmed && reply.Rejected? && syncSupported ==>
      e.db.queue == db.queue + [QueuedRequest(Api.TaskUrl(id), Api.DELETE, None, id)] && e.syncTag == Some(DeleteTaskTag)
    ensures reply.Accepted? || !syncSupported ==> e.db.queue == db.queue && e.syncTag.None?
  {
    if !confirmed then Effect(db, None, None)
    else
      var local := DeleteTask(db, id);
      match reply
      case Accepted(_) => Effect(local, Some(Api.DeleteTask(id)), None)
      case Rejected =>
        var (db', tag) := RecordFailure(local, QueuedRequest(Api.TaskUrl(id), Api.DELETE, None, id), DeleteTaskTag, syncSupported);
        Effect(db', Some(Api.DeleteTask(id)), tag)
  }

  /** A confirmed delete on a browser with background sync is queued
      exactly when its call fails: fetch rejected, a non-2xx status, or an
      unparsable JSON body. */
  lemma DeleteQueuedIffCallFails(db: Db, id: string, fetched: Option<Api.Response>)
    ensures var e := HandleDeleteTask(db, id, true, CallReply(fetched), true);
      |e.db.queue| == |db.queue| + 1 <==>
        fetched.None? || !Api.IsOk(fetched.value) || (Api.AnnouncesJson(fetched.value) && fetched.value.json.None?)
    ensures var e := HandleDeleteTask(db, id, true, CallReply(fetched), true);
      CallReply(fetched).Accepted? ==> e.db.queue == db.queue
  {
  }

  // ---------------------------------------------------------------------------
  // handleUpdateTask
  // ---------------------------------------------------------------------------

  /** The edit form's fields, which become `updatedTaskData`. */
  datatype EditForm = EditForm(
    title: string, priority: int, prioritySchedule: Option<int>,
    notificationDate: Option<int>, list: string)

  function PatchJson(form: EditForm): Api.Json {
    Api.JObj(map[
      "title" := Api.JStr(Trim(form.title)), "priority" := Api.JNum(form.priority),
      "prioritySchedule" := Api.NullableTime(form.prioritySchedule),
      "notificationDate" := Api.NullableTime(form.notificationDate),
      "list" := Api.JStr(form.list)])
  }

  /** `{ ...existingTask, ...updatedTaskData }`. */
  function Merge(t: Task, form: EditForm): (r: Task)
    ensures r.title == Trim(form.title) && r.priority == Some(form.priority)
    ensures r.prioritySchedule == form.prioritySchedule && r.notificationDate == form.notificationDate
    ensures r.list == Some(form.list)
    ensures r.id == t.id && r.completed == t.completed && r.completedTimestamp == t.completedTimestamp
    ensures r.snoozed == t.snoozed && r.snoozeUntil == t.snoozeUntil
  {
    t.(title := Trim(form.title), priority := Some(form.priority), prioritySchedule := form.prioritySchedule,
       notificationDate := form.notificationDate, list := Some(form.list))
  }

  /** handleUpdateTask. When no task is stored under `id` the merged object
      has no `_id`, its put throws, and nothing else happens. */
  function HandleUpdateTask(db: Db, id: string, form: EditForm, reply: Reply<()>, syncSupported: bool): (e: Effect)
    ensures id !in db.tasks ==> e == Effect(db, None, None)
    ensures id in db.tasks ==>
      && GetTask(e.db, id) == Some(Merge(db.tasks[id], form))
      && (forall k :: k != id ==> GetTask(e.db, k) == GetTask(db, k))
      && e.call == Some(Api.UpdateTask(id, PatchJson(form)))
    ensures id in db.tasks && reply.Rejected? && syncSupported ==>
      e.db.queue == db.queue + [QueuedRequest(Api.TaskUrl(id), Api.PUT, Some(PatchJson(form)), id)]
      && e.syncTag == Some(UpdateTaskTag)
    ensures reply.Accepted? || !syncSupported ==> e.db.queue == db.queue && e.syncTag.None?
  {
    match GetTask(db, id)
    case None => Effect(db, None, None)
    case Some(t) =>
      var local := PutTask(db, Merge(t, form));
      var call := Api.UpdateTask(id, PatchJson(form));
      match reply
      case Accepted(_) => Effect(local, Some(call), None)
      case Rejected =>
        var (db', tag) := RecordFailure(local, QueuedRequest(Api.TaskUrl(id), Api.PUT, Some(PatchJson(form)), id), UpdateTaskTag, syncSupported);
        Effect(db', Some(call), tag)
  }

  // ---------------------------------------------------------------------------
  // handleToggleTaskCompletion
  // ---------------------------------------------------------------------------

  function CompletionJson(completed: bool, stamp: Option<int>): Api.Json {
    Api.JObj(map["completed" := Api.JBool(completed), "completedTimestamp" := Api.NullableTime(stamp)])
  }

  /** The toggled record: `completed` set, the timestamp present exactly when
      the task is completed, everything else as it was. */
  function Toggle(t: Task, completed: bool, now: int): (r: Task)
    ensures r.completed == completed
    ensures r.completedTimestamp.Some? <==> r.completed
    ensures r.completed ==> r.completedTimestamp == Some(now)
    ensures r.(completed := t.completed, completedTimestamp := t.completedTimestamp) == t
  {
    t.(completed := completed, completedTimestamp := if completed then Some(now) else None)
  }

  /** handleToggleTaskCompletion. When no task is stored under `id` the
      spread record has no `_id`, its put throws, and nothing else
      happens. */
  function HandleToggleCompletion(db: Db, id: string, completed: bool, now: int, reply: Reply<()>, syncSupported: bool): (e: Effect)
    ensures id !in db.tasks ==> e == Effect(db, None, None)
    ensures id in db.tasks ==>
      && GetTask(e.db, id) == Some(Toggle(db.tasks[id], completed, now))
      && (forall k :: k != id ==> GetTask(e.db, k) == GetTask(db, k))
      && e.call == Some(Api.UpdateTask(id, CompletionJson(completed, if completed then Some(now) else None)))
    ensures id in db.tasks && reply.Rejected? && syncSupported ==>
      e.db.queue == db.queue + [QueuedRequest(Api.TaskUrl(id), Api.PUT,
        Some(CompletionJson(completed, if completed then Some(now) else None)), id)]
      && e.syncTag == Some(UpdateTaskTag)
    ensures reply.Accepted? || !syncSupported ==> e.db.queue == db.queue && e.syncTag.None?
  {
    match GetTask(db, id)
    case None => Effect(db, None, None)
    case Some(t) =>
      var t' := Toggle(t, completed, now);
      var local := PutTask(db, t');
      var body := CompletionJson(completed, t'.completedTimestamp);
      match reply
      case Accepted(_) => Effect(local, Some(Api.UpdateTask(id, body)), None)
      case Rejected =>
        var (db', tag) := RecordFailure(local, QueuedRequest(Api.TaskUrl(id), Api.PUT, Some(body), id), UpdateTaskTag, syncSupported);
        Effect(db', Some(Api.UpdateTask(id, body)), tag)
  }

  /** Toggling on and then off before any sync leaves the record as it was
      apart from a null timestamp, and queues two PUTs in order. */
  lemma ToggleTwiceOffline(db: Db, id: string, t1: int, t2: int)
    requires id in db.tasks
    ensures var e1 := HandleToggleCompletion(db, id, true, t1, Rejected, true);
            var e2 := HandleToggleCompletion(e1.db, id, false, t2, Rejected, true);
      && GetTask(e2.db, id) == Some(db.tasks[id].(completed := false, completedTimestamp := None))
      && |e2.db.queue| == |db.queue| + 2
      && e2.db.queue[|db.queue|].body == Some(CompletionJson(true, Some(t1)))
      && e2.db.queue[|db.queue| + 1].body == Some(CompletionJson(false, None))
  {
  }

  // ---------------------------------------------------------------------------
  // handleSnoozeTask
  // ---------------------------------------------------------------------------

  /** The `duration` argument: a word from a swipe, the result of
      parseInt on the prompt's answer, or NaN when that did not parse. */
  datatype Duration = Word(word: string) | Minutes(n: int) | NotANumber

  function DurationJson(d: Duration): Api.Json {
    match d
    case Word(w) => Api.JStr(w)
    case Minutes(n) => Api.JNum(n)
    case NotANumber => Api.JNull     // JSON.stringify writes NaN as null
  }

  const HourMs := 60 * 60 * 1000
  const DayMs := 24 * 60 * 60 * 1000
  const MinuteMs := 60 * 1000

  /** The snooze fields a duration asks for. */
  datatype Snooze = Snooze(snoozed: bool, until: Option<int>)

  /** The time a duration snoozes until, before it is range-checked. */
  function SnoozeTarget(duration: Duration, now: int): Option<int> {
    if duration == Minutes(60) || duration == Word("1h") then Some(now + HourMs)
    else if duration == Minutes(1440) || duration == Word("1d") then Some(now + DayMs)
    else if duration.Minutes? && duration.n > 0 then Some(now + duration.n * MinuteMs)
    else None
  }

  /** The snooze fields the handler writes, or `None` when toISOString throws
      on an out-of-range target and the handler stops. */
  function SnoozeFor(duration: Duration, now: int): (r: Option<Snooze>)
    ensures duration == Word("unsnooze") ==> r == Some(Snooze(false, None))
    ensures duration == Word("1h") || duration == Minutes(60) ==>
      r == if IsTimeValue(now + 3_600_000) then Some(Snooze(true, Some(now + 3_600_000))) else None
    ensures duration == Word("1d") || duration == Minutes(1440) ==>
      r == if IsTimeValue(now + 86_400_000) then Some(Snooze(true, Some(now + 86_400_000))) else None
    ensures duration.Minutes? && duration.n > 0 && duration.n != 60 && duration.n != 1440 ==>
      r == if IsTimeValue(now + duration.n * 60_000) then Some(Snooze(true, Some(now + duration.n * 60_000))) else None
    ensures (duration.Minutes? && duration.n <= 0) || duration.NotANumber?
            || (duration.Word? && duration.word !in {"unsnooze", "1h", "1d"})
            ==> r == Some(Snooze(false, None))
    ensures r.Some? ==> (r.value.snoozed <==> r.value.until.Some?)
  {
    if duration == Word("unsnooze") then Some(Snooze(false, None))
    else match SnoozeTarget(duration, now)
      case None => Some(Snooze(false, None))
      case Some(t) => if IsTimeValue(t) then Some(Snooze(true, Some(t))) else None
  }

  /** handleSnoozeTask. As in handleToggleTaskCompletion, with no task
      stored under `id` the put throws and nothing else happens; so does an
      out-of-range target, at toISOString. */
  function HandleSnoozeTask(db: Db, id: string, duration: Duration, now: int, reply: Reply<()>, syncSupported: bool): (e: Effect)
    ensures id !in db.tasks || SnoozeFor(duration, now).None? ==> e == Effect(db, None, None)
    ensures id in db.tasks && SnoozeFor(duration, now).Some? ==>
      && var s := SnoozeFor(duration, now).value;
      && GetTask(e.db, id) == Some(db.tasks[id].(snoozed := s.snoozed, snoozeUntil := s.until))
      && (forall k :: k != id ==> GetTask(e.db, k) == GetTask(db, k))
      && e.call == Some(Api.SnoozeTask(id, DurationJson(duration)))
    ensures id in db.tasks && SnoozeFor(duration, now).Some? && reply.Rejected? && syncSupported ==>
      e.db.queue == db.queue + [QueuedRequest(Api.TaskUrl(id) + "/snooze", Api.POST,
        Some(Api.JObj(map["duration" := DurationJson(duration)])), id)]
      && e.syncTag == Some(SnoozeTaskTag)
    ensures reply.Accepted? || !syncSupported ==> e.db.queue == db.queue && e.syncTag.None?
  {
    match GetTask(db, id)
    case None => Effect(db, None, None)
    case Some(t) =>
      match SnoozeFor(duration, now)
      case None => Effect(db, None, None)
      case Some(s) =>
        var local := PutTask(db, t.(snoozed := s.snoozed, snoozeUntil := s.until));
        var call := Api.SnoozeTask(id, DurationJson(duration));
        match reply
        case Accepted(_) => Effect(local, Some(call), None)
        case Rejected =>
          var entry := QueuedRequest(Api.TaskUrl(id) + "/snooze", Api.POST, Some(Api.JObj(map["duration" := DurationJson(duration)])), id);
          var (db', tag) := RecordFailure(local, entry, SnoozeTaskTag, syncSupported);
          Effect(db', Some(call), tag)
  }

  // ---------------------------------------------------------------------------
  // Swipe to snooze
  // ---------------------------------------------------------------------------

  const SwipeThreshold := -50
  const LongSwipeThreshold := -150

  /** The row a gesture started on, as handleGestureStart sees it. */
  datatype Row = Row(completed: bool, snoozed: bool)

  /** handleGestureStart, handleGestureEnd and handleSwipe: the snooze a
      finished horizontal gesture triggers. `enabledSetting` is the
      'swipeToSnoozeEnabled' localStorage value, `row` the task row the gesture
      started on (if any), `displacement` the end x minus the start x. */
  function SwipeSnooze(enabledSetting: Option<string>, onControls: bool, row: Option<Row>, displacement: int): (r: Option<Duration>)
    ensures r.Some? ==> enabledSetting != Some("false") && !onControls && row.Some? && !row.value.completed
    ensures r.Some? <==> enabledSetting != Some("false") && !onControls && row.Some? && !row.value.completed
                         && displacement < SwipeThreshold
    ensures r.Some? ==> r.value in {Word("unsnooze"), Word("1h"), Word("1d")}
    ensures r.Some? ==> (r.value == Word("unsnooze") <==> row.value.snoozed)
    ensures r.Some? && !row.value.snoozed ==> (r.value == Word("1d") <==> displacement < LongSwipeThreshold)
  {
    if enabledSetting == Some("false") || onControls || row.None? || row.value.completed then None
    else if displacement < SwipeThreshold then
      if row.value.snoozed then Some(Word("unsnooze"))
      else if displacement < LongSwipeThreshold then Some(Word("1d"))
      else Some(Word("1h"))
    else None
  }

  /** A swipe on an unsnoozed row snoozes it for one hour, or one day past
      150 pixels; on a snoozed row it clears the snooze. */
  lemma SwipeOutcome(row: Row, displacement: int, now: int)
    requires !row.completed && displacement < SwipeThreshold
    requires IsTimeValue(now + DayMs)
    requires IsTimeValue(now)
    ensures var d := SwipeSnooze(None, false, Some(row), displacement).value;
      SnoozeFor(d, now) == Some(
        if row.snoozed then Snooze(false, None)
        else if displacement < LongSwipeThreshold then Snooze(true, Some(now + 86_400_000))
        else Snooze(true, Some(now + 3_600_000)))
  {
  }

  // ---------------------------------------------------------------------------
  // toLocalDatetimeString
  // ---------------------------------------------------------------------------

  /** The local-time components Date's getters return: a 0-based month. */
  datatype DateParts = DateParts(year: int, month: nat, day: nat, hours: nat, minutes: nat)

  predicate ValidParts(p: DateParts) {
    p.month < 12 && 1 <= p.day <= 31 && p.hours < 24 && p.minutes < 60
  }

  /** The argument after `new Date(date)`: an invalid date has a NaN time. */
  datatype DateValue = InvalidDate | ValidDate(parts: DateParts)

  /** The part after the year: `-MM-DDTHH:MM`. */
  function DatetimeTail(p: DateParts): string {
    "-" + Pad2(p.month + 1) + "-" + Pad2(p.day) + "T" + Pad2(p.hours) + ":" + Pad2(p.minutes)
  }

  /** toLocalDatetimeString: `''` for a falsy argument or an invalid date,
      otherwise `YYYY-MM-DDTHH:MM` with a 1-based month. */
  function ToLocalDatetimeString(date: Option<DateValue>): (r: string)
    ensures date.None? || date.value.InvalidDate? ==> r == ""
    ensures date.Some? && date.value.ValidDate? && ValidParts(date.value.parts) ==>
      var y := IntToString(date.value.parts.year);
      && |r| == |y| + 12
      && r[..|y|] == y
      && r[|y|] == '-' && r[|y| + 3] == '-' && r[|y| + 6] == 'T' && r[|y| + 9] == ':'
  {
    match date
    case None => ""
    case Some(InvalidDate) => ""
    case Some(ValidDate(p)) =>
      var y, t := IntToString(p.year), DatetimeTail(p);
      if ValidParts(p) then
        TailShape(p);
        assert (y + t)[..|y|] == y;
        y + t
      else y + t
  }

  /** The separators of `-MM-DDTHH:MM` when every field has two digits. */
  lemma TailShape(p: DateParts)
    requires ValidParts(p)
    ensures var t := DatetimeTail(p);
      |t| == 12 && t[0] == '-' && t[3] == '-' && t[6] == 'T' && t[9] == ':'
  {
    TailFields(Pad2(p.month + 1), Pad2(p.day), Pad2(p.hours), Pad2(p.minutes));
  }

  predicate AllDigits(s: string) {
    forall k :: 0 <= k < |s| ==> IsDigit(s[k])
  }

  /** Reads an optionally signed decimal year. */
  function ParseYear(s: string): Option<int> {
    if s == [] then None
    else
      var neg := s[0] == '-';
      var digits := if neg then s[1..] else s;
      if digits == [] || !AllDigits(digits) then None
      else
        var magnitude: int := DigitsValue(digits);
        Some(if neg then -magnitude else magnitude)
  }

  /** Reads `-MM-DDTHH:MM` into a 0-based month, day, hours and minutes. */
  function ParseTail(t: string): Option<(nat, nat, nat, nat)> {
    if |t| != 12 then None
    else if !(t[0] == '-' && t[3] == '-' && t[6] == 'T' && t[9] == ':'
              && AllDigits(t[1..3]) && AllDigits(t[4..6]) && AllDigits(t[7..9]) && AllDigits(t[10..12]))
    then None
    else
      var month := DigitsValue(t[1..3]);
      if month == 0 then None
      else Some((month - 1, DigitsValue(t[4..6]), DigitsValue(t[7..9]), DigitsValue(t[10..12])))
  }

  /** Reads a `YYYY-MM-DDTHH:MM` string back into its components. */
  function ParseLocalDatetime(s: string): Option<DateParts> {
    if |s| < 13 then None
    else
      match (ParseYear(s[..|s| - 12]), ParseTail(s[|s| - 12..]))
      case (Some(year), Some((month, day, hours, minutes))) => Some(DateParts(year, month, day, hours, minutes))
      case _ => None
  }

  /** A numeral reads as its value, and with a minus sign as its negation. */
  lemma ParseDigits(d: string)
    requires d != [] && AllDigits(d)
    ensures ParseYear(d) == Some(DigitsValue(d) as int)
    ensures ParseYear("-" + d) == Some(-(DigitsValue(d) as int))
  {
    assert IsDigit(d[0]);
    assert ("-" + d)[1..] == d;
  }

  lemma YearRoundTrip(year: int)
    ensures ParseYear(IntToString(year)) == Some(year)
  {
    var m: nat := if year < 0 then -year else year;
    NatToStringRoundTrip(m);
    ParseDigits(NatToString(m));
  }

  /** Where the four two-character fields sit in `-MM-DDTHH:MM`. */
  lemma TailFields(mo: string, d: string, h: string, mi: string)
    requires |mo| == 2 && |d| == 2 && |h| == 2 && |mi| == 2
    ensures var t := "-" + mo + "-" + d + "T" + h + ":" + mi;
      && |t| == 12 && t[0] == '-' && t[3] == '-' && t[6] == 'T' && t[9] == ':'
      && t[1..3] == mo && t[4..6] == d && t[7..9] == h && t[10..12] == mi
  {
  }

  /** Reading a tail assembled from four two-digit fields gives the
      fields' values, the month made 0-based. */
  lemma ParseTailOf(mo: string, d: string, h: string, mi: string)
    requires |mo| == 2 && |d| == 2 && |h| == 2 && |mi| == 2
    requires AllDigits(mo) && AllDigits(d) && AllDigits(h) && AllDigits(mi) && DigitsValue(mo) != 0
    ensures ParseTail("-" + mo + "-" + d + "T" + h + ":" + mi)
            == Some((DigitsValue(mo) - 1, DigitsValue(d), DigitsValue(h), DigitsValue(mi)))
  {
    TailFields(mo, d, h, mi);
  }

  lemma TailRoundTrip(p: DateParts)
    requires ValidParts(p)
    ensures ParseTail(DatetimeTail(p)) == Some((p.month, p.day, p.hours, p.minutes))
  {
    var mo, d, h, mi := Pad2(p.month + 1), Pad2(p.day), Pad2(p.hours), Pad2(p.minutes);
    assert AllDigits(mo) && AllDigits(d) && AllDigits(h) && AllDigits(mi);
    assert DigitsValue(mo) == p.month + 1 && DigitsValue(d) == p.day;
    assert DigitsValue(h) == p.hours && DigitsValue(mi) == p.minutes;
    ParseTailOf(mo, d, h, mi);
    assert DatetimeTail(p) == "-" + mo + "-" + d + "T" + h + ":" + mi;
  }

  /** The formatted string determines the date it was formatted from. */
  lemma DatetimeStringRoundTrip(p: DateParts)
    requires ValidParts(p)
    ensures ParseLocalDatetime(ToLocalDatetimeString(Some(ValidDate(p)))) == Some(p)
  {
    var y := IntToString(p.year);
    var s := ToLocalDatetimeString(Some(ValidDate(p)));
    assert s == y + DatetimeTail(p);
    assert s[..|s| - 12] == y;
    assert s[|s| - 12..] == DatetimeTail(p);
    YearRoundTrip(p.year);
    TailRoundTrip(p);
  }
}
