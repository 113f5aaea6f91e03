/*
 * The passes of backend/middleware.js: the authentication gate,
 * updateScheduledPriorities (wake expired snoozes, then raise the priority
 * of tasks whose priority schedule has come) and processTasksMiddleware,
 * which runs that pass and sendTaskNotifications before handing the
 * request on. They form a middleware the server never mounts: no file of
 * the backend requires middleware.js, so they are modelled as the file
 * defines them.
 */
module Middleware {
  import opened Base
  import opened ServerModel
  import opened Notifications

  datatype Gate = Next | Refused

  /** ensureAuthenticated: a signed-in request goes on, any other is refused
      with 401. */
  function EnsureAuthenticated(s: Session): (r: Gate)
    ensures r.Next? <==> s.SignedIn?
  {
    if s.SignedIn? then Next else Refused
  }

  // ---------------------------------------------------------------------------
  // Snooze expiry
  // ---------------------------------------------------------------------------

  /** The first query: the user's uncompleted tasks snoozed until a time
      that has come. */
  predicate SnoozeExpired(user: string, now: int, t: TaskDoc) {
    t.user == user && t.snoozed == Some(true) && IsDue(t.snoozeUntil, now) && !t.completed
  }

  /** `snoozed = false; snoozeUntil = null; save()`. */
  function Unsnoozed(t: TaskDoc, now: int): TaskDoc {
    t.(snoozed := Some(false), snoozeUntil := None, updatedAt := now)
  }

  /** The collection after the expiry loop, and whether the loop finished
      (a save that throws ends the whole pass, the bump included). */
  datatype Expiry = Expiry(tasks: seq<TaskDoc>, ok: bool)

  function ExpireSnoozes(tasks: seq<TaskDoc>, user: string, now: int): (r: Expiry)
    ensures |r.tasks| == |tasks|
  {
    if tasks == [] then Expiry([], true)
    else
      var t := tasks[0];
      var rest := ExpireSnoozes(tasks[1..], user, now);
      if SnoozeExpired(user, now, t) then
        match SaveTask(t, t.(snoozed := Some(false), snoozeUntil := None), now)
        case Invalid(_) => Expiry(tasks, false)
        case Valid(doc) => Expiry([doc] + rest.tasks, rest.ok)
      else Expiry([t] + rest.tasks, rest.ok)
  }

  /** With every title present no save throws. */
  lemma {:induction false} ExpireRunsThrough(tasks: seq<TaskDoc>, user: string, now: int)
    requires TitlesPresent(tasks)
    ensures ExpireSnoozes(tasks, user, now).ok
  {
    if tasks != [] {
      ExpireRunsThrough(tasks[1..], user, now);
    }
  }

  /** Each task is left alone or woken, and only an expired one is woken. */
  lemma {:induction false} ExpireWakesOnlyExpired(tasks: seq<TaskDoc>, user: string, now: int)
    ensures
      var r := ExpireSnoozes(tasks, user, now);
      forall i :: 0 <= i < |tasks| ==>
        r.tasks[i] == tasks[i] || (SnoozeExpired(user, now, tasks[i]) && r.tasks[i] == Unsnoozed(tasks[i], now))
  {
    if tasks != [] {
      var t := tasks[0];
      var r := ExpireSnoozes(tasks, user, now);
      var rest := ExpireSnoozes(tasks[1..], user, now);
      ExpireWakesOnlyExpired(tasks[1..], user, now);
      if !SnoozeExpired(user, now, t) || t.title != "" {
        assert r.tasks == [if SnoozeExpired(user, now, t) then Unsnoozed(t, now) else t] + rest.tasks;
        forall i | 1 <= i < |tasks| ensures r.tasks[i] == rest.tasks[i - 1] && tasks[i] == tasks[1..][i - 1] {
        }
      }
    }
  }

  /** A finished loop wakes every expired task. */
  lemma {:induction false} ExpireWakesAllExpired(tasks: seq<TaskDoc>, user: string, now: int)
    ensures
      var r := ExpireSnoozes(tasks, user, now);
      r.ok ==> forall i :: 0 <= i < |tasks| ==>
        r.tasks[i] == if SnoozeExpired(user, now, tasks[i]) then Unsnoozed(tasks[i], now) else tasks[i]
  {
    if tasks != [] {
      var t := tasks[0];
      var r := ExpireSnoozes(tasks, user, now);
      var rest := ExpireSnoozes(tasks[1..], user, now);
      ExpireWakesAllExpired(tasks[1..], user, now);
      if !SnoozeExpired(user, now, t) || t.title != "" {
        assert r.tasks == [if SnoozeExpired(user, now, t) then Unsnoozed(t, now) else t] + rest.tasks;
        assert r.ok == rest.ok;
        forall i | 1 <= i < |tasks| ensures r.tasks[i] == rest.tasks[i - 1] && tasks[i] == tasks[1..][i - 1] {
        }
      }
    }
  }

  /** The three facts above together. */
  lemma ExpireEffect(tasks: seq<TaskDoc>, user: string, now: int)
    ensures
      var r := ExpireSnoozes(tasks, user, now);
      && (forall i :: 0 <= i < |tasks| ==>
            r.tasks[i] == tasks[i] || (SnoozeExpired(user, now, tasks[i]) && r.tasks[i] == Unsnoozed(tasks[i], now)))
      && (r.ok ==> forall i :: 0 <= i < |tasks| ==>
            r.tasks[i] == if SnoozeExpired(user, now, tasks[i]) then Unsnoozed(tasks[i], now) else tasks[i])
      && (TitlesPresent(tasks) ==> r.ok)
  {
    ExpireWakesOnlyExpired(tasks, user, now);
    ExpireWakesAllExpired(tasks, user, now);
    if TitlesPresent(tasks) {
      ExpireRunsThrough(tasks, user, now);
    }
  }

  // ---------------------------------------------------------------------------
  // Priority bump
  // ---------------------------------------------------------------------------

  /** The updateMany filter: the user's uncompleted, explicitly unsnoozed
      tasks, not already at priority 1 (a missing priority counts as not
      1), whose priority schedule has come. */
  predicate PriorityDue(user: string, now: int, t: TaskDoc) {
    t.user == user && t.snoozed == Some(false) && t.priority != Some(1)
    && IsDue(t.prioritySchedule, now) && !t.completed
  }

  /** `$set: { priority: 1, prioritySchedule: null }` with the timestamp the
      update adds. */
  function Bumped(t: TaskDoc, now: int): TaskDoc {
    t.(priority := Some(1), prioritySchedule := None, updatedAt := now)
  }

  function BumpDue(tasks: seq<TaskDoc>, user: string, now: int): (r: seq<TaskDoc>)
    ensures |r| == |tasks|
  {
    seq(|tasks|, i requires 0 <= i < |tasks| =>
      if PriorityDue(user, now, tasks[i]) then Bumped(tasks[i], now) else tasks[i])
  }

  /** What the pass does to one task when it runs to the end: wake it if
      its snooze has expired, then bump it if it is due. */
  function AfterPriorities(t: TaskDoc, user: string, now: int): TaskDoc {
    var woken := if SnoozeExpired(user, now, t) then Unsnoozed(t, now) else t;
    if PriorityDue(user, now, woken) then Bumped(woken, now) else woken
  }

  /** updateScheduledPriorities(userId) at time `now`. */
  function UpdateScheduledPriorities(tasks: seq<TaskDoc>, user: string, now: int): (r: seq<TaskDoc>)
    ensures |r| == |tasks| && SameIds(tasks, r)
    ensures forall i :: 0 <= i < |tasks| && (tasks[i].user != user || tasks[i].completed) ==> r[i] == tasks[i]
    ensures forall i :: 0 <= i < |tasks| ==> r[i].title == tasks[i].title
    ensures forall i :: 0 <= i < |tasks| ==> r[i].notificationSent == tasks[i].notificationSent
                                             && r[i].notificationDate == tasks[i].notificationDate
    ensures TitlesPresent(tasks) ==> forall i :: 0 <= i < |tasks| ==> r[i] == AfterPriorities(tasks[i], user, now)
  {
    ExpireEffect(tasks, user, now);
    var e := ExpireSnoozes(tasks, user, now);
    if e.ok then BumpDue(e.tasks, user, now) else e.tasks
  }

  /** With every title present: a task whose snooze has expired ends awake
      with no wake-up time; a due task ends at priority 1 with no schedule,
      including one woken in the same pass; every other task is untouched. */
  lemma PrioritiesEffect(tasks: seq<TaskDoc>, user: string, now: int)
    requires TitlesPresent(tasks)
    ensures
      var r := UpdateScheduledPriorities(tasks, user, now);
      forall i :: 0 <= i < |tasks| ==>
        && (SnoozeExpired(user, now, tasks[i]) ==> r[i].snoozed == Some(false) && r[i].snoozeUntil.None?)
        && (tasks[i].user == user && !tasks[i].completed && tasks[i].priority != Some(1)
            && IsDue(tasks[i].prioritySchedule, now)
            && (tasks[i].snoozed == Some(false) || SnoozeExpired(user, now, tasks[i]))
            ==> r[i].priority == Some(1) && r[i].prioritySchedule.None?)
        && (!SnoozeExpired(user, now, tasks[i]) && !PriorityDue(user, now, tasks[i]) ==> r[i] == tasks[i])
  {
  }

  /** One task run through the pass twice at the same time is run through
      it once. */
  lemma AfterPrioritiesIdempotent(t: TaskDoc, user: string, now: int)
    ensures AfterPriorities(AfterPriorities(t, user, now), user, now) == AfterPriorities(t, user, now)
  {
    var a := AfterPriorities(t, user, now);
    assert !SnoozeExpired(user, now, a);
    assert !PriorityDue(user, now, a);
  }

  /** Nothing expired: the loop leaves everything as it was. */
  lemma {:induction false} NothingExpired(tasks: seq<TaskDoc>, user: string, now: int)
    requires forall i :: 0 <= i < |tasks| ==> !SnoozeExpired(user, now, tasks[i])
    ensures ExpireSnoozes(tasks, user, now) == Expiry(tasks, true)
  {
    if tasks != [] {
      NothingExpired(tasks[1..], user, now);
    }
  }

  /** A second run with the same `now` changes nothing. */
  lemma PrioritiesIdempotent(tasks: seq<TaskDoc>, user: string, now: int)
    requires TitlesPresent(tasks)
    ensures
      var once := UpdateScheduledPriorities(tasks, user, now);
      UpdateScheduledPriorities(once, user, now) == once
  {
    var once := UpdateScheduledPriorities(tasks, user, now);
    assert TitlesPresent(once);
    forall i | 0 <= i < |once| ensures !SnoozeExpired(user, now, once[i]) && !PriorityDue(user, now, once[i]) {
      AfterPrioritiesIdempotent(tasks[i], user, now);
    }
    NothingExpired(once, user, now);
    assert BumpDue(once, user, now) == once;
  }

  // ---------------------------------------------------------------------------
  // processTasksMiddleware
  // ---------------------------------------------------------------------------

  /** The collection and push attempts after the middleware, and whether it
      handed the request on. */
  datatype Step = Step(tasks: seq<TaskDoc>, pushes: seq<Push>, callsNext: bool)

  /** processTasksMiddleware: both passes for the request's user, each with
      its own clock reading, then next(). Both passes catch their own
      errors, so the request always goes on; they are taken one after the
      other (see PassesCommute for why the order does not matter). */
  function ProcessTasks(users: seq<User>, tasks: seq<TaskDoc>, user: string, priorityNow: int,
                        notifyNow: int): (r: Step)
    ensures r.callsNext
    ensures |r.tasks| == |tasks| && SameIds(tasks, r.tasks)
    ensures forall i :: 0 <= i < |tasks| && tasks[i].user != user ==> r.tasks[i] == tasks[i]
    ensures TitlesPresent(tasks) ==> TitlesPresent(r.tasks)
  {
    var prioritised := UpdateScheduledPriorities(tasks, user, priorityNow);
    var notified := SendTaskNotifications(users, prioritised, user, notifyNow);
    SendKeeps(users, prioritised, user, notifyNow);
    Step(notified.tasks, notified.pushes, true)
  }

  /** The two passes read and write disjoint fields (apart from the
      timestamp, which both set to the same `now`), so with one clock
      reading either order leaves the same collection. */
  lemma PassesCommute(users: seq<User>, tasks: seq<TaskDoc>, user: string, now: int)
    requires TitlesPresent(tasks)
    ensures
      UpdateScheduledPriorities(SendTaskNotifications(users, tasks, user, now).tasks, user, now)
      == SendTaskNotifications(users, UpdateScheduledPriorities(tasks, user, now), user, now).tasks
  {
    var a := SendTaskNotifications(users, tasks, user, now).tasks;
    var b := UpdateScheduledPriorities(tasks, user, now);
    SendKeeps(users, tasks, user, now);
    assert TitlesPresent(a) && TitlesPresent(b);
    var ab := UpdateScheduledPriorities(a, user, now);
    var ba := SendTaskNotifications(users, b, user, now).tasks;
    match FindUser(users, user)
    case None =>
    case Some(j) =>
      if users[j].subscriptions != [] {
        var subs := users[j].subscriptions;
        NotifyEffect(tasks, user, subs, now);
        NotifyEffect(b, user, subs, now);
        forall i | 0 <= i < |tasks| ensures ab[i] == ba[i] {
          assert Selected(user, now, b[i]) == Selected(user, now, tasks[i]);
        }
      }
  }
}
