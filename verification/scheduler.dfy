/*
 * The minutely job of backend/scheduler.js: for every user in turn, raise
 * the priority of the user's due tasks, then send that user's due
 * reminders. Unlike the pass in backend/middleware.js (a middleware the
 * server never mounts), this
 * bump ignores the snooze flag and leaves `prioritySchedule` in place.
 */
module Scheduler {
  import opened Base
  import opened ServerModel
  import opened Notifications

  /** The updateMany filter: the user's uncompleted tasks whose priority
      schedule has come and that are not already at priority 1. */
  predicate ScheduleDue(user: string, now: int, t: TaskDoc) {
    t.user == user && IsDue(t.prioritySchedule, now) && t.priority != Some(1) && !t.completed
  }

  /** `$set: { priority: 1 }` with the timestamp the update adds. */
  function Raised(t: TaskDoc, now: int): TaskDoc {
    t.(priority := Some(1), updatedAt := now)
  }

  function RaiseDue(tasks: seq<TaskDoc>, user: string, now: int): (r: seq<TaskDoc>)
    ensures |r| == |tasks|
  {
    seq(|tasks|, i requires 0 <= i < |tasks| =>
      if ScheduleDue(user, now, tasks[i]) then Raised(tasks[i], now) else tasks[i])
  }

  /** The two steps of the job, as they happen. */
  datatype Action = RaisePriorities(user: string) | SendReminders(user: string)

  /** The collection, the push attempts and the steps taken. */
  datatype Run = Run(tasks: seq<TaskDoc>, pushes: seq<Push>, log: seq<Action>)

  /** One user's turn: raise, then notify, appended to the run so far. The
      raise compares with the job's reading `now`; sendTaskNotifications
      reads the clock again (`notifyNow`) when the user's turn reaches it. */
  function UserTurn(users: seq<User>, r: Run, u: string, now: int, notifyNow: int): Run {
    var sent := SendTaskNotifications(users, RaiseDue(r.tasks, u, now), u, notifyNow);
    Run(sent.tasks, r.pushes + sent.pushes, r.log + [RaisePriorities(u), SendReminders(u)])
  }

  /** The job over the first `n` users of `users` (User.find({}) order).
      `clock[k]` is the time sendTaskNotifications reads for the k-th user. */
  function Scheduled(users: seq<User>, n: nat, tasks: seq<TaskDoc>, now: int, clock: seq<int>): (r: Run)
    requires n <= |users| == |clock|
    ensures |r.tasks| == |tasks|
  {
    if n == 0 then Run(tasks, [], [])
    else UserTurn(users, Scheduled(users, n - 1, tasks, now, clock), users[n - 1].id, now, clock[n - 1])
  }

  lemma ScheduledStep(users: seq<User>, n: nat, tasks: seq<TaskDoc>, now: int, clock: seq<int>)
    requires 0 < n <= |users| == |clock|
    ensures Scheduled(users, n, tasks, now, clock)
      == UserTurn(users, Scheduled(users, n - 1, tasks, now, clock), users[n - 1].id, now, clock[n - 1])
  {
  }

  /** The bump keeps ids, owners and titles. */
  lemma RaiseDueKeeps(tasks: seq<TaskDoc>, u: string, now: int)
    ensures SameIds(tasks, RaiseDue(tasks, u, now))
    ensures TitlesPresent(tasks) ==> TitlesPresent(RaiseDue(tasks, u, now))
  {
  }

  /** One turn keeps ids and owners in place. */
  lemma UserTurnSameIds(users: seq<User>, r: Run, u: string, now: int, notifyNow: int)
    ensures SameIds(r.tasks, UserTurn(users, r, u, now, notifyNow).tasks)
  {
    var raised := RaiseDue(r.tasks, u, now);
    RaiseDueKeeps(r.tasks, u, now);
    SendKeeps(users, raised, u, notifyNow);
    SameIdsTrans(r.tasks, raised, SendTaskNotifications(users, raised, u, notifyNow).tasks);
  }

  /** One turn keeps the titles present. */
  lemma UserTurnTitles(users: seq<User>, r: Run, u: string, now: int, notifyNow: int)
    requires TitlesPresent(r.tasks)
    ensures TitlesPresent(UserTurn(users, r, u, now, notifyNow).tasks)
  {
    var raised := RaiseDue(r.tasks, u, now);
    RaiseDueKeeps(r.tasks, u, now);
    SendKeeps(users, raised, u, notifyNow);
  }

  /** The job keeps every task in its place with its id and owner. */
  lemma {:induction false} ScheduledSameIds(users: seq<User>, n: nat, tasks: seq<TaskDoc>, now: int, clock: seq<int>)
    requires n <= |users| == |clock|
    ensures SameIds(tasks, Scheduled(users, n, tasks, now, clock).tasks)
  {
    if n > 0 {
      var prev := Scheduled(users, n - 1, tasks, now, clock);
      ScheduledStep(users, n, tasks, now, clock);
      ScheduledSameIds(users, n - 1, tasks, now, clock);
      UserTurnSameIds(users, prev, users[n - 1].id, now, clock[n - 1]);
      SameIdsTrans(tasks, prev.tasks, UserTurn(users, prev, users[n - 1].id, now, clock[n - 1]).tasks);
    }
  }

  /** The job keeps the titles the schema requires. */
  lemma {:induction false} ScheduledTitles(users: seq<User>, n: nat, tasks: seq<TaskDoc>, now: int, clock: seq<int>)
    requires n <= |users| == |clock| && TitlesPresent(tasks)
    ensures TitlesPresent(Scheduled(users, n, tasks, now, clock).tasks)
  {
    if n > 0 {
      ScheduledStep(users, n, tasks, now, clock);
      ScheduledTitles(users, n - 1, tasks, now, clock);
      UserTurnTitles(users, Scheduled(users, n - 1, tasks, now, clock), users[n - 1].id, now, clock[n - 1]);
    }
  }

  /** The job logs one turn per user. */
  lemma {:induction false} ScheduledLog(users: seq<User>, n: nat, tasks: seq<TaskDoc>, now: int, clock: seq<int>)
    requires n <= |users| == |clock|
    ensures Scheduled(users, n, tasks, now, clock).log == Turns(users, n)
  {
    if n > 0 {
      ScheduledStep(users, n, tasks, now, clock);
      ScheduledLog(users, n - 1, tasks, now, clock);
    }
  }

  /** `log` takes the first `n` users in order, each raise immediately
      followed by that user's reminders. */
  predicate InOrder(log: seq<Action>, users: seq<User>, n: nat)
    requires n <= |users|
  {
    && |log| == 2 * n
    && forall k :: 0 <= k < n ==>
         log[2 * k] == RaisePriorities(users[k].id) && log[2 * k + 1] == SendReminders(users[k].id)
  }

  lemma InOrderStep(log: seq<Action>, users: seq<User>, n: nat)
    requires 0 < n <= |users| && InOrder(log, users, n - 1)
    ensures InOrder(log + [RaisePriorities(users[n - 1].id), SendReminders(users[n - 1].id)], users, n)
  {
    var next := log + [RaisePriorities(users[n - 1].id), SendReminders(users[n - 1].id)];
    forall k | 0 <= k < n
      ensures next[2 * k] == RaisePriorities(users[k].id) && next[2 * k + 1] == SendReminders(users[k].id)
    {
      if k < n - 1 {
        assert next[2 * k] == log[2 * k] && next[2 * k + 1] == log[2 * k + 1];
      }
    }
  }

  /** The steps of the first `n` users' turns. */
  function Turns(users: seq<User>, n: nat): seq<Action>
    requires n <= |users|
  {
    if n == 0 then [] else Turns(users, n - 1) + [RaisePriorities(users[n - 1].id), SendReminders(users[n - 1].id)]
  }

  /** The job's log takes the users in order. */
  lemma {:induction false} TurnsInOrder(users: seq<User>, n: nat)
    requires n <= |users|
    ensures InOrder(Turns(users, n), users, n)
  {
    if n > 0 {
      TurnsInOrder(users, n - 1);
      InOrderStep(Turns(users, n - 1), users, n);
    }
  }

  /** checkScheduledTasks: one pass over all users. The job reads the clock
      once (`now`) for the priority bump; each user's reminder step reads it
      again, which `clock` supplies in user order. */
  method CheckScheduledTasks(users: seq<User>, tasks: seq<TaskDoc>, now: int, clock: seq<int>) returns (r: Run)
    requires |clock| == |users|
    ensures r == Scheduled(users, |users|, tasks, now, clock)
    ensures InOrder(r.log, users, |users|)
  {
    r := Run(tasks, [], []);
    var k := 0;
    while k < |users|
      invariant k <= |users|
      invariant r == Scheduled(users, k, tasks, now, clock)
    {
      ScheduledStep(users, k + 1, tasks, now, clock);
      r := UserTurn(users, r, users[k].id, now, clock[k]);
      k := k + 1;
    }
    JobInOrder(users, tasks, now, clock);
  }

  /** The whole job's log takes every user in order. */
  lemma JobInOrder(users: seq<User>, tasks: seq<TaskDoc>, now: int, clock: seq<int>)
    requires |clock| == |users|
    ensures InOrder(Scheduled(users, |users|, tasks, now, clock).log, users, |users|)
  {
    ScheduledLog(users, |users|, tasks, now, clock);
    TurnsInOrder(users, |users|);
  }

  // ---------------------------------------------------------------------------
  // Effect on one task
  // ---------------------------------------------------------------------------

  /** One user's two steps applied to one of that user's tasks: the bump
      at the job's time, then the reminder step at its own reading. */
  function AfterUserSteps(t: TaskDoc, subs: seq<Subscription>, now: int, notifyNow: int): TaskDoc {
    var raised := if ScheduleDue(t.user, now, t) then Raised(t, now) else t;
    if subs != [] && Selected(t.user, notifyNow, raised) then Marked(raised, notifyNow) else raised
  }

  /** What the whole job does to one task: the owner's steps, at the
      owner's reminder reading, when the owner is a user; nothing otherwise. */
  function AfterJob(t: TaskDoc, users: seq<User>, now: int, clock: seq<int>): TaskDoc
    requires |clock| == |users|
  {
    match FindUser(users, t.user)
    case None => t
    case Some(k) => AfterUserSteps(t, users[k].subscriptions, now, clock[k])
  }

  /** The user with this id is among the first `n` users. */
  predicate AmongFirst(users: seq<User>, n: nat, id: string) {
    FindUser(users, id).Some? && FindUser(users, id).value < n
  }

  /** What the first `n` turns do to one task. */
  function AfterTurns(t: TaskDoc, users: seq<User>, n: nat, now: int, clock: seq<int>): TaskDoc
    requires |clock| == |users|
  {
    if AmongFirst(users, n, t.user) then AfterJob(t, users, now, clock) else t
  }

  /** One user's step: that user's tasks go through AfterUserSteps, every
      other task is left alone. */
  lemma UserStepEffect(users: seq<User>, tasks: seq<TaskDoc>, k: nat, now: int, notifyNow: int)
    requires UsersUnique(users) && k < |users| && TitlesPresent(tasks)
    ensures
      var u := users[k].id;
      var after := SendTaskNotifications(users, RaiseDue(tasks, u, now), u, notifyNow).tasks;
      && TitlesPresent(after)
      && forall i :: 0 <= i < |tasks| ==>
           after[i] == if tasks[i].user == u then AfterUserSteps(tasks[i], users[k].subscriptions, now, notifyNow) else tasks[i]
  {
    var u := users[k].id;
    var raised := RaiseDue(tasks, u, now);
    assert FindUser(users, u) == Some(k);
    RaiseDueKeeps(tasks, u, now);
    SendKeeps(users, raised, u, notifyNow);
    SendsAndMarks(users, raised, u, notifyNow);
  }

  /** UserStepEffect for one task of a run. */
  lemma TurnAt(users: seq<User>, r: Run, k: nat, now: int, notifyNow: int, i: nat)
    requires UsersUnique(users) && k < |users| && TitlesPresent(r.tasks) && i < |r.tasks|
    ensures
      var after := UserTurn(users, r, users[k].id, now, notifyNow).tasks;
      after[i] == if r.tasks[i].user == users[k].id
                     then AfterUserSteps(r.tasks[i], users[k].subscriptions, now, notifyNow) else r.tasks[i]
  {
    UserStepEffect(users, r.tasks, k, now, notifyNow);
  }

  /** One task through one more turn: the `n`-th user's turn does to it what
      the whole job does if it belongs to that user, and nothing otherwise. */
  lemma TaskAfterTurn(users: seq<User>, n: nat, t: TaskDoc, before: TaskDoc, after: TaskDoc, now: int, clock: seq<int>)
    requires UsersUnique(users) && 0 < n <= |users| == |clock|
    requires before.user == t.user
    requires before == AfterTurns(t, users, n - 1, now, clock)
    requires after == if before.user == users[n - 1].id
                      then AfterUserSteps(before, users[n - 1].subscriptions, now, clock[n - 1]) else before
    ensures after == AfterTurns(t, users, n, now, clock)
  {
    var u := users[n - 1].id;
    if t.user == u {
      assert FindUser(users, u) == Some(n - 1);
    }
  }

  /** After the first `n` users, the tasks of those users have gone through
      their owner's steps once and all others are untouched. */
  lemma {:induction false} ScheduledEffect(users: seq<User>, n: nat, tasks: seq<TaskDoc>, now: int, clock: seq<int>)
    requires UsersUnique(users) && n <= |users| == |clock| && TitlesPresent(tasks)
    ensures
      var r := Scheduled(users, n, tasks, now, clock);
      forall i :: 0 <= i < |tasks| ==> r.tasks[i] == AfterTurns(tasks[i], users, n, now, clock)
  {
    if n > 0 {
      var prev := Scheduled(users, n - 1, tasks, now, clock);
      ScheduledEffect(users, n - 1, tasks, now, clock);
      ScheduledSameIds(users, n - 1, tasks, now, clock);
      ScheduledTitles(users, n - 1, tasks, now, clock);
      ScheduledStep(users, n, tasks, now, clock);
      TurnEffect(users, n, tasks, prev, now, clock);
    }
  }

  /** The `n`-th turn takes every task from its state after `n - 1` turns
      to its state after `n`. */
  lemma TurnEffect(users: seq<User>, n: nat, tasks: seq<TaskDoc>, prev: Run, now: int, clock: seq<int>)
    requires UsersUnique(users) && 0 < n <= |users| == |clock|
    requires TitlesPresent(prev.tasks) && SameIds(tasks, prev.tasks)
    requires forall i :: 0 <= i < |tasks| ==> prev.tasks[i] == AfterTurns(tasks[i], users, n - 1, now, clock)
    ensures
      var r := UserTurn(users, prev, users[n - 1].id, now, clock[n - 1]);
      forall i :: 0 <= i < |tasks| ==> r.tasks[i] == AfterTurns(tasks[i], users, n, now, clock)
  {
    var r := UserTurn(users, prev, users[n - 1].id, now, clock[n - 1]);
    forall i | 0 <= i < |tasks| ensures r.tasks[i] == AfterTurns(tasks[i], users, n, now, clock) {
      TurnAt(users, prev, n - 1, now, clock[n - 1], i);
      TaskAfterTurn(users, n, tasks[i], prev.tasks[i], r.tasks[i], now, clock);
    }
  }

  /** The job applies AfterJob to every task. */
  lemma JobEffect(users: seq<User>, tasks: seq<TaskDoc>, now: int, clock: seq<int>)
    requires UsersUnique(users) && TitlesPresent(tasks) && |clock| == |users|
    ensures
      var r := Scheduled(users, |users|, tasks, now, clock);
      forall i :: 0 <= i < |tasks| ==> r.tasks[i] == AfterJob(tasks[i], users, now, clock)
  {
    ScheduledEffect(users, |users|, tasks, now, clock);
  }

  /** Every uncompleted task of a user whose priority schedule has come ends
      at priority 1, snoozed or not; its schedule, snooze state and title
      stay as they were, and no task of a non-user changes. */
  lemma JobRaisesDueTasks(users: seq<User>, tasks: seq<TaskDoc>, now: int, clock: seq<int>)
    requires UsersUnique(users) && TitlesPresent(tasks) && |clock| == |users|
    ensures
      var r := Scheduled(users, |users|, tasks, now, clock);
      forall i :: 0 <= i < |tasks| ==>
        && (FindUser(users, tasks[i].user).Some? && IsDue(tasks[i].prioritySchedule, now) && !tasks[i].completed
            ==> r.tasks[i].priority == Some(1))
        && r.tasks[i].prioritySchedule == tasks[i].prioritySchedule
        && r.tasks[i].snoozed == tasks[i].snoozed && r.tasks[i].snoozeUntil == tasks[i].snoozeUntil
        && r.tasks[i].title == tasks[i].title && r.tasks[i].completed == tasks[i].completed
        && (FindUser(users, tasks[i].user).None? ==> r.tasks[i] == tasks[i])
  {
    var r := Scheduled(users, |users|, tasks, now, clock);
    JobEffect(users, tasks, now, clock);
    forall i | 0 <= i < |tasks|
      ensures
        && (FindUser(users, tasks[i].user).Some? && IsDue(tasks[i].prioritySchedule, now) && !tasks[i].completed
            ==> r.tasks[i].priority == Some(1))
        && r.tasks[i].prioritySchedule == tasks[i].prioritySchedule
        && r.tasks[i].snoozed == tasks[i].snoozed && r.tasks[i].snoozeUntil == tasks[i].snoozeUntil
        && r.tasks[i].title == tasks[i].title && r.tasks[i].completed == tasks[i].completed
        && (FindUser(users, tasks[i].user).None? ==> r.tasks[i] == tasks[i])
    {
      AfterJobKeeps(tasks[i], users, now, clock);
    }
  }

  /** What the job does to one task. */
  lemma AfterJobKeeps(t: TaskDoc, users: seq<User>, now: int, clock: seq<int>)
    requires |clock| == |users|
    ensures
      var a := AfterJob(t, users, now, clock);
      && (FindUser(users, t.user).Some? && IsDue(t.prioritySchedule, now) && !t.completed ==> a.priority == Some(1))
      && a.prioritySchedule == t.prioritySchedule
      && a.snoozed == t.snoozed && a.snoozeUntil == t.snoozeUntil
      && a.title == t.title && a.completed == t.completed
      && (FindUser(users, t.user).None? ==> a == t)
  {
  }

  /** A reminder is sent for a task exactly when its notification date has
      come by the owner's own reading, not by the job's earlier one. */
  lemma ReminderUsesOwnReading(t: TaskDoc, subs: seq<Subscription>, now: int, notifyNow: int)
    requires subs != [] && !t.completed && t.notificationSent != Some(true)
    ensures AfterUserSteps(t, subs, now, notifyNow).notificationSent == Some(true) <==> IsDue(t.notificationDate, notifyNow)
  {
  }

  /** One user's steps run twice at the same times are run once. */
  lemma AfterUserStepsIdempotent(t: TaskDoc, subs: seq<Subscription>, now: int, notifyNow: int)
    ensures AfterUserSteps(AfterUserSteps(t, subs, now, notifyNow), subs, now, notifyNow)
      == AfterUserSteps(t, subs, now, notifyNow)
  {
    var a := AfterUserSteps(t, subs, now, notifyNow);
    assert !ScheduleDue(a.user, now, a) || !ScheduleDue(t.user, now, t);
  }

  /** A second job with the same clock readings leaves the collection as the
      first one left it. */
  lemma JobIdempotent(users: seq<User>, tasks: seq<TaskDoc>, now: int, clock: seq<int>)
    requires UsersUnique(users) && TitlesPresent(tasks) && |clock| == |users|
    ensures
      var first := Scheduled(users, |users|, tasks, now, clock);
      Scheduled(users, |users|, first.tasks, now, clock).tasks == first.tasks
  {
    var first := Scheduled(users, |users|, tasks, now, clock);
    ScheduledSameIds(users, |users|, tasks, now, clock);
    ScheduledTitles(users, |users|, tasks, now, clock);
    JobEffect(users, tasks, now, clock);
    ScheduledEffect(users, |users|, tasks, now, clock);
    JobEffect(users, first.tasks, now, clock);
    var second := Scheduled(users, |users|, first.tasks, now, clock);
    forall i | 0 <= i < |tasks| ensures second.tasks[i] == first.tasks[i] {
      assert first.tasks[i].user == tasks[i].user;
      match FindUser(users, tasks[i].user)
      case None =>
      case Some(k) => AfterUserStepsIdempotent(tasks[i], users[k].subscriptions, now, clock[k]);
    }
  }
}
