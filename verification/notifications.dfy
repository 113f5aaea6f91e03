/*
 * Push notifications on the server (backend/routes/notifications.js): the
 * public-key and subscribe routes, and sendTaskNotifications, which picks a
 * user's due reminders, attempts one push per reminder and subscription,
 * and marks each picked task so it is not picked again. Delivery itself
 * (web-push) is an attempt whose outcome does not change anything: a failed
 * send is logged and skipped.
 */
module Notifications {
  import opened Base
  import opened ServerModel

  // ---------------------------------------------------------------------------
  // Routes
  // ---------------------------------------------------------------------------

  /** One web-push send attempt: the subscription and the payload's title;
      `taskId` is the task a reminder is about ("" for the welcome push). */
  datatype Push = Push(subscription: Subscription, title: string, taskId: string)

  const WelcomeTitle := "Task Lab Notifications Enabled!"
  const ReminderPrefix := "Reminder: "

  datatype Reply = Unauthorized | PublicKey(key: string) | KeyNotConfigured | Subscribed

  function Status(r: Reply): int {
    match r
    case Unauthorized => 401
    case PublicKey(_) => 200
    case KeyNotConfigured => 500
    case Subscribed => 201
  }

  /** GET /vapidPublicKey: the configured key, which must be set and
      non-empty. */
  function VapidPublicKey(s: Session, configured: Option<string>): (r: Reply)
    ensures s.Anonymous? <==> r.Unauthorized?
    ensures r.KeyNotConfigured? <==> s.SignedIn? && (configured.None? || configured.value == "")
    ensures r.PublicKey? ==> configured == Some(r.key) && r.key != ""
  {
    if s.Anonymous? then Unauthorized
    else if configured.None? || configured.value == "" then KeyNotConfigured
    else PublicKey(configured.value)
  }

  datatype SubscribeOutcome = SubscribeOutcome(reply: Reply, users: seq<User>, pushes: seq<Push>)

  /** POST /subscribe: findByIdAndUpdate with `$push`, then a welcome push.
      A user that no longer exists is updated nowhere, and the answer is
      201 all the same. */
  function Subscribe(s: Session, users: seq<User>, subscription: Subscription): (r: SubscribeOutcome)
    ensures s.Anonymous? ==> r == SubscribeOutcome(Unauthorized, users, [])
    ensures s.SignedIn? ==> r.reply == Subscribed && r.pushes == [Push(subscription, WelcomeTitle, "")]
    ensures s.SignedIn? && FindUser(users, s.user.id).None? ==> r.users == users
    ensures s.SignedIn? && FindUser(users, s.user.id).Some? ==>
      var i := FindUser(users, s.user.id).value;
      r.users == users[i := users[i].(subscriptions := users[i].subscriptions + [subscription])]
    ensures UsersUnique(users) ==> UsersUnique(r.users)
  {
    if s.Anonymous? then SubscribeOutcome(Unauthorized, users, [])
    else
      var after := match FindUser(users, s.user.id)
        case None => users
        case Some(i) => users[i := users[i].(subscriptions := users[i].subscriptions + [subscription])];
      SubscribeOutcome(Subscribed, after, [Push(subscription, WelcomeTitle, "")])
  }

  // ---------------------------------------------------------------------------
  // sendTaskNotifications
  // ---------------------------------------------------------------------------

  /** The query: the user's uncompleted tasks whose notification date has
      come and that have not been marked (a missing mark counts as not
      sent). */
  predicate Selected(user: string, now: int, t: TaskDoc) {
    t.user == user && IsDue(t.notificationDate, now) && !t.completed && t.notificationSent != Some(true)
  }

  function SelectedBy(user: string, now: int): TaskDoc -> bool {
    (t: TaskDoc) => Selected(user, now, t)
  }

  /** The task after `notificationSent = true; save()`. */
  function Marked(t: TaskDoc, now: int): TaskDoc {
    t.(notificationSent := Some(true), updatedAt := now)
  }

  /** One reminder per subscription, in subscription order. */
  function Reminders(t: TaskDoc, subs: seq<Subscription>): (r: seq<Push>)
    ensures |r| == |subs|
    ensures forall k :: 0 <= k < |r| ==> r[k] == Push(subs[k], ReminderPrefix + t.title, t.id)
  {
    seq(|subs|, k requires 0 <= k < |subs| => Push(subs[k], ReminderPrefix + t.title, t.id))
  }

  /** The reminders for a run of tasks, task by task. */
  function AllReminders(tasks: seq<TaskDoc>, subs: seq<Subscription>): (r: seq<Push>)
    ensures |r| == |tasks| * |subs|
  {
    if tasks == [] then [] else Reminders(tasks[0], subs) + AllReminders(tasks[1..], subs)
  }

  /** What a pass leaves: the collection, the send attempts in order, and
      whether it ran to the end (a save that throws ends it early; the
      error is caught and logged). */
  datatype Pass = Pass(tasks: seq<TaskDoc>, pushes: seq<Push>, ok: bool)

  /** The loop over the selected tasks, in collection order: send to every
      subscription, then mark and save. */
  function NotifyTasks(tasks: seq<TaskDoc>, user: string, subs: seq<Subscription>, now: int): (r: Pass)
    ensures |r.tasks| == |tasks|
  {
    if tasks == [] then Pass([], [], true)
    else
      var t := tasks[0];
      var rest := NotifyTasks(tasks[1..], user, subs, now);
      if Selected(user, now, t) then
        match SaveTask(t, t.(notificationSent := Some(true)), now)
        case Invalid(_) => Pass(tasks, Reminders(t, subs), false)
        case Valid(doc) => Pass([doc] + rest.tasks, Reminders(t, subs) + rest.pushes, rest.ok)
      else Pass([t] + rest.tasks, rest.pushes, rest.ok)
  }

  /** With every title present no save throws, so the pass runs to the
      end. */
  lemma {:induction false} NotifyRunsThrough(tasks: seq<TaskDoc>, user: string, subs: seq<Subscription>, now: int)
    requires TitlesPresent(tasks)
    ensures NotifyTasks(tasks, user, subs, now).ok
  {
    if tasks != [] {
      NotifyRunsThrough(tasks[1..], user, subs, now);
    }
  }

  /** The first task of a pass whose save cannot throw. */
  lemma NotifyHead(tasks: seq<TaskDoc>, user: string, subs: seq<Subscription>, now: int)
    requires tasks != [] && (!Selected(user, now, tasks[0]) || tasks[0].title != "")
    ensures
      var r := NotifyTasks(tasks, user, subs, now);
      var rest := NotifyTasks(tasks[1..], user, subs, now);
      && r.tasks == [if Selected(user, now, tasks[0]) then Marked(tasks[0], now) else tasks[0]] + rest.tasks
      && r.ok == rest.ok
  {
  }

  /** The first task of a pass whose save throws: the pass stops there. */
  lemma NotifyHeadThrows(tasks: seq<TaskDoc>, user: string, subs: seq<Subscription>, now: int)
    requires tasks != [] && Selected(user, now, tasks[0]) && tasks[0].title == ""
    ensures NotifyTasks(tasks, user, subs, now).tasks == tasks
    ensures !NotifyTasks(tasks, user, subs, now).ok
  {
  }

  /** Each task is either left alone or marked, and only a selected one is
      marked. */
  lemma {:induction false} NotifyMarksOnlySelected(tasks: seq<TaskDoc>, user: string, subs: seq<Subscription>, now: int)
    ensures
      var r := NotifyTasks(tasks, user, subs, now);
      forall i :: 0 <= i < |tasks| ==>
        r.tasks[i] == tasks[i] || (Selected(user, now, tasks[i]) && r.tasks[i] == Marked(tasks[i], now))
  {
    if tasks != [] {
      var t := tasks[0];
      var r := NotifyTasks(tasks, user, subs, now);
      var rest := NotifyTasks(tasks[1..], user, subs, now);
      if Selected(user, now, t) && t.title == "" {
        NotifyHeadThrows(tasks, user, subs, now);
      } else {
        NotifyMarksOnlySelected(tasks[1..], user, subs, now);
        NotifyHead(tasks, user, subs, now);
        forall i | 0 <= i < |tasks|
          ensures r.tasks[i] == tasks[i] || (Selected(user, now, tasks[i]) && r.tasks[i] == Marked(tasks[i], now))
        {
          if i > 0 {
            assert r.tasks[i] == rest.tasks[i - 1] && tasks[i] == tasks[1..][i - 1];
          }
        }
      }
    }
  }

  /** A pass that runs to the end marks exactly the selected tasks. */
  lemma {:induction false} NotifyMarksAllSelected(tasks: seq<TaskDoc>, user: string, subs: seq<Subscription>, now: int)
    ensures
      var r := NotifyTasks(tasks, user, subs, now);
      r.ok ==> forall i :: 0 <= i < |tasks| ==>
        r.tasks[i] == if Selected(user, now, tasks[i]) then Marked(tasks[i], now) else tasks[i]
  {
    if tasks != [] {
      var t := tasks[0];
      var r := NotifyTasks(tasks, user, subs, now);
      var rest := NotifyTasks(tasks[1..], user, subs, now);
      if Selected(user, now, t) && t.title == "" {
        NotifyHeadThrows(tasks, user, subs, now);
      } else {
        NotifyMarksAllSelected(tasks[1..], user, subs, now);
        NotifyHead(tasks, user, subs, now);
        if r.ok {
          forall i | 0 <= i < |tasks|
            ensures r.tasks[i] == if Selected(user, now, tasks[i]) then Marked(tasks[i], now) else tasks[i]
          {
            if i > 0 {
              assert r.tasks[i] == rest.tasks[i - 1] && tasks[i] == tasks[1..][i - 1];
            }
          }
        }
      }
    }
  }

  /** The three facts above together. */
  lemma NotifyEffect(tasks: seq<TaskDoc>, user: string, subs: seq<Subscription>, now: int)
    ensures
      var r := NotifyTasks(tasks, user, subs, now);
      && (forall i :: 0 <= i < |tasks| ==>
            r.tasks[i] == tasks[i] || (Selected(user, now, tasks[i]) && r.tasks[i] == Marked(tasks[i], now)))
      && (r.ok ==> forall i :: 0 <= i < |tasks| ==>
            r.tasks[i] == if Selected(user, now, tasks[i]) then Marked(tasks[i], now) else tasks[i])
      && (TitlesPresent(tasks) ==> r.ok)
  {
    NotifyMarksOnlySelected(tasks, user, subs, now);
    NotifyMarksAllSelected(tasks, user, subs, now);
    if TitlesPresent(tasks) {
      NotifyRunsThrough(tasks, user, subs, now);
    }
  }

  /** A pass that runs to the end attempts exactly the reminders of the
      selected tasks, in collection order. */
  lemma {:induction false} NotifyPushes(tasks: seq<TaskDoc>, user: string, subs: seq<Subscription>, now: int)
    requires NotifyTasks(tasks, user, subs, now).ok
    ensures NotifyTasks(tasks, user, subs, now).pushes == AllReminders(Filter(SelectedBy(user, now), tasks), subs)
  {
    if tasks != [] {
      NotifyPushes(tasks[1..], user, subs, now);
      var sel := SelectedBy(user, now);
      if sel(tasks[0]) {
        assert Filter(sel, tasks) == [tasks[0]] + Filter(sel, tasks[1..]);
        assert Filter(sel, tasks)[1..] == Filter(sel, tasks[1..]);
      } else {
        assert Filter(sel, tasks) == Filter(sel, tasks[1..]);
      }
    }
  }

  /** sendTaskNotifications(userId): the loop over the user's selected
      tasks when the user exists and has subscriptions. */
  function SendTaskNotifications(users: seq<User>, tasks: seq<TaskDoc>, user: string, now: int): (r: Pass)
    ensures |r.tasks| == |tasks|
  {
    match FindUser(users, user)
    case None => Pass(tasks, [], true)
    case Some(i) =>
      if users[i].subscriptions == [] then Pass(tasks, [], true)
      else NotifyTasks(tasks, user, users[i].subscriptions, now)
  }

  /** Nothing happens for a missing user or one without subscriptions; ids
      and owners stay in place, other users' tasks are untouched, and with
      every title present the pass runs through and keeps them present. */
  lemma SendKeeps(users: seq<User>, tasks: seq<TaskDoc>, user: string, now: int)
    ensures
      var r := SendTaskNotifications(users, tasks, user, now);
      && (FindUser(users, user).None? ==> r == Pass(tasks, [], true))
      && (FindUser(users, user).Some? && users[FindUser(users, user).value].subscriptions == [] ==>
            r == Pass(tasks, [], true))
      && SameIds(tasks, r.tasks)
      && (forall i :: 0 <= i < |tasks| && tasks[i].user != user ==> r.tasks[i] == tasks[i])
      && (TitlesPresent(tasks) ==> r.ok && TitlesPresent(r.tasks))
  {
    match FindUser(users, user)
    case None =>
    case Some(i) =>
      if users[i].subscriptions != [] {
        NotifyEffect(tasks, user, users[i].subscriptions, now);
      }
  }

  /** A user with subscriptions gets exactly one attempt per (selected task,
      subscription) pair, every selected task is marked whether or not its
      sends succeeded, and nothing else changes. */
  lemma SendsAndMarks(users: seq<User>, tasks: seq<TaskDoc>, user: string, now: int)
    requires TitlesPresent(tasks)
    requires FindUser(users, user).Some?
    ensures
      var subs := users[FindUser(users, user).value].subscriptions;
      var r := SendTaskNotifications(users, tasks, user, now);
      && r.pushes == AllReminders(Filter(SelectedBy(user, now), tasks), subs)
      && |r.pushes| == |Filter(SelectedBy(user, now), tasks)| * |subs|
      && forall i :: 0 <= i < |tasks| ==>
           r.tasks[i] == if subs != [] && Selected(user, now, tasks[i]) then Marked(tasks[i], now) else tasks[i]
  {
    var subs := users[FindUser(users, user).value].subscriptions;
    if subs != [] {
      NotifyEffect(tasks, user, subs, now);
      NotifyPushes(tasks, user, subs, now);
    } else {
      assert AllReminders(Filter(SelectedBy(user, now), tasks), subs) == [] by {
        NoRemindersWithoutSubscriptions(Filter(SelectedBy(user, now), tasks));
      }
    }
  }

  lemma {:induction false} NoRemindersWithoutSubscriptions(tasks: seq<TaskDoc>)
    ensures AllReminders(tasks, []) == []
  {
    if tasks != [] {
      NoRemindersWithoutSubscriptions(tasks[1..]);
    }
  }

  /** Running the pass again at the same time selects none of the tasks it
      marked, so it sends nothing and changes nothing. */
  lemma SendIdempotent(users: seq<User>, tasks: seq<TaskDoc>, user: string, now: int)
    requires TitlesPresent(tasks)
    ensures
      var first := SendTaskNotifications(users, tasks, user, now);
      SendTaskNotifications(users, first.tasks, user, now) == Pass(first.tasks, [], true)
  {
    var first := SendTaskNotifications(users, tasks, user, now);
    match FindUser(users, user)
    case None =>
    case Some(j) =>
      var subs := users[j].subscriptions;
      if subs != [] {
        NotifyEffect(tasks, user, subs, now);
        assert forall i :: 0 <= i < |first.tasks| ==> !Selected(user, now, first.tasks[i]);
        NothingSelected(first.tasks, user, subs, now);
      }
  }

  /** With no task selected the loop leaves everything as it was. */
  lemma {:induction false} NothingSelected(tasks: seq<TaskDoc>, user: string, subs: seq<Subscription>, now: int)
    requires forall i :: 0 <= i < |tasks| ==> !Selected(user, now, tasks[i])
    ensures NotifyTasks(tasks, user, subs, now) == Pass(tasks, [], true)
  {
    if tasks != [] {
      NothingSelected(tasks[1..], user, subs, now);
    }
  }
}
