# Task Lab, offline-first task handling and server task rules, in Dafny

Task Lab is a to-do application. It has a browser client that works offline and an Express/Mongo server. This project models two halves of it as pure state transitions over immutable values.

**The client**
- The mutation handlers change the local IndexedDB copy first. They then call the REST API. When that call fails, they keep the local change and queue the request for background sync.
- The local store, the task sort and the dashboard view.
- The service worker's replay of the queue, its cache clean-up rule and its fetch routing rule.
- The REST client's request shaping and response classification.
- The snooze countdown arithmetic.
- The decoding of the URL-safe base64 push key (sections 4 and 5 of RFC 4648).

**The server**
- The authentication gate.
- The task pass of backend/middleware.js, which wakes expired snoozes and raises due priorities. It is a middleware the server never mounts.
- The minutely scheduled job.
- Reminder selection and marking.
- The task, list and registration routes.
- The task and user documents with their defaults, normalisation, validation and password hook.

**What stands in for I/O.** The browser, the network, IndexedDB, MongoDB and the clock are parameters:
- the server's answer to a call (`Reply`, `FetchOutcome`, `NetworkResult`);
- the current time in milliseconds (`now`); where the code reads the clock more than once in one run, each reading is a parameter of its own (the scheduler's per-user `clock`, the middleware's `notifyNow`);
- whether the browser supports background sync;
- the password hash and compare functions.

Collections are sequences in natural order, or maps keyed by id. Timestamps are integer milliseconds since the epoch.

**Modules** (one per source file):
- `Base`: strings, trim, lower case, numerals, filter.
- `Api`: frontend/api.js.
- `LocalDb`: frontend/modules/localDb.js.
- `TaskSync`: frontend/modules/taskSync.js.
- `TaskActions`: frontend/modules/taskActions.js.
- `TaskRenderer`: frontend/modules/taskRenderer.js.
- `PushKey`: frontend/pushNotifications.js.
- `ServiceWorker`: frontend/sw.js.
- `ServerModel`: backend/models/task.js and backend/models/user.js.
- `TaskRoutes`, `ListRoutes`, `AuthRoutes`, `Notifications`: the routers.
- `Middleware`: backend/middleware.js.
- `Scheduler`: backend/scheduler.js.

**Where the model departs from a plain reading of the code**
- The client queue: the catch blocks call `db.addToRequestQueue`, which localDb.js does not define. The model keeps that as-written behaviour (see Findings) and uses the evidently intended append everywhere else.
- The server task fields: the task schema declares only `title`, `user` and `completed`. The routes and passes also use `priority`, `snoozed`, `snoozeUntil`, `prioritySchedule`, `notificationDate` and `notificationSent`. Those are `Option`s: `None` is a missing field, and the query conditions treat a missing field the way MongoDB does.
- The service-worker replay is modelled as the code does it. Every entry is re-sent as `POST /api/tasks` with the whole entry as body. Only the `sync-new-task` tag starts a replay. The task store is never reconciled.
- The sort of completed tasks: a completed task loaded from the server has no `completedTimestamp`, because the server schema keeps none. Its Date is NaN, so the comparator answers 0 against every other completed task. The comparator is then no preorder when timed and untimed completed tasks mix, and ECMAScript leaves the order to the implementation. The model's insertion sort gives one such order; its ordering lemmas cover the two consistent cases.
- The username lookup: auth.js looks up the lower-cased raw name. Mongoose casts a filter value through the path's trim and lowercase setters, so the lookup asks for exactly the stored form.
- Task ids in PUT and DELETE: an id that is not 24 hex digits cannot be cast to an ObjectId. The query throws, and the route answers 500. A task added offline keeps its `temp-<now>` id, so updating or deleting it by that id gets 500, not 404.
- Client task priority: a task created by the server has no `priority` until a scheduled bump gives it one, so the client's record holds an `Option`. The row renderer writes a missing one as `priority-undefined`, as the template literal does.
- The task middleware: no backend file requires backend/middleware.js, and backend/server.js:91-93 mounts only the auth, task and notification routers. routes/tasks.js has its own inline authentication guard. So the snooze-wake and priority-bump passes never run on a request; they are modelled as the file defines them. The scheduled job is the only code path that raises priorities.
- Two client calls have no server route. `POST /api/tasks/<id>/snooze` matches no route, so a signed-in user gets Express's default 404. `GET /api/tasks/dashboard?…` matches no task route, so it falls to the catch-all of backend/server.js:101-103, which answers index.html with status 200. The model leaves these replies abstract: `Reply` is a parameter of the client actions.
- The lists router: backend/server.js:91-93 does not mount it. Its handlers are modelled as the file defines them, over the `lists` field of a user. That field is not declared in the user schema.

## Model

| member | source | states |
|---|---|---|
| LocalDb.Upgrade | frontend/modules/localDb.js:12-19 | the upgrade only adds stores: every old store survives with its key path; a new store is `tasks` (below version 1) or `lists` (below version 2), keyed `_id` and `name`; it fails exactly when it would re-create an existing store |
| LocalDb.UpgradeReachesCurrentSchema | frontend/modules/localDb.js:10-21 | from any earlier version's stores, opening at version 3 yields both stores with their key paths, and reopening changes nothing |
| LocalDb.GetTask | frontend/modules/localDb.js:51-54 | a record is returned exactly when its key is stored, and it sits under its own id |
| LocalDb.PutTask | frontend/modules/localDb.js:36-44 | addTask/updateTask upsert: afterwards getTask(id) is the record, every other key reads as before, the key set gains just that id, lists and queue are untouched |
| LocalDb.DeleteTask | frontend/modules/localDb.js:46-49 | the key is gone, every other key reads as before, and deleting an absent key changes nothing |
| LocalDb.PutAllAt | frontend/modules/localDb.js:27 | after a run of puts a key is present iff it was or some put had it, and it holds the last such put |
| LocalDb.SaveTasks | frontend/modules/localDb.js:23-29 | clear-then-put: the store holds exactly the ids of the given tasks, and for each id its last occurrence wins |
| LocalDb.GetAllTasks | frontend/modules/localDb.js:31-34 | returns every stored record exactly once, each equal to what getTask returns for its id |
| LocalDb.SaveLists | frontend/modules/localDb.js:56-62 | the list store afterwards holds exactly the given names; tasks and queue untouched |
| LocalDb.GetAllLists | frontend/modules/localDb.js:64-68 | returns each stored name exactly once and nothing else |
| LocalDb.AddList | frontend/modules/localDb.js:70-73 | adds just that name |
| LocalDb.DeleteList | frontend/modules/localDb.js:75-78 | removes just that name |
| LocalDb.ListOperations | frontend/modules/localDb.js:70-78 | adding a list twice is adding it once; adding a fresh name then deleting it restores the store |
| TaskActions.RecordFailure | frontend/modules/taskActions.js:87-101 | the intended catch block: with background sync exactly one entry is appended and the tag registered; without it nothing changes; tasks and lists are never touched |
| TaskActions.RecordFailureAsWritten | frontend/modules/taskActions.js:91-97 | the catch block as written: the undefined queue function throws, so the queue is unchanged and no tag is registered |
| TaskActions.AsWrittenQueuesNothing | frontend/modules/taskActions.js:91-100 | on a browser with background sync the as-written catch adds no entry where the intended one adds one |
| TaskActions.HandleAddTask | frontend/modules/taskActions.js:55-103 | a title blank after trimming changes nothing; otherwise the store gains the optimistic `temp-<now>` record, a confirmed add swaps it for the server's record under the server's id, and a failed add keeps it and queues one POST /api/tasks entry carrying the temporary id |
| TaskActions.OfflineAdd | frontend/modules/taskActions.js:57-71 | an offline add leaves exactly one new key `temp-<now>` holding the trimmed title, neither completed nor snoozed, and one queued POST /api/tasks entry for it |
| TaskActions.HandleDeleteTask | frontend/modules/taskActions.js:105-127 | without confirmation nothing happens; otherwise the record is removed locally whatever the server says, other keys are unchanged, and a failure queues one DELETE /api/tasks/:id entry |
| TaskActions.CallReply | frontend/api.js:22-35 | an awaited API call fails exactly when fetch rejects, the status is not 2xx, or a body announced as JSON does not parse |
| TaskActions.DeleteQueuedIffCallFails | frontend/modules/taskActions.js:105-127 | a confirmed delete with background sync adds a queue entry iff its call failed in one of those three ways |
| TaskActions.Merge | frontend/modules/taskActions.js:132-141 | the edit form's five fields overwrite the stored task's; id, completion and snooze fields are kept |
| TaskActions.HandleUpdateTask | frontend/modules/taskActions.js:129-165 | the stored task becomes the merge of the form over it, other keys are unchanged, and a failure queues one PUT /api/tasks/:id entry with the patch; with no stored task nothing happens |
| TaskActions.Toggle | frontend/modules/taskActions.js:168-173 | `completed` is set to the argument, the timestamp is present iff completed (and is `now` then), every other field is unchanged |
| TaskActions.HandleToggleCompletion | frontend/modules/taskActions.js:167-194 | the toggled record is stored, other keys unchanged, and a failure queues one PUT with `{completed, completedTimestamp}`; with no stored task nothing is stored or sent |
| TaskActions.ToggleTwiceOffline | frontend/modules/taskActions.js:167-194 | toggling on then off offline leaves the record as it was with a null timestamp and queues the two PUTs in order |
| TaskActions.SnoozeFor | frontend/modules/taskActions.js:196-221 | `'unsnooze'`, a non-positive number, NaN or an unknown word unsnooze; `'1h'`/60 and `'1d'`/1440 snooze for 3,600,000 and 86,400,000 ms; another positive n snoozes for n·60,000 ms; an out-of-range target throws; snoozed iff a wake-up time is set |
| TaskActions.HandleSnoozeTask | frontend/modules/taskActions.js:196-243 | the stored task gets the snooze fields, other keys are unchanged, and a failure queues one POST /api/tasks/:id/snooze entry with `{duration}`; with no stored task, or a target out of the Date range, nothing is stored or sent |
| TaskActions.SwipeSnooze | frontend/modules/taskActions.js:358-406 | a gesture snoozes only when swiping is enabled, it started on an uncompleted row outside the controls, and the displacement is below −50; a snoozed row is unsnoozed, otherwise below −150 gives `'1d'` and else `'1h'` |
| TaskActions.SwipeOutcome | frontend/modules/taskActions.js:367-370 | a swipe on an unsnoozed row snoozes it until now+1 h, or now+1 d past 150 px; on a snoozed row it clears the snooze |
| TaskActions.ToLocalDatetimeString | frontend/modules/taskActions.js:268-278 | `''` for a falsy or invalid date, else the year followed by `-MM-DDTHH:MM` |
| TaskActions.DatetimeStringRoundTrip | frontend/modules/taskActions.js:268-278 | the formatted string reads back to exactly the date parts it came from, with the month made 1-based and every later field zero-padded to two digits |
| TaskActions.YearRoundTrip | frontend/modules/taskActions.js:271 | the year numeral, signed or not, reads back to the year |
| TaskSync.CompareTotal | frontend/modules/taskSync.js:23-28 | on any tasks the comparator is reflexive, antisymmetric and total; a NaN difference counts as 0 |
| TaskSync.CompareTransitive | frontend/modules/taskSync.js:23-28 | it is transitive when every completed task has a valid time or none has |
| TaskSync.UntimedBreaksTransitivity | frontend/modules/taskSync.js:26 | a completed task without a time between two completed at different times breaks transitivity, so the source order is then unspecified |
| TaskSync.SortTasks | frontend/modules/taskSync.js:22-28 | the result is a permutation of the store |
| TaskSync.SortSorted | frontend/modules/taskSync.js:22-28 | on a store the comparator is consistent on, the result is sorted by it |
| TaskSync.TimedSortSpec | frontend/modules/taskSync.js:22-28 | when every completed task has a time: a permutation with every incomplete task before every completed one, completed tasks latest first, and incomplete tasks in store order |
| TaskSync.UntimedSortSpec | frontend/modules/taskSync.js:22-28 | when no completed task has a time, as after a load from the server: the incomplete tasks in store order, then the completed ones in store order |
| TaskSync.Visible | frontend/modules/taskSync.js:30-41 | the browse view is the whole sorted store; the dashboard shows only unsnoozed, uncompleted tasks of the current list (or all lists) and exactly min(limit, n) of them when n tasks qualify (a negative limit counts back from the end, as `slice` does) |
| TaskSync.DashboardDefaults | frontend/modules/taskSync.js:34-35 | with no stored settings the dashboard shows at most 3 tasks, all of list `home` |
| TaskSync.DashboardIsPrefix | frontend/modules/taskSync.js:38-40 | the dashboard is the first min(limit, n) of the n qualifying tasks in sorted order; a qualifying task is left out only once the limit is reached |
| TaskSync.SyncAndLoadTasks | frontend/modules/taskSync.js:8-19 | a successful load makes the store hold exactly the server's task ids; a failed load leaves it; rendering is from the store either way: what is shown is Visible of a listing of the stored records, so browse is every stored task exactly once in the comparator's sorted order; the dashboard shows only stored, qualifying tasks, at most `limit` of them, and leaves out a qualifying stored task only once the limit is reached |
| ServiceWorker.CachesToDelete | frontend/sw.js:27-40 | activate deletes exactly the caches whose names are neither the static nor the dynamic cache name |
| ServiceWorker.ActivateIdempotent | frontend/sw.js:30-36 | after activation there is nothing left to delete, and both current caches survive when present |
| ServiceWorker.HandleFetch | frontend/sw.js:43-66 | `/api/` URLs go to the network, falling back to the cache only for GET and rethrowing for other methods; other URLs are served from the cache first, then the network |
| ServiceWorker.FetchRouting | frontend/sw.js:46-56 | a mutating API request never depends on or comes from the cache; a cached static asset never depends on the network |
| ServiceWorker.ReplayRequest | frontend/sw.js:89-93 | every queued entry is re-sent as POST /api/tasks with the whole entry as body, whatever method and URL it recorded |
| ServiceWorker.Replay | frontend/sw.js:86-102 | the loop sends one request per entry, in store order, and keeps exactly the entries whose attempt did not succeed; a failure does not stop later attempts |
| ServiceWorker.SyncNewTasks | frontend/sw.js:77-103 | one pass attempts every queued entry once in order, leaves the failed ones, and touches only the queue |
| ServiceWorker.OnSync | frontend/sw.js:69-75 | only the `sync-new-task` tag starts a replay; any other tag changes nothing and sends nothing |
| ServiceWorker.RetainedAppend | frontend/sw.js:87-102 | retention is first-in first-out: a pass over two stretches keeps what each stretch keeps, in order |
| ServiceWorker.RetentionCount | frontend/sw.js:95-101 | a pass keeps one entry per unsuccessful attempt: none when all succeed, all when none do, and every failed entry stays queued |
| Api.ApiFetch | frontend/api.js:4-19 | every request carries `credentials: 'include'` and a Content-Type header, which defaults to `application/json`; the caller's headers, method and body are kept and override the default |
| Api.HandleResponse | frontend/api.js:22-35 | the result is an error iff the status is not 2xx or a body announced as JSON does not parse; it is the parsed body iff a 2xx announces JSON and parses; otherwise it is `true`; a non-2xx never reports an unparsable body |
| Api.ErrorMessageChoice | frontend/api.js:33-34 | a failing response reports the server's truthy `message`, and otherwise `Request failed with status N` |
| Api.RequestOf | frontend/api.js:39-142 | each API function's request goes through apiFetch with credentials and the JSON Content-Type |
| Api.TaskMutationRequests | frontend/api.js:91-117 | updateTask and deleteTask target /api/tasks/<id> with PUT and DELETE, and the id can be read back from the URL; snoozeTask POSTs `{duration}` to /api/tasks/<id>/snooze |
| Api.AddTaskRequest | frontend/api.js:80-89 | addTask POSTs to /api/tasks a body of exactly title, priority, prioritySchedule, notificationDate and list |
| Api.DashboardDefaults | frontend/api.js:70-73 | with no arguments the dashboard request is GET /api/tasks/dashboard?limit=3&list=home |
| TaskRenderer.PriorityText | frontend/modules/taskRenderer.js:5 | a priority is written as `undefined` exactly when the task has none, and otherwise as its numeral |
| TaskRenderer.ClassTokensOfTask | frontend/modules/taskRenderer.js:5 | the row's class tokens are `priority-<p>`, with `priority-undefined` for a task without a priority, then `completed` and `snoozed` when they apply |
| TaskRenderer.ClassFlags | frontend/modules/taskRenderer.js:5 | the class `completed` is present iff the task is completed, and `snoozed` iff it is snoozed |
| TaskRenderer.CreateTaskElement | frontend/modules/taskRenderer.js:3-53 | controls iff showControls; the completion time is shown iff completed with a timestamp; a countdown iff snoozed with a wake-up time |
| TaskRenderer.RenderTasks | frontend/modules/taskRenderer.js:55-60 | one row per task, in the given order |
| TaskRenderer.CountdownAt | frontend/modules/taskRenderer.js:30-46 | the countdown expires iff the time left is ≤ 0; otherwise minutes and seconds are below 60, and h·3,600,000 + m·60,000 + s·1,000 ≤ d < that + 1,000 |
| TaskRenderer.CountdownUnique | frontend/modules/taskRenderer.js:41-45 | that split of the remaining time is the only one with minutes and seconds below 60 |
| TaskRenderer.CountdownText | frontend/modules/taskRenderer.js:35-45 | the text is `(Snoozed)` exactly when the countdown has expired |
| TaskRenderer.InitialCountdown | frontend/modules/taskRenderer.js:28-49 | a row has a countdown only for a snoozed task with a wake-up time, reading `(Snoozed)` iff that time has passed |
| PushKey.Padding | frontend/pushNotifications.js:8 | between 0 and 3 `=` are added, making the length a multiple of 4 |
| PushKey.Base64Input | frontend/pushNotifications.js:8-11 | the string handed to atob: `-` becomes `+`, `_` becomes `/`, every other character is kept, then the padding |
| PushKey.CopyToBytes | frontend/pushNotifications.js:14-18 | the output has the decoded string's length and byte i is the code of character i |
| PushKey.UrlBase64ToUint8Array | frontend/pushNotifications.js:7-20 | fails exactly when atob throws on the padded standard-alphabet string, and otherwise returns its character codes |
| PushKey.DecodeKeyBytes | frontend/pushNotifications.js:13-18 | byte i of a decoded key is exactly the code of decoded character i, with no truncation |
| PushKey.SextetsRoundTrip | frontend/pushNotifications.js:13 | base64 decoding inverts the 6-bit grouping of section 4 of RFC 4648 |
| PushKey.KeyRoundTrip | frontend/pushNotifications.js:7-20 | a key published in the unpadded URL-safe alphabet (section 5 of RFC 4648) decodes to exactly its bytes |
| ServerModel.NewTask | backend/models/task.js:3-18 | a task is valid iff it has a title that is non-blank after trimming and an owner; the stored title is trimmed, `completed` defaults to false and both timestamps are set to now |
| ServerModel.SaveTask | backend/models/task.js:4-18 | re-saving checks the title again, and updatedAt moves to now exactly when the document changed |
| ServerModel.FindOwned | backend/routes/tasks.js:42 | findOne({_id, user}): the first task with that id and owner, or none when no task matches both |
| ServerModel.NormalizeUsername | backend/models/user.js:5-11 | the stored username is no longer than the raw one and has no ASCII upper-case letter |
| ServerModel.NormalizeIdempotent | backend/models/user.js:9-10 | trimming and lower-casing a stored username again changes nothing |
| ServerModel.QueryCastOfLowerCased | backend/routes/auth.js:17 | looking up the lower-cased raw name, cast through the trim and lowercase setters, asks for exactly the stored form of that name |
| ServerModel.PreSave | backend/models/user.js:23-29 | the password is replaced by its hash exactly when it was modified; nothing else changes |
| ServerModel.PasswordRoundTrip | backend/models/user.js:32-34 | whenever compare accepts a password against its own hash, a saved user's password is accepted, and a later save without a password change keeps it so |
| ServerModel.FindUser | backend/models/user.js:4-20 | findById: the first user with that id, or none when no user has it |
| ServerModel.SaveNewUser | backend/models/user.js:4-29 | a new user is stored with the normalised username, the hashed password and no subscriptions; the save fails on an empty username or password or on a duplicate key; unique indexes are kept |
| Middleware.EnsureAuthenticated | backend/middleware.js:4-9 | a request goes on iff it is signed in; any other gets 401 |
| Middleware.ExpireWakesOnlyExpired | backend/middleware.js:16-28 | each task is either left alone or woken, and only a task of the user that is uncompleted and snoozed until a past time is woken |
| Middleware.ExpireWakesAllExpired | backend/middleware.js:16-28 | a loop that runs to the end wakes every such task |
| Middleware.UpdateScheduledPriorities | backend/middleware.js:11-45 | ids, titles and notification flags are kept; other users' and completed tasks are untouched; with titles present each task goes through wake-then-bump |
| Middleware.PrioritiesEffect | backend/middleware.js:16-40 | an expired snooze ends awake with no wake-up time; an uncompleted, unsnoozed task (or one woken in the same pass) whose schedule has come ends at priority 1 with no schedule; every other task is unchanged |
| Middleware.PrioritiesIdempotent | backend/middleware.js:18-39 | a second run at the same `now` changes nothing |
| Middleware.ProcessTasks | backend/middleware.js:47-54 | the middleware always calls next, keeps every task in place with its id, and leaves other users' tasks alone |
| Middleware.PassesCommute | backend/middleware.js:49-52 | the two passes touch disjoint fields, so with one clock either order leaves the same collection |
| Scheduler.CheckScheduledTasks | backend/scheduler.js:7-33 | the job takes the users in User.find order; for each it raises priorities against the job's one clock reading and then sends that user's reminders against the reading taken when that user's reminder step starts |
| Scheduler.ReminderUsesOwnReading | backend/routes/notifications.js:47-58 | for a user with subscriptions, an unsent reminder of an uncompleted task is marked exactly when its date has come by the reminder step's own clock reading |
| Scheduler.TurnsInOrder | backend/scheduler.js:15-28 | the job's log takes the first n users in order, each raise immediately followed by that user's notification step |
| Scheduler.ScheduledSameIds | backend/scheduler.js:15-28 | the job keeps every task in its place with its id and owner |
| Scheduler.ScheduledEffect | backend/scheduler.js:15-28 | after the first n users, each of those users' tasks has gone through its owner's steps once, and every other task is untouched |
| Scheduler.JobEffect | backend/scheduler.js:7-33 | the whole job applies each owner's raise-then-notify step to that owner's tasks and leaves tasks without a user alone |
| Scheduler.JobRaisesDueTasks | backend/scheduler.js:17-25 | every uncompleted task of a user whose schedule has come ends at priority 1, snoozed or not; prioritySchedule, the snooze fields, the title and completion are unchanged; tasks of non-users do not change |
| Scheduler.AfterUserStepsIdempotent | backend/scheduler.js:17-28 | one user's steps run twice with the same clock readings are the same as running them once |
| Scheduler.JobIdempotent | backend/scheduler.js:17-28 | a second job with the same clock readings leaves the collection as the first one did |
| Notifications.VapidPublicKey | backend/routes/notifications.js:8-22 | 401 when signed out; 500 when the key is unset or empty; otherwise the key |
| Notifications.Subscribe | backend/routes/notifications.js:25-44 | 401 when signed out; otherwise the subscription is pushed onto the user's list, the welcome push is attempted and the answer is 201 |
| Notifications.SendKeeps | backend/routes/notifications.js:47-85 | a missing user or one without subscriptions gets nothing sent or marked; ids and other users' tasks are kept; with titles present the pass runs to the end |
| Notifications.NotifyMarksOnlySelected | backend/routes/notifications.js:55-80 | each task is left alone or marked `notificationSent`, and only a selected task is marked |
| Notifications.NotifyMarksAllSelected | backend/routes/notifications.js:62-80 | a pass that runs to the end marks every selected task, even when all its sends failed |
| Notifications.NotifyPushes | backend/routes/notifications.js:62-76 | a completed pass attempts exactly one push per (selected task, subscription) pair, in order, titled `Reminder: <title>` |
| Notifications.SendsAndMarks | backend/routes/notifications.js:47-85 | for a user with subscriptions, the pushes are the reminders of the selected tasks, and exactly the selected tasks are marked |
| Notifications.SendIdempotent | backend/routes/notifications.js:59-80 | a second run at the same `now` selects none of the tasks the first one marked, so it sends nothing and changes nothing |
| TaskRoutes.GetTasks | backend/routes/tasks.js:7-22 | 401 when signed out; otherwise exactly the user's tasks |
| TaskRoutes.PostTask | backend/routes/tasks.js:25-37 | 401 when signed out; a task is created (201) iff the title is non-blank after trimming and the id is fresh, storing only title and owner; otherwise nothing changes |
| TaskRoutes.PutTask | backend/routes/tasks.js:40-55 | 500 and no change when the id is not an ObjectId; 404 and no change iff the user owns no task with the cast id; otherwise title and completed are overwritten only when non-null, everything else is kept, and an emptied title fails validation (500) |
| TaskRoutes.DeleteTask | backend/routes/tasks.js:58-66 | 500 and no change iff the id is not an ObjectId; otherwise 404 and no change iff the user owns no task with the cast id, else exactly that task is removed |
| TaskRoutes.TempIdServerError | backend/routes/tasks.js:40-66 | an id starting `temp-`, as a task added offline keeps, gets 500 from both PUT and DELETE and changes nothing |
| TaskRoutes.PostKeepsOthers | backend/routes/tasks.js:25-37 | POST leaves every other user's tasks as they were |
| TaskRoutes.PutKeepsOthers | backend/routes/tasks.js:40-55 | PUT leaves every other user's tasks as they were |
| TaskRoutes.DeleteKeepsOthers | backend/routes/tasks.js:58-66 | DELETE leaves every other user's tasks as they were |
| TaskRoutes.GetAfterPost | backend/routes/tasks.js:15-33 | a created task shows up at the end of its owner's GET |
| TaskRoutes.PostThenDelete | backend/routes/tasks.js:25-62 | deleting a task by its generated id right after creating it restores the collection |
| TaskRoutes.PutIdempotent | backend/routes/tasks.js:40-51 | sending the same update again changes nothing and answers with the same task |
| ListRoutes.GetLists | backend/routes/lists.js:14-24 | 401 when signed out, 404 for a missing user, else that user's lists |
| ListRoutes.PostList | backend/routes/lists.js:27-49 | 400 for an empty name before any lookup, 404 for a missing user, 409 for a name already present; otherwise the name is appended at the end (201) and nothing else changes |
| ListRoutes.DeleteList | backend/routes/lists.js:52-73 | 404 for a missing user, or for a name not present with no change; otherwise every occurrence is removed, and every other name keeps its order and its number of occurrences |
| ListRoutes.AddThenDelete | backend/routes/lists.js:43-69 | deleting a freshly added name restores the original lists |
| ListRoutes.DeleteTwice | backend/routes/lists.js:61-66 | a second delete of the same name gets 404 |
| AuthRoutes.Register | backend/routes/auth.js:8-32 | the checks run in order: missing field, password under 6 UTF-16 code units, then a username whose stored form is taken (400); only then is exactly one user saved (201) and signed in; unique indexes are kept |
| AuthRoutes.RegisterErrors | backend/routes/auth.js:11-27 | with a fresh id and a working login, the route answers 500 exactly when every check passes but the name is nothing but whitespace, so a taken name always gets its 400 |
| AuthRoutes.PaddedCaught | backend/routes/auth.js:17-20 | after `alice` is registered, a request for ` alice` is answered 400 username taken |
| AuthRoutes.AstralPasswordAccepted | backend/routes/auth.js:14 | a password of three emoji, six UTF-16 code units, passes the length check |
| AuthRoutes.RegisteredPasswordMatches | backend/routes/auth.js:21-22 | a freshly registered user's stored password is accepted by comparePassword for the password sent |
| AuthRoutes.CurrentUser | backend/routes/auth.js:48-50 | `/user` returns the id and username iff the request is signed in, else null |

## Left out

- The DOM: element construction, toasts, form resets, gesture animation and feedback styling, and the ui, view, list and theme modules. The renderer is modelled as the data each row carries.
- frontend/app.js, the legacy client, is not part of this model. The same goes for frontend/modules/state.js, a single global variable, and backend/deleteUser.js, a command-line script.
- The service worker's install step (caching the app shell) and the Cache Storage API itself. Fetch and cache results are parameters.
- The sw.js `openDB('tasklab-db', 1)` call against a database the page opens at version 3, and IndexedDB transactions and versioning mechanics. Each store operation is one atomic step.
- Notification scheduling with setTimeout (scheduleNotifications), push subscription in the browser, and web-push delivery. A send attempt is recorded, and its outcome does not change state.
- Promise.all in processTasksMiddleware is modelled as the two passes in sequence. PassesCommute shows the order does not matter.
- Cron scheduling of the job is left out. One run of checkScheduledTasks is a function of the users, the tasks and `now`.
- Date and time library calls (Date.now, toISOString strings, local-time getters). Timestamps are integer milliseconds and date parts are inputs. The RangeError of toISOString is kept for snooze targets.
- bcrypt: hash and compare are function parameters.
- passport: the login strategy and sessions are left out. A request carries a `Session` that is signed in or anonymous.
- Mongoose strict-mode stripping of undeclared fields, and database errors other than validation failures and duplicate keys.
- Body values of the wrong JSON type (a non-string title or list name). The model takes strings or their absence.
- Errors thrown by the server passes other than a failed save: a failed query is not modelled.
- The queue's auto-increment key. An entry is identified by its position.
- TaskActions.HandleUpdateTask: with no stored task the put throws. That is modelled as "nothing happens", not as a rejected promise.
- TaskActions.HandleToggleCompletion: with no stored task the spread object has no `_id` and the put throws. That is modelled as "nothing happens", not as a rejected promise.
- TaskActions.HandleSnoozeTask: with no stored task the put throws, as for HandleToggleCompletion. That is modelled as "nothing happens", not as a rejected promise.
- TaskSync.SortTasks: when timed and untimed completed tasks mix, the source's order is implementation-defined. The model's order is one such order, and it promises only a permutation there.
- TaskSync.TimedSortSpec: covers only stores where every completed task has a time; UntimedSortSpec covers those where none has. A mixed store has no order to promise.
- ServerModel.NormalizeUsername: lower-cases only A to Z. JavaScript's toLowerCase maps every Unicode upper-case letter, and can lengthen a string.
- ServerModel.SaveNewUser: stores the name through that ASCII-only lower-casing.
- AuthRoutes.Register: the username lookup inherits the ASCII-only lower-casing. Password length is counted in UTF-16 code units, as JavaScript does.
- TaskRoutes.PutTask: an ObjectId string is 24 hex digits. Older BSON library versions also accept any 12-character string, and the model does not.
- TaskRoutes.DeleteTask: the same 24-hex-digit rule as PutTask.
- TaskSync.SyncAndLoadTasks: the store hands records back in key order; the model promises only some order (GetAllTasks).
- TaskRenderer.CountdownAt: the per-second timer is left out; the lemma is about one tick.
- Middleware.UpdateScheduledPriorities: the per-task contract assumes every stored title is present. An empty title makes the model's save throw and stops the loop, which is kept but not characterised beyond ids, titles and flags.
- Scheduler.CheckScheduledTasks: the bump's `updatedAt` is stamped with the job's reading `now`; Mongoose stamps an updateMany with a reading of its own, taken a little later.
- Middleware.UpdateScheduledPriorities: a woken or bumped task's `updatedAt` is stamped with the pass's reading `now`, in ExpireSnoozes as well. Mongoose stamps each `save()` with a reading of its own, taken a little later.
- Notifications.SendsAndMarks: a marked task's `updatedAt` is stamped with the step's reading `now`. Mongoose stamps each `save()` with a reading of its own, taken a little later.
- Scheduler.JobEffect: assumes every stored title is present and user ids are unique, as the schema's required title and the unique `_id` index guarantee.

## Findings

| source | as written | input that shows it | evidently intended | confidence | as-written member | corrected member |
|---|---|---|---|---|---|---|
| frontend/modules/taskActions.js:92 | the catch blocks call `db.addToRequestQueue`, which localDb.js does not export, so they throw a TypeError and nothing is queued or registered | any failed API call on a browser with background sync, e.g. adding a task while offline | append one entry to the request queue and register the sync tag | high (not executed) | TaskActions.RecordFailureAsWritten, TaskActions.AsWrittenQueuesNothing | TaskActions.RecordFailure |
