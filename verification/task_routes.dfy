/*
 * The task REST routes (backend/routes/tasks.js, mounted at /api/tasks):
 * every route first requires a signed-in session, then reads or writes only
 * the tasks the session's user owns. The collection is a sequence of
 * documents in natural order; a handler returns its reply and the
 * collection after it.
 */
module TaskRoutes {
  import opened Base
  import opened ServerModel

  datatype Reply =
    | Unauthorized
    | TaskList(tasks: seq<TaskDoc>)
    | Created(task: TaskDoc)
    | Updated(task: TaskDoc)
    | Deleted
    | NotFound
    | ServerError

  function Status(r: Reply): int {
    match r
    case Unauthorized => 401
    case TaskList(_) => 200
    case Created(_) => 201
    case Updated(_) => 200
    case Deleted => 200
    case NotFound => 404
    case ServerError => 500
  }

  datatype Outcome = Outcome(reply: Reply, tasks: seq<TaskDoc>)

  /** Some task with this id belongs to this user. */
  predicate Owns(tasks: seq<TaskDoc>, id: string, user: string) {
    exists i :: 0 <= i < |tasks| && tasks[i].id == id && tasks[i].user == user
  }

  function OwnedBy(user: string): TaskDoc -> bool {
    (t: TaskDoc) => t.user == user
  }

  function NotOwnedBy(user: string): TaskDoc -> bool {
    (t: TaskDoc) => t.user != user
  }

  /** A string Mongoose can cast to an ObjectId: 24 hexadecimal digits.
      Any other `_id` value in a filter makes the query throw a CastError,
      which the route hands to the error handler (500). */
  predicate IsObjectIdString(id: string) {
    |id| == 24 && forall k :: 0 <= k < |id| ==> IsHexDigit(id[k])
  }

  predicate IsHexDigit(c: char) {
    '0' <= c <= '9' || 'a' <= c <= 'f' || 'A' <= c <= 'F'
  }

  /** An id as the driver generates and stores it: lower-case hex. The cast
      reads hex digits case-insensitively, so a filter value matches the
      stored id it lower-cases to. */
  predicate IsGeneratedId(id: string) {
    |id| == 24 && forall k :: 0 <= k < |id| ==> '0' <= id[k] <= '9' || 'a' <= id[k] <= 'f'
  }

  /** A generated id casts to itself. */
  lemma GeneratedIdCasts(id: string)
    requires IsGeneratedId(id)
    ensures IsObjectIdString(id) && ToLower(id) == id
  {
    ToLowerNoUpper(id);
  }

  // ---------------------------------------------------------------------------
  // GET /
  // ---------------------------------------------------------------------------

  /** Task.find({ user }): the user's tasks, in collection order. */
  function GetTasks(s: Session, tasks: seq<TaskDoc>): (r: Reply)
    ensures s.Anonymous? <==> r.Unauthorized?
    ensures s.SignedIn? ==> r.TaskList?
    ensures r.TaskList? ==> forall k :: 0 <= k < |r.tasks| ==> r.tasks[k] in tasks && r.tasks[k].user == s.user.id
    ensures r.TaskList? ==> forall k :: 0 <= k < |tasks| && tasks[k].user == s.user.id ==> tasks[k] in r.tasks
  {
    if s.Anonymous? then Unauthorized else TaskList(Filter(OwnedBy(s.user.id), tasks))
  }

  // ---------------------------------------------------------------------------
  // POST /
  // ---------------------------------------------------------------------------

  /** `new Task({ title: req.body.title, user: req.user._id }).save()`:
      every other field of the body is dropped. `id` is the ObjectId the
      driver generates; a clash with a stored one is a duplicate key error,
      which, like a validation error, reaches the error handler (500). */
  function PostTask(s: Session, tasks: seq<TaskDoc>, id: string, title: Option<string>, now: int): (r: Outcome)
    ensures s.Anonymous? ==> r == Outcome(Unauthorized, tasks)
    ensures r.reply.Created? <==> s.SignedIn? && title.Some? && Trim(title.value) != "" && !HasTaskId(tasks, id)
    ensures s.SignedIn? && !r.reply.Created? ==> r.reply.ServerError?
    ensures !r.reply.Created? ==> r.tasks == tasks
    ensures r.reply.Created? ==> r.tasks == tasks + [r.reply.task]
    ensures r.reply.Created? ==>
      r.reply.task == TaskDoc(id, s.user.id, Trim(title.value), false, None, None, None, None, None, None, now, now)
    ensures DistinctTaskIds(tasks) ==> DistinctTaskIds(r.tasks)
    ensures TitlesPresent(tasks) ==> TitlesPresent(r.tasks)
  {
    if s.Anonymous? then Outcome(Unauthorized, tasks)
    else match NewTask(id, title, Some(s.user.id), now)
      case Invalid(_) => Outcome(ServerError, tasks)
      case Valid(doc) =>
        if HasTaskId(tasks, id) then Outcome(ServerError, tasks)
        else Outcome(Created(doc), tasks + [doc])
  }

  // ---------------------------------------------------------------------------
  // PUT /:id
  // ---------------------------------------------------------------------------

  /** The stored task with the body's non-null title (through the trimming
      setter) and completed flag written over it. */
  function Patch(t: TaskDoc, title: Option<string>, completed: Option<bool>): TaskDoc {
    t.(title := if title.Some? then Trim(title.value) else t.title,
       completed := if completed.Some? then completed.value else t.completed)
  }

  /** findOne({ _id, user }), patch, save. An id that is no ObjectId makes
      the query throw (500); a title that trims to nothing fails validation
      (500). */
  function PutTask(s: Session, tasks: seq<TaskDoc>, id: string, title: Option<string>,
                   completed: Option<bool>, now: int): (r: Outcome)
    ensures s.Anonymous? ==> r == Outcome(Unauthorized, tasks)
    ensures s.SignedIn? ==> (r.reply.NotFound? <==> IsObjectIdString(id) && !Owns(tasks, ToLower(id), s.user.id))
    ensures r.reply.NotFound? || r.reply.ServerError? ==> r.tasks == tasks
    ensures s.SignedIn? ==> r.reply.Updated? || r.reply.NotFound? || r.reply.ServerError?
    ensures r.reply.Updated? ==> s.SignedIn? && IsObjectIdString(id) && FindOwned(tasks, ToLower(id), s.user.id).Some?
    ensures r.reply.ServerError? <==>
      s.SignedIn? &&
      (!IsObjectIdString(id) ||
       (Owns(tasks, ToLower(id), s.user.id)
        && (if title.Some? then Trim(title.value) else tasks[FindOwned(tasks, ToLower(id), s.user.id).value].title) == ""))
    ensures r.reply.Updated? ==>
      var i := FindOwned(tasks, ToLower(id), s.user.id).value;
      && r.tasks == tasks[i := r.reply.task]
      && r.reply.task.id == ToLower(id) && r.reply.task.user == s.user.id
      && r.reply.task.title == (if title.Some? then Trim(title.value) else tasks[i].title)
      && r.reply.task.completed == (if completed.Some? then completed.value else tasks[i].completed)
      && r.reply.task.(title := tasks[i].title, completed := tasks[i].completed, updatedAt := tasks[i].updatedAt)
         == tasks[i]
    ensures SameIds(tasks, r.tasks)
    ensures DistinctTaskIds(tasks) ==> DistinctTaskIds(r.tasks)
    ensures TitlesPresent(tasks) ==> TitlesPresent(r.tasks)
  {
    if s.Anonymous? then Outcome(Unauthorized, tasks)
    else if !IsObjectIdString(id) then Outcome(ServerError, tasks)
    else match FindOwned(tasks, ToLower(id), s.user.id)
      case None => Outcome(NotFound, tasks)
      case Some(i) =>
        match SaveTask(tasks[i], Patch(tasks[i], title, completed), now)
        case Invalid(_) => Outcome(ServerError, tasks)
        case Valid(doc) => Outcome(Updated(doc), tasks[i := doc])
  }

  // ---------------------------------------------------------------------------
  // DELETE /:id
  // ---------------------------------------------------------------------------

  /** findOneAndDelete({ _id, user }). An id that is no ObjectId makes the
      query throw (500). */
  function DeleteTask(s: Session, tasks: seq<TaskDoc>, id: string): (r: Outcome)
    ensures s.Anonymous? ==> r == Outcome(Unauthorized, tasks)
    ensures s.SignedIn? ==> (r.reply.NotFound? <==> IsObjectIdString(id) && !Owns(tasks, ToLower(id), s.user.id))
    ensures s.SignedIn? ==> (r.reply.ServerError? <==> !IsObjectIdString(id))
    ensures s.SignedIn? ==> r.reply.Deleted? || r.reply.NotFound? || r.reply.ServerError?
    ensures !r.reply.Deleted? ==> r.tasks == tasks
    ensures r.reply.Deleted? ==>
      var i := FindOwned(tasks, ToLower(id), s.user.id).value;
      r.tasks == tasks[..i] + tasks[i + 1..] && tasks[i].id == ToLower(id) && tasks[i].user == s.user.id
    ensures r.reply.Deleted? && DistinctTaskIds(tasks) ==> DistinctTaskIds(r.tasks) && !HasTaskId(r.tasks, ToLower(id))
    ensures TitlesPresent(tasks) ==> TitlesPresent(r.tasks)
  {
    if s.Anonymous? then Outcome(Unauthorized, tasks)
    else if !IsObjectIdString(id) then Outcome(ServerError, tasks)
    else match FindOwned(tasks, ToLower(id), s.user.id)
      case None => Outcome(NotFound, tasks)
      case Some(i) =>
        RemoveAtKeeps(tasks, i);
        Outcome(Deleted, tasks[..i] + tasks[i + 1..])
  }

  /** The temporary id a task added offline keeps (`temp-` and a number) is
      no ObjectId: updating or deleting it by that id answers 500. */
  lemma TempIdServerError(u: User, tasks: seq<TaskDoc>, id: string, title: Option<string>,
                          completed: Option<bool>, now: int)
    requires "temp-" <= id
    ensures PutTask(SignedIn(u), tasks, id, title, completed, now) == Outcome(ServerError, tasks)
    ensures DeleteTask(SignedIn(u), tasks, id) == Outcome(ServerError, tasks)
  {
    assert id[0] == 't' && !IsHexDigit(id[0]);
  }

  /** Removing one task keeps every other in order; distinct ids stay
      distinct and the removed id is gone, and present titles stay
      present. */
  lemma RemoveAtKeeps(tasks: seq<TaskDoc>, i: nat)
    requires i < |tasks|
    ensures
      var rest := tasks[..i] + tasks[i + 1..];
      && (DistinctTaskIds(tasks) ==> DistinctTaskIds(rest) && !HasTaskId(rest, tasks[i].id))
      && (TitlesPresent(tasks) ==> TitlesPresent(rest))
  {
    var rest := tasks[..i] + tasks[i + 1..];
    assert forall k :: 0 <= k < |rest| ==> rest[k] == if k < i then tasks[k] else tasks[k + 1];
  }

  // ---------------------------------------------------------------------------
  // Properties across routes
  // ---------------------------------------------------------------------------

  /** POST leaves every other user's tasks as they were. */
  lemma PostKeepsOthers(u: User, tasks: seq<TaskDoc>, id: string, title: Option<string>, now: int)
    ensures Filter(NotOwnedBy(u.id), PostTask(SignedIn(u), tasks, id, title, now).tasks)
            == Filter(NotOwnedBy(u.id), tasks)
  {
    var p := NotOwnedBy(u.id);
    var post := PostTask(SignedIn(u), tasks, id, title, now);
    if post.reply.Created? {
      FilterAppend(p, tasks, [post.reply.task]);
      assert Filter(p, [post.reply.task]) == [];
    }
  }

  /** PUT leaves every other user's tasks as they were. */
  lemma PutKeepsOthers(u: User, tasks: seq<TaskDoc>, id: string, title: Option<string>,
                       completed: Option<bool>, now: int)
    ensures Filter(NotOwnedBy(u.id), PutTask(SignedIn(u), tasks, id, title, completed, now).tasks)
            == Filter(NotOwnedBy(u.id), tasks)
  {
    var put := PutTask(SignedIn(u), tasks, id, title, completed, now);
    if put.reply.Updated? {
      var i := FindOwned(tasks, ToLower(id), u.id).value;
      FilterReplace(NotOwnedBy(u.id), tasks, i, put.reply.task);
    }
  }

  /** DELETE leaves every other user's tasks as they were. */
  lemma DeleteKeepsOthers(u: User, tasks: seq<TaskDoc>, id: string)
    ensures Filter(NotOwnedBy(u.id), DeleteTask(SignedIn(u), tasks, id).tasks)
            == Filter(NotOwnedBy(u.id), tasks)
  {
    var del := DeleteTask(SignedIn(u), tasks, id);
    if del.reply.Deleted? {
      FilterWithout(NotOwnedBy(u.id), tasks, FindOwned(tasks, ToLower(id), u.id).value);
    }
  }

  /** A created task shows up at the end of its owner's GET. */
  lemma GetAfterPost(u: User, tasks: seq<TaskDoc>, id: string, title: Option<string>, now: int)
    requires PostTask(SignedIn(u), tasks, id, title, now).reply.Created?
    ensures GetTasks(SignedIn(u), PostTask(SignedIn(u), tasks, id, title, now).tasks).tasks
            == GetTasks(SignedIn(u), tasks).tasks + [PostTask(SignedIn(u), tasks, id, title, now).reply.task]
  {
    var r := PostTask(SignedIn(u), tasks, id, title, now);
    FilterAppend(OwnedBy(u.id), tasks, [r.reply.task]);
    assert Filter(OwnedBy(u.id), [r.reply.task]) == [r.reply.task];
  }

  /** Deleting a task right after creating it, by the id the driver
      generated for it, restores the collection. */
  lemma PostThenDelete(u: User, tasks: seq<TaskDoc>, id: string, title: Option<string>, now: int)
    requires IsGeneratedId(id)
    requires PostTask(SignedIn(u), tasks, id, title, now).reply.Created?
    ensures DeleteTask(SignedIn(u), PostTask(SignedIn(u), tasks, id, title, now).tasks, id)
            == Outcome(Deleted, tasks)
  {
    GeneratedIdCasts(id);
    var after := PostTask(SignedIn(u), tasks, id, title, now).tasks;
    var i := FindOwned(after, id, u.id);
    assert after[|tasks|].id == id && after[|tasks|].user == u.id;
    assert forall k :: 0 <= k < |tasks| ==> after[k].id != id by {
      assert !HasTaskId(tasks, id);
    }
    assert i == Some(|tasks|);
    assert after[..|tasks|] + after[|tasks| + 1..] == tasks;
  }

  /** An update that leaves the found task as it is answers with that task
      and writes nothing. */
  lemma PutUnchanged(u: User, tasks: seq<TaskDoc>, id: string, title: Option<string>,
                     completed: Option<bool>, now: int, i: nat)
    requires IsObjectIdString(id) && FindOwned(tasks, ToLower(id), u.id) == Some(i)
    requires Patch(tasks[i], title, completed) == tasks[i] && tasks[i].title != ""
    ensures PutTask(SignedIn(u), tasks, id, title, completed, now) == Outcome(Updated(tasks[i]), tasks)
  {
    assert SaveTask(tasks[i], tasks[i], now) == Valid(tasks[i]);
    assert tasks[i := tasks[i]] == tasks;
  }

  /** Sending the same update again changes nothing and answers with the
      same document, whatever the clock says. */
  lemma PutIdempotent(u: User, tasks: seq<TaskDoc>, id: string, title: Option<string>,
                      completed: Option<bool>, now: int, later: int)
    requires PutTask(SignedIn(u), tasks, id, title, completed, now).reply.Updated?
    ensures
      var first := PutTask(SignedIn(u), tasks, id, title, completed, now);
      PutTask(SignedIn(u), first.tasks, id, title, completed, later) == first
  {
    var first := PutTask(SignedIn(u), tasks, id, title, completed, now);
    var i := FindOwned(tasks, ToLower(id), u.id).value;
    var doc := first.reply.task;
    FindOwnedUpdate(tasks, i, doc, ToLower(id), u.id);
    if title.Some? {
      TrimIdempotent(title.value);
    }
    assert first.tasks[i] == doc;
    PutUnchanged(u, first.tasks, id, title, completed, later, i);
  }
}
