/*
 * The server's documents (backend/models/task.js, backend/models/user.js):
 * a task and a user as the routes and the scheduled passes see them, the
 * schema's defaults, normalisation and validation, the password hook, and
 * the unique indexes of the two collections.
 *
 * The task schema declares only title, user and completed (plus the
 * timestamps); the routes and passes also read and write priority, snooze
 * and notification fields. Those are `None` when the document does not have
 * them, which is how the query conditions below treat a missing field.
 */
module ServerModel {
  import opened Base

  // ---------------------------------------------------------------------------
  // Tasks
  // ---------------------------------------------------------------------------

  datatype TaskDoc = TaskDoc(
    id: string,
    user: string,
    title: string,
    completed: bool,
    priority: Option<int>,
    prioritySchedule: Option<int>,
    snoozed: Option<bool>,
    snoozeUntil: Option<int>,
    notificationDate: Option<int>,
    notificationSent: Option<bool>,
    createdAt: int,
    updatedAt: int)

  /** A query condition `{ $exists: true, $ne: null, $lte: now }`. */
  predicate IsDue(date: Option<int>, now: int) {
    date.Some? && date.value <= now
  }

  /** The paths a document fails validation on. */
  datatype Saved<T> = Valid(doc: T) | Invalid(paths: set<string>)

  /** `new Task({ title, user }).save()`: the title is trimmed by its setter
      and both paths are required (a missing, null or empty string fails);
      `completed` takes its default and both timestamps are `now`. */
  function NewTask(id: string, title: Option<string>, user: Option<string>, now: int): (r: Saved<TaskDoc>)
    ensures r.Valid? <==> title.Some? && Trim(title.value) != "" && user.Some?
    ensures r.Invalid? ==> ("title" in r.paths <==> title.None? || Trim(title.value) == "")
    ensures r.Invalid? ==> ("user" in r.paths <==> user.None?)
    ensures r.Valid? ==> r.doc == TaskDoc(id, user.value, Trim(title.value), false,
                                           None, None, None, None, None, None, now, now)
  {
    var titleFails := title.None? || Trim(title.value) == "";
    var userFails := user.None?;
    if titleFails || userFails then
      Invalid((if titleFails then {"title"} else {}) + (if userFails then {"user"} else {}))
    else
      Valid(TaskDoc(id, user.value, Trim(title.value), false, None, None, None, None, None, None, now, now))
  }

  /** Saving an edited document: the required check applies again, and
      `updatedAt` moves to `now` only when something changed (an unmodified
      document is not written). The title setter's trim is applied where the
      title is assigned, not here. */
  function SaveTask(before: TaskDoc, edited: TaskDoc, now: int): (r: Saved<TaskDoc>)
    ensures r.Valid? <==> edited.title != ""
    ensures r.Invalid? ==> r.paths == {"title"}
    ensures r.Valid? ==> r.doc.(updatedAt := before.updatedAt) == edited.(updatedAt := before.updatedAt)
    ensures r.Valid? && edited.(updatedAt := before.updatedAt) == before ==> r.doc == before
    ensures r.Valid? && edited.(updatedAt := before.updatedAt) != before ==> r.doc.updatedAt == now
  {
    if edited.title == "" then Invalid({"title"})
    else if edited.(updatedAt := before.updatedAt) == before then Valid(before)
    else Valid(edited.(updatedAt := now))
  }

  /** The collection keeps `_id` unique. */
  predicate DistinctTaskIds(tasks: seq<TaskDoc>) {
    forall i, j :: 0 <= i < j < |tasks| ==> tasks[i].id != tasks[j].id
  }

  /** Every stored task has the title its schema requires; both ways of
      saving a task enforce it. */
  predicate TitlesPresent(tasks: seq<TaskDoc>) {
    forall i :: 0 <= i < |tasks| ==> tasks[i].title != ""
  }

  predicate HasTaskId(tasks: seq<TaskDoc>, id: string) {
    exists i :: 0 <= i < |tasks| && tasks[i].id == id
  }

  /** The first task with this id owned by this user, as findOne returns it. */
  function FindOwned(tasks: seq<TaskDoc>, id: string, user: string): (r: Option<nat>)
    ensures r.None? <==> forall i :: 0 <= i < |tasks| ==> !(tasks[i].id == id && tasks[i].user == user)
    ensures r.Some? ==> r.value < |tasks| && tasks[r.value].id == id && tasks[r.value].user == user
    ensures r.Some? ==> forall i :: 0 <= i < r.value ==> !(tasks[i].id == id && tasks[i].user == user)
  {
    if tasks == [] then None
    else if tasks[0].id == id && tasks[0].user == user then Some(0)
    else match FindOwned(tasks[1..], id, user)
      case None => None
      case Some(i) => Some(i + 1)
  }

  /** A pass that rewrites tasks one by one keeps the ids where they were. */
  predicate SameIds(a: seq<TaskDoc>, b: seq<TaskDoc>) {
    |a| == |b| && forall i :: 0 <= i < |a| ==> a[i].id == b[i].id && a[i].user == b[i].user
  }

  /** Writing the found task back with the same id and owner leaves it
      the one findOne finds. */
  lemma {:induction false} FindOwnedUpdate(tasks: seq<TaskDoc>, i: nat, doc: TaskDoc, id: string, user: string)
    requires FindOwned(tasks, id, user) == Some(i) && doc.id == id && doc.user == user
    ensures FindOwned(tasks[i := doc], id, user) == Some(i)
  {
    if i > 0 {
      var t := tasks[i := doc];
      FindOwnedUpdate(tasks[1..], i - 1, doc, id, user);
      assert t[1..] == tasks[1..][i - 1 := doc];
    }
  }

  lemma SameIdsTrans(a: seq<TaskDoc>, b: seq<TaskDoc>, c: seq<TaskDoc>)
    requires SameIds(a, b) && SameIds(b, c)
    ensures SameIds(a, c)
  {
  }

  // ---------------------------------------------------------------------------
  // Users
  // ---------------------------------------------------------------------------

  /** A push subscription as the browser's PushManager produces it; its
      content does not matter here. */
  type Subscription = string

  /** A user document. `lists` is read and written by the list routes. */
  datatype User = User(
    id: string,
    username: string,
    password: string,
    subscriptions: seq<Subscription>,
    lists: seq<string>)

  /** The username setters: trimmed and lower-cased. */
  function NormalizeUsername(raw: string): (r: string)
    ensures |r| <= |raw|
    ensures forall k :: 0 <= k < |r| ==> !('A' <= r[k] <= 'Z')
  {
    ToLower(Trim(raw))
  }

  /** Lower-casing only touches ASCII letters, so it neither adds nor
      removes the whitespace trim drops, and normalising twice is
      normalising once. */
  lemma NormalizeIdempotent(raw: string)
    ensures NormalizeUsername(NormalizeUsername(raw)) == NormalizeUsername(raw)
  {
    var t := Trim(raw);
    var n := ToLower(t);
    assert Trim(n) == n by {
      if n != [] {
        LowerCharSpace(t[0]);
        LowerCharSpace(t[|t| - 1]);
      }
      TrimOfTrimmed(n);
    }
    assert ToLower(n) == n by { ToLowerNoUpper(n); }
  }

  /** A query value for the username path goes through the same setters
      (Mongoose casts a filter with them), so looking up a lower-cased raw
      name asks for exactly the stored form of that name. */
  lemma QueryCastOfLowerCased(raw: string)
    ensures NormalizeUsername(ToLower(raw)) == NormalizeUsername(raw)
  {
    TrimToLower(raw);
    ToLowerIdempotent(Trim(raw));
  }

  /** The pre-save hook: a password set since the last save is replaced by
      its hash; an unchanged one is kept as stored. `hash` stands for
      bcrypt.hash with cost 10. */
  function PreSave(u: User, passwordModified: bool, hash: string -> string): (r: User)
    ensures r.password == if passwordModified then hash(u.password) else u.password
    ensures r.(password := u.password) == u
  {
    if passwordModified then u.(password := hash(u.password)) else u
  }

  /** comparePassword: the candidate checked against the stored hash.
      `compare` stands for bcrypt.compare. */
  predicate ComparePassword(u: User, candidate: string, compare: (string, string) -> bool) {
    compare(candidate, u.password)
  }

  /** Whenever `compare` accepts a password against its own hash, a user
      saved with a freshly set password accepts that password, and saving
      again without touching it keeps accepting it (the hash is not hashed
      a second time). */
  lemma PasswordRoundTrip(u: User, hash: string -> string, compare: (string, string) -> bool)
    requires forall p :: compare(p, hash(p))
    ensures ComparePassword(PreSave(u, true, hash), u.password, compare)
    ensures ComparePassword(PreSave(PreSave(u, true, hash), false, hash), u.password, compare)
  {
    assert compare(u.password, hash(u.password));
  }

  /** The unique index on `username` and the one on `_id`. */
  predicate UsersUnique(users: seq<User>) {
    forall i, j :: 0 <= i < j < |users| ==> users[i].username != users[j].username && users[i].id != users[j].id
  }

  /** findById. */
  function FindUser(users: seq<User>, id: string): (r: Option<nat>)
    ensures r.None? <==> forall i :: 0 <= i < |users| ==> users[i].id != id
    ensures r.Some? ==> r.value < |users| && users[r.value].id == id
    ensures r.Some? ==> forall i :: 0 <= i < r.value ==> users[i].id != id
  {
    FindUserFrom(users, id, 0)
  }

  /** The first user at or after index `k` with this id. */
  function FindUserFrom(users: seq<User>, id: string, k: nat): (r: Option<nat>)
    requires k <= |users|
    ensures r.None? <==> forall i :: k <= i < |users| ==> users[i].id != id
    ensures r.Some? ==> k <= r.value < |users| && users[r.value].id == id
    ensures r.Some? ==> forall i :: k <= i < r.value ==> users[i].id != id
    decreases |users| - k
  {
    if k == |users| then None
    else if users[k].id == id then Some(k)
    else FindUserFrom(users, id, k + 1)
  }

  /** Rewriting users without touching their ids does not change what
      findById finds. */
  lemma FindUserSameIds(a: seq<User>, b: seq<User>, id: string)
    requires |a| == |b| && forall k :: 0 <= k < |a| ==> a[k].id == b[k].id
    ensures FindUser(a, id) == FindUser(b, id)
  {
    FindFromSameIds(a, b, id, 0);
  }

  lemma {:induction false} FindFromSameIds(a: seq<User>, b: seq<User>, id: string, k: nat)
    requires k <= |a| == |b| && forall j :: 0 <= j < |a| ==> a[j].id == b[j].id
    ensures FindUserFrom(a, id, k) == FindUserFrom(b, id, k)
    decreases |a| - k
  {
    if k < |a| && a[k].id != id {
      FindFromSameIds(a, b, id, k + 1);
    }
  }

  /** Whether a new user would break a unique index (a duplicate key error). */
  predicate ClashesWith(users: seq<User>, u: User) {
    exists i :: 0 <= i < |users| && (users[i].username == u.username || users[i].id == u.id)
  }

  /** What passport puts on a request: the deserialised user, or nothing
      (req.isAuthenticated() is false). */
  datatype Session = Anonymous | SignedIn(user: User)

  /** `new User({ username, password }).save()`: the username is normalised
      and required, the password is required and hashed, subscriptions
      default to empty, and a clash on either unique index fails. */
  datatype UserSave = UserSaved(user: User) | UserInvalid | DuplicateKey

  function SaveNewUser(users: seq<User>, id: string, username: string, password: string,
                       hash: string -> string): (r: UserSave)
    ensures r.UserSaved? ==> r.user == User(id, NormalizeUsername(username), hash(password), [], [])
    ensures r.UserSaved? <==> (NormalizeUsername(username) != "" && password != ""
                               && !ClashesWith(users, User(id, NormalizeUsername(username), hash(password), [], [])))
    ensures r.UserSaved? && UsersUnique(users) ==> UsersUnique(users + [r.user])
  {
    var doc := User(id, NormalizeUsername(username), password, [], []);
    if doc.username == "" || password == "" then UserInvalid
    else
      var hashed := PreSave(doc, true, hash);
      if ClashesWith(users, hashed) then DuplicateKey else UserSaved(hashed)
  }
}
