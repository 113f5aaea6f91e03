/*
 * The browser's local database (frontend/modules/localDb.js): an object store
 * of tasks keyed by `_id`, an object store of lists keyed by `name`, the
 * schema upgrade that creates them, and the request queue of mutations that
 * could not reach the server. IndexedDB transactions are not modelled: every
 * operation is one atomic step on an immutable value.
 */
module LocalDb {
  import opened Base
  import Api

  /** A task record as the client stores it. Timestamps are milliseconds
      since the epoch; `None` stands for null or a missing property. */
  datatype Task = Task(
    id: string,
    title: string,
    priority: Option<int>,
    prioritySchedule: Option<int>,
    notificationDate: Option<int>,
    list: Option<string>,
    completed: bool,
    completedTimestamp: Option<int>,
    snoozed: bool,
    snoozeUntil: Option<int>)

  /** The tasks object store: its key path is `_id`, so every record sits
      under its own id. */
  type TaskStore = m: map<string, Task> | forall k :: k in m ==> m[k].id == k
    witness map[]

  /** One entry of the request queue: a mutation that failed to reach the
      server, with the id of the entity it concerns. */
  datatype QueuedRequest = QueuedRequest(url: string, verb: Api.Method, body: Option<Api.Json>, entityId: string)

  /** Everything the client keeps on the device. */
  datatype Db = Db(tasks: TaskStore, lists: set<string>, queue: seq<QueuedRequest>)

  const EmptyDb := Db(map[], {}, [])

  // ---------------------------------------------------------------------------
  // Schema
  // ---------------------------------------------------------------------------

  const DbName := "tasklab-db"
  const DbVersion := 3
  const TaskStoreName := "tasks"
  const ListStoreName := "lists"

  /** Object store name to key path. */
  type Schema = map<string, string>

  /** The upgrade callback of getDb, run when the database is older than
      DbVersion. Creating a store that already exists throws and aborts the
      upgrade (`None`). */
  function Upgrade(oldVersion: nat, schema: Schema): (r: Option<Schema>)
    ensures r.Some? ==> forall s :: s in schema ==> s in r.value && r.value[s] == schema[s]
    ensures r.Some? ==> forall s :: s in r.value && s !in schema ==>
      (s == TaskStoreName && oldVersion < 1) || (s == ListStoreName && oldVersion < 2)
    ensures r.Some? && oldVersion < 1 ==> TaskStoreName in r.value && r.value[TaskStoreName] == "_id"
    ensures r.Some? && oldVersion < 2 ==> ListStoreName in r.value && r.value[ListStoreName] == "name"
    ensures r.None? <==> (oldVersion < 1 && TaskStoreName in schema) || (oldVersion < 2 && ListStoreName in schema)
  {
    if oldVersion < 1 && TaskStoreName in schema then None
    else
      var s1 := if oldVersion < 1 then schema[TaskStoreName := "_id"] else schema;
      if oldVersion < 2 && ListStoreName in s1 then None
      else Some(if oldVersion < 2 then s1[ListStoreName := "name"] else s1)
  }

  /** openDB(DB_NAME, DB_VERSION): the upgrade runs only for an older
      database; a newer one is refused with a VersionError (`None`). */
  function Open(version: nat, schema: Schema): Option<Schema> {
    if version < DbVersion then Upgrade(version, schema)
    else if version == DbVersion then Some(schema)
    else None
  }

  /** The stores each earlier version of the page had created. */
  function SchemaAt(version: nat): Schema {
    if version == 0 then map[]
    else if version == 1 then map[TaskStoreName := "_id"]
    else map[TaskStoreName := "_id", ListStoreName := "name"]
  }

  /** Whatever version a device was left at, opening it yields both stores
      with their key paths, and reopening changes nothing more. */
  lemma UpgradeReachesCurrentSchema(version: nat)
    requires version <= DbVersion
    ensures Open(version, SchemaAt(version)) == Some(SchemaAt(DbVersion))
    ensures Open(DbVersion, SchemaAt(DbVersion)) == Some(SchemaAt(DbVersion))
  {
  }

  // ---------------------------------------------------------------------------
  // Tasks
  // ---------------------------------------------------------------------------

  /** getTask: the record under `id`, or undefined. */
  function GetTask(db: Db, id: string): (r: Option<Task>)
    ensures r.Some? <==> id in db.tasks
    ensures r.Some? ==> r.value == db.tasks[id] && r.value.id == id
  {
    if id in db.tasks then Some(db.tasks[id]) else None
  }

  /** addTask and updateTask, which are the same `put`. */
  function PutTask(db: Db, t: Task): (r: Db)
    ensures GetTask(r, t.id) == Some(t)
    ensures forall k :: k != t.id ==> GetTask(r, k) == GetTask(db, k)
    ensures r.tasks.Keys == db.tasks.Keys + {t.id}
    ensures r.lists == db.lists && r.queue == db.queue
  {
    db.(tasks := db.tasks[t.id := t])
  }

  /** deleteTask: removes the one key; deleting an absent key is a no-op. */
  function DeleteTask(db: Db, id: string): (r: Db)
    ensures GetTask(r, id).None?
    ensures forall k :: k != id ==> GetTask(r, k) == GetTask(db, k)
    ensures id !in db.tasks ==> r == db
    ensures r.lists == db.lists && r.queue == db.queue
  {
    db.(tasks := db.tasks - {id})
  }

  /** The last task of `s` whose id is `k`: the one a sequence of puts leaves. */
  function LastWithId(s: seq<Task>, k: string): (r: Option<Task>)
    ensures r.None? <==> forall i :: 0 <= i < |s| ==> s[i].id != k
    ensures r.Some? ==> exists i :: 0 <= i < |s| && s[i] == r.value && r.value.id == k
                         && forall j :: i < j < |s| ==> s[j].id != k
  {
    if s == [] then None
    else if s[|s| - 1].id == k then Some(s[|s| - 1])
    else LastWithId(s[..|s| - 1], k)
  }

  /** The store after putting every task of `s`, in order, into `m`. */
  function PutAll(m: TaskStore, s: seq<Task>): TaskStore {
    if s == [] then m
    else
      var t := s[|s| - 1];
      var before := PutAll(m, s[..|s| - 1]);
      before[t.id := t]
  }

  /** Key `k` after the puts: present when it was there or some task has
      it, and holding the last such task, or the old record when none. */
  lemma {:induction false} PutAllAt(m: TaskStore, s: seq<Task>, k: string)
    ensures k in PutAll(m, s) <==> k in m || LastWithId(s, k).Some?
    ensures k in PutAll(m, s) && LastWithId(s, k).Some? ==> PutAll(m, s)[k] == LastWithId(s, k).value
    ensures k in PutAll(m, s) && LastWithId(s, k).None? ==> PutAll(m, s)[k] == m[k]
  {
    if s != [] {
      PutAllAt(m, s[..|s| - 1], k);
    }
  }

  /** saveTasksToDb: clear the store, then put every task; with duplicate
      ids the last one wins. */
  function SaveTasks(db: Db, tasks: seq<Task>): (r: Db)
    ensures forall k :: k in r.tasks <==> exists i :: 0 <= i < |tasks| && tasks[i].id == k
    ensures forall i :: 0 <= i < |tasks| && (forall j :: i < j < |tasks| ==> tasks[j].id != tasks[i].id)
              ==> GetTask(r, tasks[i].id) == Some(tasks[i])
    ensures r.lists == db.lists && r.queue == db.queue
  {
    var r := db.(tasks := PutAll(map[], tasks));
    forall k ensures k in r.tasks <==> exists i :: 0 <= i < |tasks| && tasks[i].id == k {
      PutAllAt(map[], tasks, k);
    }
    forall i | 0 <= i < |tasks| && (forall j :: i < j < |tasks| ==> tasks[j].id != tasks[i].id)
      ensures GetTask(r, tasks[i].id) == Some(tasks[i])
    {
      PutAllAt(map[], tasks, tasks[i].id);
      var w := LastWithId(tasks, tasks[i].id);
      assert w.Some?;
      var i' :| 0 <= i' < |tasks| && tasks[i'] == w.value && w.value.id == tasks[i].id
                && forall j :: i' < j < |tasks| ==> tasks[j].id != tasks[i].id;
      assert i' == i;
    }
    r
  }

  /** The ids of `s` are pairwise distinct. */
  predicate DistinctIds(s: seq<Task>) {
    forall i, j :: 0 <= i < j < |s| ==> s[i].id != s[j].id
  }

  /** getAllTasks: every stored record exactly once. IndexedDB returns them
      in key order; the model promises only some order. */
  method GetAllTasks(db: Db) returns (all: seq<Task>)
    ensures |all| == |db.tasks|
    ensures DistinctIds(all)
    ensures forall i :: 0 <= i < |all| ==> GetTask(db, all[i].id) == Some(all[i])
    ensures forall k :: k in db.tasks ==> db.tasks[k] in all
  {
    var rest := db.tasks.Keys;
    all := [];
    while rest != {}
      invariant rest <= db.tasks.Keys
      invariant |all| + |rest| == |db.tasks.Keys|
      invariant forall i :: 0 <= i < |all| ==> all[i].id in db.tasks.Keys - rest && db.tasks[all[i].id] == all[i]
      invariant forall k :: k in db.tasks.Keys - rest ==> db.tasks[k] in all
      invariant DistinctIds(all)
      decreases rest
    {
      var k :| k in rest;
      all := all + [db.tasks[k]];
      rest := rest - {k};
    }
  }

  // ---------------------------------------------------------------------------
  // Lists
  // ---------------------------------------------------------------------------

  /** saveListsToDb: the list store afterwards holds exactly the given names. */
  function SaveLists(db: Db, names: seq<string>): (r: Db)
    ensures forall n :: n in r.lists <==> n in names
    ensures r.tasks == db.tasks && r.queue == db.queue
  {
    db.(lists := set n | n in names)
  }

  /** getAllLists: the name of every stored list record, each once. */
  method GetAllLists(db: Db) returns (names: seq<string>)
    ensures |names| == |db.lists|
    ensures forall n :: n in names <==> n in db.lists
    ensures forall i, j :: 0 <= i < j < |names| ==> names[i] != names[j]
  {
    var rest := db.lists;
    names := [];
    while rest != {}
      invariant rest <= db.lists
      invariant |names| + |rest| == |db.lists|
      invariant forall n :: n in names <==> n in db.lists - rest
      invariant forall i, j :: 0 <= i < j < |names| ==> names[i] != names[j]
      decreases rest
    {
      var n :| n in rest;
      assert n !in names;
      names := names + [n];
      rest := rest - {n};
    }
  }

  /** addList: a `put` of `{name}`. */
  function AddList(db: Db, name: string): (r: Db)
    ensures name in r.lists
    ensures forall n :: n != name ==> (n in r.lists <==> n in db.lists)
    ensures r.tasks == db.tasks && r.queue == db.queue
  {
    db.(lists := db.lists + {name})
  }

  /** deleteList: removes just that name. */
  function DeleteList(db: Db, name: string): (r: Db)
    ensures name !in r.lists
    ensures forall n :: n != name ==> (n in r.lists <==> n in db.lists)
    ensures r.tasks == db.tasks && r.queue == db.queue
  {
    db.(lists := db.lists - {name})
  }

  /** Adding a list twice is adding it once; adding then deleting a fresh
      name restores the lists. */
  lemma ListOperations(db: Db, name: string)
    ensures AddList(AddList(db, name), name) == AddList(db, name)
    ensures name !in db.lists ==> DeleteList(AddList(db, name), name) == db
  {
  }

  // ---------------------------------------------------------------------------
  // Request queue
  // ---------------------------------------------------------------------------

  /** Appends one entry at the end of the queue. */
  function Enqueue(db: Db, req: QueuedRequest): (r: Db)
    ensures r.queue == db.queue + [req]
    ensures r.tasks == db.tasks && r.lists == db.lists
  {
    db.(queue := db.queue + [req])
  }
}
