/*
 * The service worker (frontend/sw.js): which caches activation deletes, how
 * an intercepted fetch is answered, and the background-sync replay of the
 * request queue. The Cache Storage API and the network are inputs: a fetch
 * either yields a response or fails, a cache lookup either hits or misses.
 *
 * The queue is the request queue of the local database. Its records carry
 * an auto-increment key, so deleting "the record with this key" removes
 * exactly that record; the model identifies a record by its position.
 */
module ServiceWorker {
  import opened Base
  import Api
  import opened LocalDb

  const StaticCacheName := "tasklab-static-v2"
  const DynamicCacheName := "tasklab-dynamic-v2"
  const ReplayTag := "sync-new-task"

  // ---------------------------------------------------------------------------
  // activate
  // ---------------------------------------------------------------------------

  /** A cache the current worker owns. */
  predicate IsCurrentCache(name: string) {
    name == StaticCacheName || name == DynamicCacheName
  }

  function IsStaleCache(name: string): bool {
    !IsCurrentCache(name)
  }

  /** The caches the activate handler deletes, in caches.keys() order. */
  function CachesToDelete(names: seq<string>): (r: seq<string>)
    ensures forall n :: n in r <==> n in names && !IsCurrentCache(n)
  {
    Filter(IsStaleCache, names)
  }

  /** The cache names left once activation has finished. */
  function CachesAfterActivate(names: seq<string>): (r: seq<string>)
    ensures forall n :: n in r <==> n in names && IsCurrentCache(n)
  {
    Filter(IsCurrentCache, names)
  }

  /** Only the two current caches survive activation, both do if present,
      and activating again deletes nothing. */
  lemma ActivateIdempotent(names: seq<string>)
    ensures CachesToDelete(CachesAfterActivate(names)) == []
    ensures StaticCacheName in names ==> StaticCacheName in CachesAfterActivate(names)
    ensures DynamicCacheName in names ==> DynamicCacheName in CachesAfterActivate(names)
  {
    var kept := CachesAfterActivate(names);
    FilterNone(IsStaleCache, kept);
  }

  // ---------------------------------------------------------------------------
  // fetch
  // ---------------------------------------------------------------------------

  /** What fetch(event.request) does: resolve with a response (of any
      status) or reject. */
  datatype NetworkResult = Fetched(response: Api.Response) | NetworkFailure

  /** What the page receives for an intercepted request. `NoResponse` is
      the undefined a cache miss resolves to; `Rejected` is an error the
      handler rethrows. */
  datatype Answer =
    | FromNetwork(response: Api.Response)
    | FromCache(response: Api.Response)
    | NoResponse
    | Rejected

  predicate IsApiRequest(url: string) {
    Contains(url, "/api/")
  }

  /** The fetch handler: API requests go to the network first and fall back
      to the cache only for GET; every other request is served from the
      cache first and from the network on a miss. */
  function HandleFetch(url: string, verb: Api.Method, network: NetworkResult, cached: Option<Api.Response>): (a: Answer)
    ensures a.FromNetwork? ==> network == Fetched(a.response)
    ensures a.FromCache? ==> cached == Some(a.response)
    ensures IsApiRequest(url) && network.Fetched? ==> a == FromNetwork(network.response)
    ensures IsApiRequest(url) && network.NetworkFailure? ==>
      a == (if verb != Api.GET then Rejected else if cached.Some? then FromCache(cached.value) else NoResponse)
    ensures !IsApiRequest(url) && cached.Some? ==> a == FromCache(cached.value)
    ensures !IsApiRequest(url) && cached.None? ==>
      a == (if network.Fetched? then FromNetwork(network.response) else Rejected)
  {
    if IsApiRequest(url) then
      match network
      case Fetched(response) => FromNetwork(response)
      case NetworkFailure =>
        if verb == Api.GET then
          (match cached case Some(response) => FromCache(response) case None => NoResponse)
        else Rejected
    else
      match cached
      case Some(response) => FromCache(response)
      case None =>
        match network
        case Fetched(response) => FromNetwork(response)
        case NetworkFailure => Rejected
  }

  /** A mutating API request is never answered from the cache, and a cache
      hit on a non-API request never consults the network. */
  lemma FetchRouting(url: string, verb: Api.Method, n1: NetworkResult, n2: NetworkResult,
                     c1: Option<Api.Response>, c2: Option<Api.Response>)
    ensures IsApiRequest(url) && verb != Api.GET ==> HandleFetch(url, verb, n1, c1) == HandleFetch(url, verb, n1, c2)
    ensures IsApiRequest(url) && verb != Api.GET ==> !HandleFetch(url, verb, n1, c1).FromCache?
    ensures !IsApiRequest(url) && c1.Some? ==> HandleFetch(url, verb, n1, c1) == HandleFetch(url, verb, n2, c1)
  {
  }

  // ---------------------------------------------------------------------------
  // Background sync
  // ---------------------------------------------------------------------------

  /** The outcome of one replayed fetch: a response with its status, or a
      rejection. */
  datatype FetchOutcome = Responded(status: int) | Threw

  predicate Succeeded(o: FetchOutcome) {
    o.Responded? && 200 <= o.status <= 299
  }

  function MethodName(m: Api.Method): string {
    match m
    case GET => "GET"
    case POST => "POST"
    case PUT => "PUT"
    case DELETE => "DELETE"
  }

  /** A queue record as JSON.stringify writes it: `url`, `method`, `body`
      when there is one, and the entity id under `_id`. */
  function EntryJson(e: QueuedRequest): Api.Json {
    var fields := map["url" := Api.JStr(e.url), "method" := Api.JStr(MethodName(e.verb)), "_id" := Api.JStr(e.entityId)];
    Api.JObj(if e.body.Some? then fields["body" := e.body.value] else fields)
  }

  /** The request syncNewTasks sends for a record: always POST /api/tasks
      with the whole record as body, whatever method and URL it recorded. */
  function ReplayRequest(e: QueuedRequest): (r: Api.HttpRequest)
    ensures r.url == Api.TasksUrl && r.config.verb == Some(Api.POST)
    ensures r.config.body == Some(EntryJson(e))
  {
    Api.HttpRequest(Api.TasksUrl, Api.FetchOptions(Some(Api.POST), Some(EntryJson(e)),
      map[Api.ContentType := Api.JsonMediaType], None))
  }

  /** The records a replay pass leaves: those whose request did not succeed,
      in their original order. */
  function Retained(q: seq<QueuedRequest>, o: seq<FetchOutcome>): (r: seq<QueuedRequest>)
    requires |o| == |q|
    ensures |r| <= |q|
  {
    if q == [] then []
    else Retained(q[..|q| - 1], o[..|o| - 1]) + (if Succeeded(o[|o| - 1]) then [] else [q[|q| - 1]])
  }

  /** The requests a replay pass sends, one per record, in order. */
  function ReplayRequests(q: seq<QueuedRequest>): (r: seq<Api.HttpRequest>)
    ensures |r| == |q|
    ensures forall i :: 0 <= i < |q| ==> r[i] == ReplayRequest(q[i])
  {
    if q == [] then [] else ReplayRequests(q[..|q| - 1]) + [ReplayRequest(q[|q| - 1])]
  }

  /** The queue without its record at position `pos`. */
  function DeleteAt(q: seq<QueuedRequest>, pos: nat): (r: seq<QueuedRequest>)
    requires pos < |q|
    ensures |r| == |q| - 1
  {
    q[..pos] + q[pos + 1..]
  }

  /** One more attempt extends what a pass keeps by at most that record. */
  lemma RetainedStep(q: seq<QueuedRequest>, o: seq<FetchOutcome>, i: nat)
    requires |o| == |q| && i < |q|
    ensures Retained(q[..i + 1], o[..i + 1]) == Retained(q[..i], o[..i]) + (if Succeeded(o[i]) then [] else [q[i]])
  {
    assert q[..i + 1][..i] == q[..i];
    assert o[..i + 1][..i] == o[..i];
  }

  /** One more record sent. */
  lemma ReplayRequestsStep(q: seq<QueuedRequest>, i: nat)
    requires i < |q|
    ensures ReplayRequests(q[..i + 1]) == ReplayRequests(q[..i]) + [ReplayRequest(q[i])]
  {
    assert q[..i + 1][..i] == q[..i];
  }

  /** Deleting the record just after the kept ones leaves the kept ones
      followed by the records not yet attempted. */
  lemma DeleteNext(kept: seq<QueuedRequest>, rest: seq<QueuedRequest>)
    requires rest != []
    ensures DeleteAt(kept + rest, |kept|) == kept + rest[1..]
  {
    var q := kept + rest;
    assert q[..|kept|] == kept;
    assert q[|kept| + 1..] == rest[1..];
  }

  lemma KeepNext(kept: seq<QueuedRequest>, rest: seq<QueuedRequest>)
    requires rest != []
    ensures kept + rest == (kept + [rest[0]]) + rest[1..]
  {
    assert rest == [rest[0]] + rest[1..];
  }

  /** The replay loop over the records of the queue: `outcomes[i]` is what
      the fetch of record i gives. Returns the queue afterwards and the
      requests sent. */
  method Replay(allTasks: seq<QueuedRequest>, outcomes: seq<FetchOutcome>)
    returns (queue: seq<QueuedRequest>, sent: seq<Api.HttpRequest>)
    requires |outcomes| == |allTasks|
    ensures sent == ReplayRequests(allTasks)
    ensures queue == Retained(allTasks, outcomes)
  {
    queue := allTasks;
    sent := [];
    var kept: seq<QueuedRequest> := [];
    var i := 0;
    while i < |allTasks|
      invariant 0 <= i <= |allTasks|
      invariant sent == ReplayRequests(allTasks[..i])
      invariant kept == Retained(allTasks[..i], outcomes[..i])
      invariant queue == kept + allTasks[i..]
    {
      var task := allTasks[i];
      sent := sent + [ReplayRequest(task)];
      ReplayRequestsStep(allTasks, i);
      RetainedStep(allTasks, outcomes, i);
      if Succeeded(outcomes[i]) {
        // db.delete('sync-tasks', task.id) removes exactly this record.
        DeleteNext(kept, allTasks[i..]);
        assert allTasks[i..][1..] == allTasks[i + 1..];
        queue := DeleteAt(queue, |kept|);
      } else {
        KeepNext(kept, allTasks[i..]);
        assert allTasks[i..][1..] == allTasks[i + 1..];
        kept := kept + [task];
      }
      i := i + 1;
    }
    assert allTasks[..i] == allTasks;
    assert outcomes[..i] == outcomes;
  }

  /** syncNewTasks: every record of the queue, in store order, is sent once
      as POST /api/tasks; a record whose response is ok is deleted, one whose
      response is not ok or whose fetch throws stays, and the loop goes on
      either way. Only the queue changes. */
  method SyncNewTasks(db: Db, outcomes: seq<FetchOutcome>) returns (db': Db, sent: seq<Api.HttpRequest>)
    requires |outcomes| == |db.queue|
    ensures |sent| == |db.queue|
    ensures forall i :: 0 <= i < |sent| ==> sent[i] == ReplayRequest(db.queue[i])
    ensures db'.queue == Retained(db.queue, outcomes)
    ensures db'.tasks == db.tasks && db'.lists == db.lists
  {
    var queue;
    queue, sent := Replay(db.queue, outcomes);
    db' := db.(queue := queue);
  }

  /** The sync event: only the new-task tag starts a replay; any other tag
      sends nothing and leaves the database as it is. */
  method OnSync(tag: string, db: Db, outcomes: seq<FetchOutcome>) returns (db': Db, sent: seq<Api.HttpRequest>)
    requires |outcomes| == |db.queue|
    ensures tag != ReplayTag ==> db' == db && sent == []
    ensures tag == ReplayTag ==> db'.queue == Retained(db.queue, outcomes) && |sent| == |db.queue|
    ensures db'.tasks == db.tasks && db'.lists == db.lists
  {
    if tag == ReplayTag {
      db', sent := SyncNewTasks(db, outcomes);
    } else {
      db', sent := db, [];
    }
  }

  /** The number of successful outcomes. */
  function Successes(o: seq<FetchOutcome>): (n: nat)
    ensures n <= |o|
  {
    if o == [] then 0 else Successes(o[..|o| - 1]) + (if Succeeded(o[|o| - 1]) then 1 else 0)
  }

  /** Retention is first-in first-out: a pass over two stretches of the
      queue keeps what each stretch keeps, in order, so an earlier failure
      never holds back a later record. */
  lemma {:induction false} RetainedAppend(q1: seq<QueuedRequest>, o1: seq<FetchOutcome>,
                                          q2: seq<QueuedRequest>, o2: seq<FetchOutcome>)
    requires |o1| == |q1| && |o2| == |q2|
    ensures Retained(q1 + q2, o1 + o2) == Retained(q1, o1) + Retained(q2, o2)
    decreases |q2|
  {
    if q2 == [] {
      assert q1 + q2 == q1 && o1 + o2 == o1;
    } else {
      var q := q1 + q2;
      var o := o1 + o2;
      var q2', o2' := q2[..|q2| - 1], o2[..|o2| - 1];
      assert q[..|q| - 1] == q1 + q2';
      assert o[..|o| - 1] == o1 + o2';
      assert q[|q| - 1] == q2[|q2| - 1] && o[|o| - 1] == o2[|o2| - 1];
      var last := if Succeeded(o2[|o2| - 1]) then [] else [q2[|q2| - 1]];
      assert Retained(q, o) == Retained(q1 + q2', o1 + o2') + last;
      assert Retained(q2, o2) == Retained(q2', o2') + last;
      RetainedAppend(q1, o1, q2', o2');
    }
  }

  /** A pass keeps one record per unsuccessful attempt: none when every
      request succeeds, all of them when none does, and every record whose
      request did not succeed. */
  lemma RetentionCount(q: seq<QueuedRequest>, o: seq<FetchOutcome>)
    requires |o| == |q|
    ensures |Retained(q, o)| == |q| - Successes(o)
    ensures (forall i :: 0 <= i < |o| ==> Succeeded(o[i])) ==> Retained(q, o) == []
    ensures (forall i :: 0 <= i < |o| ==> !Succeeded(o[i])) ==> Retained(q, o) == q
    ensures forall i :: 0 <= i < |q| && !Succeeded(o[i]) ==> q[i] in Retained(q, o)
  {
    RetainedSize(q, o);
    if forall i :: 0 <= i < |o| ==> Succeeded(o[i]) {
      assert Successes(o) == |o| by { AllSucceeded(o); }
    }
    if forall i :: 0 <= i < |o| ==> !Succeeded(o[i]) {
      NoneSucceeded(q, o);
    }
    RetainedKeepsFailures(q, o);
  }

  lemma {:induction false} RetainedSize(q: seq<QueuedRequest>, o: seq<FetchOutcome>)
    requires |o| == |q|
    ensures |Retained(q, o)| == |q| - Successes(o)
  {
    if q != [] {
      RetainedSize(q[..|q| - 1], o[..|o| - 1]);
    }
  }

  lemma {:induction false} AllSucceeded(o: seq<FetchOutcome>)
    requires forall i :: 0 <= i < |o| ==> Succeeded(o[i])
    ensures Successes(o) == |o|
  {
    if o != [] {
      AllSucceeded(o[..|o| - 1]);
    }
  }

  lemma {:induction false} NoneSucceeded(q: seq<QueuedRequest>, o: seq<FetchOutcome>)
    requires |o| == |q|
    requires forall i :: 0 <= i < |o| ==> !Succeeded(o[i])
    ensures Retained(q, o) == q
  {
    if q != [] {
      var n := |q| - 1;
      NoneSucceeded(q[..n], o[..n]);
      assert q == q[..n] + [q[n]];
    }
  }

  lemma {:induction false} RetainedKeepsFailures(q: seq<QueuedRequest>, o: seq<FetchOutcome>)
    requires |o| == |q|
    ensures forall i :: 0 <= i < |q| && !Succeeded(o[i]) ==> q[i] in Retained(q, o)
  {
    if q != [] {
      var n := |q| - 1;
      RetainedKeepsFailures(q[..n], o[..n]);
      forall i | 0 <= i < |q| && !Succeeded(o[i]) ensures q[i] in Retained(q, o) {
        if i < n {
          assert o[..n][i] == o[i];
          assert q[..n][i] == q[i];
          assert q[i] in Retained(q[..n], o[..n]);
        }
      }
    }
  }
}
