/*
 * Loading and viewing tasks (frontend/modules/taskSync.js): a server snapshot
 * replaces the local task store, the stored tasks are sorted with the
 * source's comparator, and the dashboard keeps the first few unsnoozed,
 * incomplete tasks of the current list. Rendering itself is not modelled;
 * the result is the sequence of tasks handed to renderTasks.
 */
module TaskSync {
  import opened Base
  import opened LocalDb

  // ---------------------------------------------------------------------------
  // The comparator
  // ---------------------------------------------------------------------------

  /** The time value of `new Date(t.completedTimestamp)`, with `None` for
      NaN. A completed task loaded from the server has no completedTimestamp
      property (the server's schema keeps none), and `new Date(undefined)` is
      NaN; so is a Date past the time-value range. The client writes null,
      the epoch, only when it marks a task incomplete, and incomplete tasks
      are never compared on their time. */
  function CompletedAt(t: Task): Option<int> {
    match t.completedTimestamp
    case None => None
    case Some(ms) => if IsTimeValue(ms) then Some(ms) else None
  }

  /** The comparator handed to Array.prototype.sort: a negative result puts
      `a` first. The difference of two Dates is NaN when either is, and the
      sort reads a NaN result as +0. */
  function Compare(a: Task, b: Task): int {
    if a.completed && !b.completed then 1
    else if !a.completed && b.completed then -1
    else if a.completed && b.completed then
      (if CompletedAt(a).Some? && CompletedAt(b).Some? then CompletedAt(b).value - CompletedAt(a).value else 0)
    else 0
  }

  /** `a` may stand before `b` in a sorted sequence. */
  predicate InOrder(a: Task, b: Task) {
    Compare(a, b) <= 0
  }

  /** Incomplete, or completed at a valid time. */
  predicate Timed(t: Task) {
    t.completed ==> CompletedAt(t).Some?
  }

  /** Incomplete, or completed with no valid time. */
  predicate Untimed(t: Task) {
    t.completed ==> CompletedAt(t).None?
  }

  predicate AllTimed(s: seq<Task>) {
    forall t :: t in s ==> Timed(t)
  }

  predicate NoneTimed(s: seq<Task>) {
    forall t :: t in s ==> Untimed(t)
  }

  /** The tasks the comparator is consistent on, in the sense of
      ECMAScript's SortCompare: either every completed task has a time or
      none has. */
  predicate Consistent(s: seq<Task>) {
    AllTimed(s) || NoneTimed(s)
  }

  /** On any tasks the comparator is reflexive, antisymmetric and total. */
  lemma CompareTotal(a: Task, b: Task)
    ensures Compare(a, a) == 0
    ensures Compare(a, b) == -Compare(b, a)
    ensures InOrder(a, b) || InOrder(b, a)
  {
  }

  /** On tasks it is consistent on, it is also transitive. */
  lemma CompareTransitive(a: Task, b: Task, c: Task)
    requires (Timed(a) && Timed(b) && Timed(c)) || (Untimed(a) && Untimed(b) && Untimed(c))
    ensures InOrder(a, b) && InOrder(b, c) ==> InOrder(a, c)
  {
  }

  /** A completed task without a time next to two completed at different
      times breaks transitivity: the source's comparator is then no
      preorder, and ECMAScript leaves the resulting order to the
      implementation. */
  lemma UntimedBreaksTransitivity(a: Task, b: Task, c: Task)
    requires a.completed && b.completed && c.completed
    requires CompletedAt(a).None? && CompletedAt(b).Some? && CompletedAt(c).Some?
    requires CompletedAt(b).value < CompletedAt(c).value
    ensures InOrder(b, a) && InOrder(a, c) && !InOrder(b, c)
  {
  }

  predicate Sorted(s: seq<Task>) {
    forall i, j :: 0 <= i < j < |s| ==> InOrder(s[i], s[j])
  }

  // ---------------------------------------------------------------------------
  // Stable sort
  // ---------------------------------------------------------------------------

  /** Inserts `x` into `s` after the last element that may precede it,
      which is where a stable sort puts a later element. */
  function Insert(s: seq<Task>, x: Task): (r: seq<Task>)
    ensures multiset(r) == multiset(s) + multiset{x}
  {
    if s == [] then [x]
    else if InOrder(s[|s| - 1], x) then s + [x]
    else
      assert s == s[..|s| - 1] + [s[|s| - 1]];
      Insert(s[..|s| - 1], x) + [s[|s| - 1]]
  }

  /** Array.prototype.sort with the comparator above. The sort is stable
      (ECMAScript 2019), so on tasks the comparator is consistent on its
      result is that of any stable sort; the model is an insertion sort.
      On other tasks the order is the implementation's, and the model's
      is one such order. */
  function SortTasks(s: seq<Task>): (r: seq<Task>)
    ensures multiset(r) == multiset(s)
  {
    if s == [] then []
    else
      assert s == s[..|s| - 1] + [s[|s| - 1]];
      Insert(SortTasks(s[..|s| - 1]), s[|s| - 1])
  }

  /** Any three elements of a consistent sequence are all timed or all
      untimed. */
  lemma ConsistentTriple(s: seq<Task>, a: Task, b: Task, c: Task)
    requires Consistent(s) && a in s && b in s && c in s
    ensures (Timed(a) && Timed(b) && Timed(c)) || (Untimed(a) && Untimed(b) && Untimed(c))
  {
  }

  /** A sequence drawn from the elements of a consistent one is
      consistent. */
  lemma ConsistentSub(s: seq<Task>, t: seq<Task>)
    requires Consistent(s)
    requires forall y :: y in t ==> y in s
    ensures Consistent(t)
  {
  }

  /** Inserting into a sorted sequence on which, with `x`, the comparator is
      consistent keeps it sorted. */
  lemma {:induction false} InsertSorted(s: seq<Task>, x: Task)
    requires Sorted(s) && Consistent(s + [x])
    ensures Sorted(Insert(s, x))
  {
    if s != [] {
      var last := s[|s| - 1];
      var init := s[..|s| - 1];
      var r := Insert(s, x);
      if InOrder(last, x) {
        forall i, j | 0 <= i < j < |r| ensures InOrder(r[i], r[j]) {
          if j == |s| {
            ConsistentTriple(s + [x], r[i], last, x);
            CompareTransitive(r[i], last, x);
          }
        }
      } else {
        var rest := Insert(init, x);
        assert s == init + [last];
        ConsistentSub(s + [x], init + [x]);
        InsertSorted(init, x);
        forall i, j | 0 <= i < j < |r| ensures InOrder(r[i], r[j]) {
          if j == |rest| {
            assert r[i] in multiset(rest);
            if r[i] != x {
              assert r[i] in multiset(init);
              var k :| 0 <= k < |init| && init[k] == r[i];
              assert InOrder(s[k], last);
            } else {
              CompareTotal(x, last);
            }
          }
        }
      }
    }
  }

  /** The sort orders every sequence the comparator is consistent on. */
  lemma {:induction false} SortSorted(s: seq<Task>)
    requires Consistent(s)
    ensures Sorted(SortTasks(s))
  {
    if s != [] {
      var init := s[..|s| - 1];
      var last := s[|s| - 1];
      assert s == init + [last];
      ConsistentSub(s, init);
      SortSorted(init);
      forall y | y in SortTasks(init) + [last] ensures y in s {
        if y != last { assert y in multiset(SortTasks(init)); }
      }
      ConsistentSub(s, SortTasks(init) + [last]);
      InsertSorted(SortTasks(init), last);
    }
  }

  function IsIncomplete(t: Task): bool {
    !t.completed
  }

  function IsComplete(t: Task): bool {
    t.completed
  }

  /** Inserting a task keeps the incomplete tasks in their order and puts an
      incomplete `x` after them all. */
  lemma {:induction false} InsertKeepsIncompleteOrder(s: seq<Task>, x: Task)
    ensures Filter(IsIncomplete, Insert(s, x)) == Filter(IsIncomplete, s) + Filter(IsIncomplete, [x])
  {
    if s == [] {
    } else if InOrder(s[|s| - 1], x) {
      FilterAppend(IsIncomplete, s, [x]);
    } else {
      var last := s[|s| - 1];
      var init := s[..|s| - 1];
      assert s == init + [last];
      InsertKeepsIncompleteOrder(init, x);
      FilterAppend(IsIncomplete, Insert(init, x), [last]);
      FilterAppend(IsIncomplete, init, [last]);
      // `last` moved past `x`, so `last` is completed and contributes nothing.
      assert Filter(IsIncomplete, [last]) == [] by { assert last.completed; }
    }
  }

  /** The sort keeps the incomplete tasks in their original relative
      order. */
  lemma {:induction false} SortKeepsIncompleteOrder(s: seq<Task>)
    ensures Filter(IsIncomplete, SortTasks(s)) == Filter(IsIncomplete, s)
  {
    if s != [] {
      var init := s[..|s| - 1];
      var last := s[|s| - 1];
      assert s == init + [last];
      SortKeepsIncompleteOrder(init);
      InsertKeepsIncompleteOrder(SortTasks(init), last);
      FilterAppend(IsIncomplete, init, [last]);
    }
  }

  /** With every completed task timed, the sort is a permutation with every
      incomplete task before every completed one, the completed tasks
      latest first, and the incomplete tasks in their original relative
      order. */
  lemma TimedSortSpec(s: seq<Task>)
    requires AllTimed(s)
    ensures var r := SortTasks(s);
      && multiset(r) == multiset(s)
      && (forall i, j :: 0 <= i < j < |r| && r[i].completed ==> r[j].completed)
      && (forall i, j :: 0 <= i < j < |r| && r[i].completed && r[j].completed
            ==> CompletedAt(r[i]).Some? && CompletedAt(r[j]).Some?
                && CompletedAt(r[i]).value >= CompletedAt(r[j]).value)
      && Filter(IsIncomplete, r) == Filter(IsIncomplete, s)
  {
    var r := SortTasks(s);
    SortSorted(s);
    forall i, j | 0 <= i < j < |r| && r[i].completed ensures r[j].completed {
      assert InOrder(r[i], r[j]);
    }
    forall i, j | 0 <= i < j < |r| && r[i].completed && r[j].completed
      ensures CompletedAt(r[i]).Some? && CompletedAt(r[j]).Some?
              && CompletedAt(r[i]).value >= CompletedAt(r[j]).value
    {
      assert r[i] in multiset(s) && r[j] in multiset(s);
      assert r[i] in s && r[j] in s;
      assert InOrder(r[i], r[j]);
    }
    SortKeepsIncompleteOrder(s);
  }

  /** An incomplete task inserted into incomplete tasks followed by
      completed ones lands between the two groups. */
  lemma {:induction false} InsertAtBoundary(a: seq<Task>, c: seq<Task>, x: Task)
    requires forall k :: 0 <= k < |a| ==> !a[k].completed
    requires forall k :: 0 <= k < |c| ==> c[k].completed
    requires !x.completed
    ensures Insert(a + c, x) == a + [x] + c
  {
    if c == [] {
      assert a + c == a;
    } else {
      var init := c[..|c| - 1];
      assert a + c == (a + init) + [c[|c| - 1]];
      InsertAtBoundary(a, init, x);
      assert a + [x] + c == (a + [x] + init) + [c[|c| - 1]];
    }
  }

  /** A completed task without a time goes to the end of tasks none of
      which is timed. */
  lemma AppendUntimed(s: seq<Task>, x: Task)
    requires NoneTimed(s) && x.completed && Untimed(x)
    ensures Insert(s, x) == s + [x]
  {
    if s != [] {
      assert s[|s| - 1] in s;
    }
  }

  /** The filtered parts of a sequence none of which is timed. */
  lemma FilteredUntimed(s: seq<Task>)
    requires NoneTimed(s)
    ensures NoneTimed(Filter(IsIncomplete, s) + Filter(IsComplete, s))
  {
    var a, c := Filter(IsIncomplete, s), Filter(IsComplete, s);
    forall y | y in a + c ensures Untimed(y) {
      if y in a {
        var k :| 0 <= k < |a| && a[k] == y;
        assert a[k] in s;
      } else {
        var k :| 0 <= k < |c| && c[k] == y;
        assert c[k] in s;
      }
    }
  }

  /** One step of the untimed sort: inserting the next task into the
      partitioned prefix partitions the longer prefix. */
  lemma UntimedStep(init: seq<Task>, last: Task)
    requires NoneTimed(init) && Untimed(last)
    ensures Insert(Filter(IsIncomplete, init) + Filter(IsComplete, init), last)
            == Filter(IsIncomplete, init + [last]) + Filter(IsComplete, init + [last])
  {
    if last.completed {
      UntimedStepCompleted(init, last);
    } else {
      UntimedStepIncomplete(init, last);
    }
  }

  lemma UntimedStepCompleted(init: seq<Task>, last: Task)
    requires NoneTimed(init) && Untimed(last) && last.completed
    ensures Insert(Filter(IsIncomplete, init) + Filter(IsComplete, init), last)
            == Filter(IsIncomplete, init + [last]) + Filter(IsComplete, init + [last])
  {
    var a, c := Filter(IsIncomplete, init), Filter(IsComplete, init);
    FilterAppend(IsIncomplete, init, [last]);
    FilterAppend(IsComplete, init, [last]);
    assert Filter(IsIncomplete, [last]) == [];
    assert Filter(IsComplete, [last]) == [last];
    FilteredUntimed(init);
    AppendUntimed(a + c, last);
    assert Filter(IsIncomplete, init + [last]) == a;
    assert Filter(IsComplete, init + [last]) == c + [last];
    assert a + c + [last] == a + (c + [last]);
  }

  lemma UntimedStepIncomplete(init: seq<Task>, last: Task)
    requires !last.completed
    ensures Insert(Filter(IsIncomplete, init) + Filter(IsComplete, init), last)
            == Filter(IsIncomplete, init + [last]) + Filter(IsComplete, init + [last])
  {
    var a, c := Filter(IsIncomplete, init), Filter(IsComplete, init);
    FilterAppend(IsIncomplete, init, [last]);
    FilterAppend(IsComplete, init, [last]);
    assert Filter(IsIncomplete, [last]) == [last];
    assert Filter(IsComplete, [last]) == [];
    InsertAtBoundary(a, c, last);
    assert Filter(IsIncomplete, init + [last]) == a + [last];
    assert Filter(IsComplete, init + [last]) == c;
  }

  /** With no completed task timed (a store freshly loaded from the server),
      the sort puts the incomplete tasks first and the completed ones after
      them, each group in store order. */
  lemma {:induction false} UntimedSortSpec(s: seq<Task>)
    requires NoneTimed(s)
    ensures SortTasks(s) == Filter(IsIncomplete, s) + Filter(IsComplete, s)
  {
    if s != [] {
      var init := s[..|s| - 1];
      var last := s[|s| - 1];
      assert s == init + [last];
      assert NoneTimed(init) by {
        forall y | y in init ensures Untimed(y) { assert y in s; }
      }
      assert last in s;
      UntimedSortSpec(init);
      UntimedStep(init, last);
    }
  }

  // ---------------------------------------------------------------------------
  // Views
  // ---------------------------------------------------------------------------

  const DefaultDashboardLimit := 3
  const DefaultList := "home"
  const AllLists := "all"

  /** The two views loadTasksFromDb can render. The dashboard settings are
      the localStorage values: `None` when the key is absent or empty (both
      fall back to the default), otherwise the stored count and the stored
      list name. localStorage hands back a string, which `slice` turns into
      an integer (ToIntegerOrInfinity); that conversion is abstracted, and
      the count is any integer the string may denote ("0" is a limit of 0,
      because a non-empty string is truthy). */
  datatype View = Browse | Dashboard(limitSetting: Option<int>, listSetting: Option<string>)

  function Limit(setting: Option<int>): int {
    match setting
    case None => DefaultDashboardLimit
    case Some(n) => n
  }

  function CurrentList(setting: Option<string>): string {
    match setting
    case None => DefaultList
    case Some(s) => if s == "" then DefaultList else s
  }

  /** Whether a task belongs on the dashboard of list `current`: neither
      snoozed nor completed, and on that list unless every list is shown. */
  predicate Qualifies(t: Task, current: string) {
    !t.snoozed && !t.completed && (current == AllLists || t.list == Some(current))
  }

  /** The dashboard filter of one task. */
  function OnDashboard(current: string): Task -> bool {
    (t: Task) => Qualifies(t, current)
  }

  /** How many tasks `slice(0, limit)` keeps of `n`. */
  function SliceLength(n: nat, limit: int): nat {
    if limit >= 0 then (if limit < n then limit else n)
    else (if n + limit > 0 then n + limit else 0)
  }

  /** The tasks loadTasksFromDb hands to renderTasks for one view. */
  function Visible(tasks: seq<Task>, view: View): (r: seq<Task>)
    ensures view.Browse? ==> r == SortTasks(tasks)
    ensures view.Dashboard? ==> forall i :: 0 <= i < |r| ==>
      r[i] in multiset(tasks) && Qualifies(r[i], CurrentList(view.listSetting))
    ensures view.Dashboard? && Limit(view.limitSetting) >= 0 ==> |r| <= Limit(view.limitSetting)
    ensures view.Dashboard? ==>
      |r| == SliceLength(|Filter(OnDashboard(CurrentList(view.listSetting)), SortTasks(tasks))|, Limit(view.limitSetting))
  {
    var sorted := SortTasks(tasks);
    match view
    case Browse => sorted
    case Dashboard(limitSetting, listSetting) =>
      var shown := Filter(OnDashboard(CurrentList(listSetting)), sorted);
      var r := SliceTo(shown, Limit(limitSetting));
      forall i | 0 <= i < |r| ensures r[i] in multiset(tasks) {
        assert r[i] in shown;
        assert r[i] in multiset(sorted);
      }
      r
  }

  /** With the default settings the dashboard shows at most three tasks,
      all of the 'home' list. */
  lemma DashboardDefaults(tasks: seq<Task>)
    ensures |Visible(tasks, Dashboard(None, None))| <= 3
    ensures forall t :: t in Visible(tasks, Dashboard(None, None)) ==> t.list == Some("home")
  {
  }

  /** The dashboard is the first `limit` qualifying tasks in sorted order:
      a prefix of the filtered sorted tasks, as long as the limit allows, and
      a qualifying task is left out only once the limit is reached. */
  lemma DashboardIsPrefix(tasks: seq<Task>, limitSetting: Option<int>, listSetting: Option<string>)
    ensures var shown := Filter(OnDashboard(CurrentList(listSetting)), SortTasks(tasks));
            var r := Visible(tasks, Dashboard(limitSetting, listSetting));
            && r == shown[..|r|]
            && (Limit(limitSetting) >= 0 ==>
                  |r| == (if Limit(limitSetting) < |shown| then Limit(limitSetting) else |shown|))
    ensures var r := Visible(tasks, Dashboard(limitSetting, listSetting));
            Limit(limitSetting) >= 0 && |r| < Limit(limitSetting) ==>
              forall i :: 0 <= i < |tasks| && Qualifies(tasks[i], CurrentList(listSetting)) ==> tasks[i] in r
  {
    var current := CurrentList(listSetting);
    var sorted := SortTasks(tasks);
    var shown := Filter(OnDashboard(current), sorted);
    var r := Visible(tasks, Dashboard(limitSetting, listSetting));
    if Limit(limitSetting) >= 0 && |r| < Limit(limitSetting) {
      assert r == shown;
      forall i | 0 <= i < |tasks| && Qualifies(tasks[i], current) ensures tasks[i] in r {
        assert tasks[i] in multiset(sorted);
        var j :| 0 <= j < |sorted| && sorted[j] == tasks[i];
        assert OnDashboard(current)(sorted[j]);
      }
    }
  }

  /** DashboardIsPrefix, read over the store the tasks were taken from. */
  lemma DashboardCoversStore(all: seq<Task>, store: TaskStore, limitSetting: Option<int>, listSetting: Option<string>)
    requires forall k :: k in store ==> store[k] in all
    ensures var r := Visible(all, Dashboard(limitSetting, listSetting));
            Limit(limitSetting) >= 0 && |r| < Limit(limitSetting) ==>
              forall k :: k in store && Qualifies(store[k], CurrentList(listSetting)) ==> store[k] in r
  {
    var r := Visible(all, Dashboard(limitSetting, listSetting));
    if Limit(limitSetting) >= 0 && |r| < Limit(limitSetting) {
      DashboardIsPrefix(all, limitSetting, listSetting);
      forall k | k in store && Qualifies(store[k], CurrentList(listSetting)) ensures store[k] in r {
        var i :| 0 <= i < |all| && all[i] == store[k];
      }
    }
  }

  // ---------------------------------------------------------------------------
  // syncAndLoadTasks
  // ---------------------------------------------------------------------------

  /** The outcome of api.loadTasks(): the server's tasks, or any error. */
  datatype LoadOutcome = Loaded(serverTasks: seq<Task>) | LoadFailed

  /** `all` lists the store's records, each exactly once, in some order. */
  predicate Listing(db: Db, all: seq<Task>) {
    && |all| == |db.tasks|
    && DistinctIds(all)
    && forall i :: 0 <= i < |all| ==> GetTask(db, all[i].id) == Some(all[i])
  }

  /** syncAndLoadTasks: a successful load replaces the task store; a failed
      one leaves it. Either way the view is rendered from the store, whose
      records arrive in `order` (getAllTasks). */
  method SyncAndLoadTasks(db: Db, outcome: LoadOutcome, view: View) returns (db': Db, shown: seq<Task>)
    ensures outcome.Loaded? ==> db' == SaveTasks(db, outcome.serverTasks)
    ensures outcome.Loaded? ==> forall k :: k in db'.tasks <==>
              exists i :: 0 <= i < |outcome.serverTasks| && outcome.serverTasks[i].id == k
    ensures outcome.LoadFailed? ==> db' == db
    ensures db'.lists == db.lists && db'.queue == db.queue
    ensures view.Browse? ==> |shown| == |db'.tasks|
    ensures view.Browse? ==> forall k :: k in db'.tasks ==> db'.tasks[k] in shown
    ensures exists all :: Listing(db', all) && shown == Visible(all, view)
    ensures forall i :: 0 <= i < |shown| ==> GetTask(db', shown[i].id) == Some(shown[i])
    ensures view.Dashboard? ==> forall i :: 0 <= i < |shown| ==> Qualifies(shown[i], CurrentList(view.listSetting))
    ensures view.Dashboard? && Limit(view.limitSetting) >= 0 ==> |shown| <= Limit(view.limitSetting)
    ensures view.Dashboard? && Limit(view.limitSetting) >= 0 && |shown| < Limit(view.limitSetting) ==>
              forall k :: k in db'.tasks && Qualifies(db'.tasks[k], CurrentList(view.listSetting)) ==> db'.tasks[k] in shown
  {
    db' := match outcome
      case Loaded(serverTasks) => SaveTasks(db, serverTasks)
      case LoadFailed => db;
    var all := GetAllTasks(db');
    shown := Visible(all, view);
    assert Listing(db', all);
    forall i | 0 <= i < |shown| ensures GetTask(db', shown[i].id) == Some(shown[i]) {
      assert shown[i] in multiset(all);
    }
    if view.Browse? {
      assert |shown| == |multiset(shown)| == |multiset(all)|;
      forall k | k in db'.tasks ensures db'.tasks[k] in shown {
        assert db'.tasks[k] in multiset(all);
      }
    } else {
      DashboardCoversStore(all, db'.tasks, view.limitSetting, view.listSetting);
    }
  }
}
