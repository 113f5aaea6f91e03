/*
 * What createTaskElement decides about a task row
 * (frontend/modules/taskRenderer.js): its class attribute, whether it shows
 * the edit/delete controls, the completion time and a snooze countdown, and
 * the countdown's hours/minutes/seconds. Building the DOM is not modelled.
 */
module TaskRenderer {
  import opened Base
  import opened LocalDb
  import TaskActions

  // ---------------------------------------------------------------------------
  // Class attribute
  // ---------------------------------------------------------------------------

  /** A priority as the template literal writes it: the numeral, or
      `undefined` for a record without one. Tasks created by the server
      carry no priority until a scheduled bump gives them one. */
  function PriorityText(p: Option<int>): (r: string)
    ensures r == "undefined" <==> p.None?
    ensures p.Some? ==> r == IntToString(p.value)
  {
    match p
    case None => "undefined"
    case Some(n) =>
      var r := IntToString(n);
      assert r[0] == '-' || IsDigit(r[0]) by {
        if n < 0 { assert r[0] == '-'; } else { assert IsDigit(NatToString(n)[0]); }
      }
      r
  }

  /** The class attribute of a row: `priority-<p> <completed?> <snoozed?>`,
      where an absent flag leaves an empty slot between the spaces. */
  function ClassName(t: Task): string {
    "priority-" + PriorityText(t.priority) + " " + (if t.completed then "completed" else "")
      + " " + (if t.snoozed then "snoozed" else "")
  }

  predicate NoSpace(s: string) {
    forall k :: 0 <= k < |s| ==> s[k] != ' '
  }

  /** Index of the first space in `s`. */
  function FirstSpace(s: string): (r: Option<nat>)
    ensures r.None? <==> NoSpace(s)
    ensures r.Some? ==> r.value < |s| && s[r.value] == ' ' && NoSpace(s[..r.value])
  {
    if s == [] then None
    else if s[0] == ' ' then Some(0)
    else
      match FirstSpace(s[1..])
      case None => None
      case Some(i) =>
        assert s[..i + 1] == [s[0]] + s[1..][..i];
        Some(i + 1)
  }

  /** The tokens of a class attribute as the element's classList reads them:
      the attribute split at spaces, empty pieces dropped. */
  function ClassTokens(s: string): seq<string>
    decreases |s|
  {
    match FirstSpace(s)
    case None => if s == [] then [] else [s]
    case Some(i) => (if i == 0 then [] else [s[..i]]) + ClassTokens(s[i + 1..])
  }

  lemma TokensOfWord(w: string)
    requires NoSpace(w)
    ensures ClassTokens(w) == if w == [] then [] else [w]
  {
  }

  lemma TokensAfterWord(w: string, rest: string)
    requires NoSpace(w)
    ensures ClassTokens(w + " " + rest) == (if w == [] then [] else [w]) + ClassTokens(rest)
  {
    var s := w + " " + rest;
    var i := FirstSpace(s);
    assert s[|w|] == ' ';
    assert i.Some?;
    assert i.value == |w|;
    assert s[..|w|] == w;
    assert s[|w| + 1..] == rest;
  }

  lemma IntToStringHasNoSpace(i: int)
    ensures NoSpace(IntToString(i))
  {
    var r := IntToString(i);
    forall k | 0 <= k < |r| ensures r[k] != ' ' {
      if i < 0 && k > 0 { assert r[k] == NatToString(-i)[k - 1]; }
    }
  }

  lemma PriorityTextHasNoSpace(p: Option<int>)
    ensures NoSpace(PriorityText(p))
  {
    if p.Some? {
      IntToStringHasNoSpace(p.value);
    }
  }

  lemma PrefixedNoSpace(w: string)
    requires NoSpace(w)
    ensures NoSpace("priority-" + w)
  {
    var p := "priority-" + w;
    forall k | 0 <= k < |p| ensures p[k] != ' ' {
      if k >= 9 { assert p[k] == w[k - 9]; }
    }
  }

  lemma ThreeWords(p: string, c: string, z: string)
    requires NoSpace(p) && NoSpace(c) && NoSpace(z) && p != []
    ensures ClassTokens(p + " " + (c + " " + z)) ==
      [p] + (if c == [] then [] else [c]) + (if z == [] then [] else [z])
  {
    TokensAfterWord(p, c + " " + z);
    TokensAfterWord(c, z);
    TokensOfWord(z);
  }

  /** The row's classList holds its priority class, then `completed` when
      the task is completed and `snoozed` when it is snoozed. A record with
      no priority gets the class `priority-undefined`. */
  lemma ClassTokensOfTask(t: Task)
    ensures ClassTokens(ClassName(t)) ==
      ["priority-" + PriorityText(t.priority)]
      + (if t.completed then ["completed"] else [])
      + (if t.snoozed then ["snoozed"] else [])
  {
    var p := "priority-" + PriorityText(t.priority);
    var c := if t.completed then "completed" else "";
    var z := if t.snoozed then "snoozed" else "";
    PriorityTextHasNoSpace(t.priority);
    PrefixedNoSpace(PriorityText(t.priority));
    assert ClassName(t) == p + " " + (c + " " + z);
    ThreeWords(p, c, z);
  }

  /** The class `completed` is present exactly when the task is completed,
      and `snoozed` exactly when it is snoozed. */
  lemma ClassFlags(t: Task)
    ensures "completed" in ClassTokens(ClassName(t)) <==> t.completed
    ensures "snoozed" in ClassTokens(ClassName(t)) <==> t.snoozed
  {
    ClassTokensOfTask(t);
    var p := "priority-" + PriorityText(t.priority);
    assert p[0] == 'p';
    assert p != "completed" && p != "snoozed";
  }

  // ---------------------------------------------------------------------------
  // Row contents
  // ---------------------------------------------------------------------------

  /** What a row shows besides its title. The client writes both timestamps
      as ISO strings, which are never empty, so a present value is truthy. */
  datatype TaskElement = TaskElement(
    id: string,
    className: string,
    title: string,
    hasControls: bool,
    completedAt: Option<int>,
    countdownUntil: Option<int>)

  /** createTaskElement(task, showControls). */
  function CreateTaskElement(t: Task, showControls: bool): (e: TaskElement)
    ensures e.id == t.id && e.title == t.title
    ensures e.hasControls <==> showControls
    ensures e.completedAt.Some? <==> t.completed && t.completedTimestamp.Some?
    ensures e.completedAt.Some? ==> e.completedAt == t.completedTimestamp
    ensures e.countdownUntil.Some? <==> t.snoozed && t.snoozeUntil.Some?
    ensures e.countdownUntil.Some? ==> e.countdownUntil == t.snoozeUntil
  {
    TaskElement(
      t.id,
      ClassName(t),
      t.title,
      showControls,
      if t.completed then t.completedTimestamp else None,
      if t.snoozed then t.snoozeUntil else None)
  }

  /** renderTasks: one row per task, in the order given. */
  function RenderTasks(tasks: seq<Task>, showControls: bool): (r: seq<TaskElement>)
    ensures |r| == |tasks|
    ensures forall i :: 0 <= i < |r| ==> r[i].id == tasks[i].id && (r[i].hasControls <==> showControls)
  {
    seq(|tasks|, i requires 0 <= i < |tasks| => CreateTaskElement(tasks[i], showControls))
  }

  // ---------------------------------------------------------------------------
  // Snooze countdown
  // ---------------------------------------------------------------------------

  const SecondMs := 1000

  /** What the countdown span says at one tick. */
  datatype Countdown = Expired | Remaining(hours: nat, minutes: nat, seconds: nat)

  function CountdownMs(c: Countdown): nat {
    match c
    case Expired => 0
    case Remaining(h, m, s) => h * TaskActions.HourMs + m * TaskActions.MinuteMs + s * SecondMs
  }

  /** One tick of updateCountdown: the time left until `snoozeUntil`, in
      whole hours, minutes and seconds, or Expired once it is not positive.
      The divisions have positive operands, so JavaScript's Math.floor and
      `%` agree with Dafny's. */
  function CountdownAt(snoozeUntil: int, now: int): (c: Countdown)
    ensures c.Expired? <==> snoozeUntil - now <= 0
    ensures c.Remaining? ==>
      && c.minutes < 60 && c.seconds < 60
      && CountdownMs(c) <= snoozeUntil - now < CountdownMs(c) + SecondMs
  {
    var diff := snoozeUntil - now;
    if diff <= 0 then Expired
    else
      var c := Remaining(diff / TaskActions.HourMs, (diff % TaskActions.HourMs) / TaskActions.MinuteMs,
                         (diff % TaskActions.MinuteMs) / SecondMs);
      CountdownArithmetic(diff);
      c
  }

  lemma CountdownArithmetic(d: nat)
    ensures (d % 3_600_000) / 60_000 < 60
    ensures (d % 60_000) / 1000 < 60
    ensures (d / 3_600_000) * 3_600_000 + ((d % 3_600_000) / 60_000) * 60_000 + ((d % 60_000) / 1000) * 1000 <= d
    ensures d < (d / 3_600_000) * 3_600_000 + ((d % 3_600_000) / 60_000) * 60_000 + ((d % 60_000) / 1000) * 1000 + 1000
  {
    var h := d / 3_600_000;
    var r := d % 3_600_000;
    var m := r / 60_000;
    var r2 := r % 60_000;
    var s := r2 / 1000;
    assert d == h * 3_600_000 + r;
    assert r == m * 60_000 + r2;
    assert d % 60_000 == r2 by {
      assert d == (h * 60 + m) * 60_000 + r2;
    }
    assert r2 == s * 1000 + r2 % 1000;
  }

  /** A countdown's milliseconds are its seconds times a thousand. */
  lemma ClockMs(h: nat, m: nat, s: nat)
    ensures CountdownMs(Remaining(h, m, s)) == (h * 3600 + m * 60 + s) * 1000
  {
  }

  /** Whole seconds are determined by the milliseconds they bracket. */
  lemma WholeSecondsUnique(q: int, q': int, d: int)
    requires q * 1000 <= d < q * 1000 + 1000
    requires q' * 1000 <= d < q' * 1000 + 1000
    ensures q == q'
  {
  }

  /** Hours, minutes below 60 and seconds below 60 are determined by the
      seconds they add up to. */
  lemma ClockSplitUnique(h: nat, m: nat, s: nat, h': nat, m': nat, s': nat)
    requires m < 60 && s < 60 && m' < 60 && s' < 60
    requires h * 3600 + m * 60 + s == h' * 3600 + m' * 60 + s'
    ensures h == h' && m == m' && s == s'
  {
    var mm, mm' := m * 60 + s, m' * 60 + s';
    assert (h * 3600 + mm) / 3600 == h && (h' * 3600 + mm') / 3600 == h';
    assert mm / 60 == m && mm' / 60 == m';
  }

  /** The countdown is the only split into hours, minutes below 60 and
      seconds below 60 that accounts for the remaining time to the second. */
  lemma CountdownUnique(snoozeUntil: int, now: int, h: nat, m: nat, s: nat)
    requires m < 60 && s < 60
    requires snoozeUntil - now > 0
    requires CountdownMs(Remaining(h, m, s)) <= snoozeUntil - now < CountdownMs(Remaining(h, m, s)) + SecondMs
    ensures CountdownAt(snoozeUntil, now) == Remaining(h, m, s)
  {
    var d := snoozeUntil - now;
    var c := CountdownAt(snoozeUntil, now);
    var q := h * 3600 + m * 60 + s;
    var q' := c.hours * 3600 + c.minutes * 60 + c.seconds;
    ClockMs(h, m, s);
    ClockMs(c.hours, c.minutes, c.seconds);
    WholeSecondsUnique(q, q', d);
    ClockSplitUnique(h, m, s, c.hours, c.minutes, c.seconds);
  }

  /** The countdown span's text. */
  function CountdownText(c: Countdown): (r: string)
    ensures c.Expired? <==> r == "(Snoozed)"
  {
    match c
    case Expired => "(Snoozed)"
    case Remaining(h, m, s) =>
      var r := "(Snoozed for " + NatToString(h) + "h " + NatToString(m) + "m " + NatToString(s) + "s)";
      assert r[9] == 'f';
      r
  }

  /** A row has a countdown only for a snoozed task with a wake-up time, and
      its first text is computed from that time. */
  function InitialCountdown(t: Task, now: int): (r: Option<string>)
    ensures r.Some? <==> t.snoozed && t.snoozeUntil.Some?
    ensures r.Some? ==> (r.value == "(Snoozed)" <==> t.snoozeUntil.value <= now)
  {
    match CreateTaskElement(t, false).countdownUntil
    case None => None
    case Some(until) => Some(CountdownText(CountdownAt(until, now)))
  }
}
