/**
  What the two goal pages share: the record each AI task is normalised to,
  the hour total, the edit of the task being edited, and the
  update-by-id and delete-by-id handlers, which convert the id argument with
  `Number(id)` before comparing.
*/
module GoalTasks {
  import opened Js
  import opened TaskArrays

  /** The keys of a normalised task record (timestamps aside). */
  const RecordKeys: set<Prop> := {
    Id, Name, TaskTime, TaskPriority, Order, UserId, GoalId, Description,
    ElapsedTime, ReviewInterval, RepetitionCount, LastNotificationSent
  }

  /**
    The record the chat transforms build for the AI task at index `i`.  The
    pages differ in how they compute the name, the hours and the priority,
    which are given here; the rest is common: `id` and `order` are `i + 1`,
    four fields are copied, and `reviewInterval`, `repetitionCount` and
    `lastNotificationSent` fall back to 0, 0 and null when falsy.
  */
  function TaskRecord(task: Obj, i: nat, name: Value, time: Value, priority: Value): (r: Obj)
    ensures forall p :: p in r <==> p in RecordKeys
    ensures Get(r, Id) == Num(i + 1) && Get(r, Order) == Num(i + 1)
    ensures Get(r, Name) == name && Get(r, TaskTime) == time && Get(r, TaskPriority) == priority
    ensures forall p :: p in {UserId, GoalId, Description, ElapsedTime} ==> Get(r, p) == Get(task, p)
    ensures forall p :: p in {ReviewInterval, RepetitionCount} ==>
      Get(r, p) == if Truthy(Get(task, p)) then Get(task, p) else Num(0)
    ensures Get(r, LastNotificationSent) == if Truthy(Get(task, LastNotificationSent)) then Get(task, LastNotificationSent) else Null
  {
    map[
      Id := Num(i + 1), Name := name, TaskTime := time, TaskPriority := priority, Order := Num(i + 1),
      UserId := Get(task, UserId), GoalId := Get(task, GoalId), Description := Get(task, Description),
      ElapsedTime := Get(task, ElapsedTime),
      ReviewInterval := Or(Get(task, ReviewInterval), Num(0)),
      RepetitionCount := Or(Get(task, RepetitionCount), Num(0)),
      LastNotificationSent := Or(Get(task, LastNotificationSent), Null)]
  }

  /** The name the chat transforms give: `String(task.taskName ?? "")`. */
  function NameOf(task: Obj): (name: Value)
    ensures name == Str(if IsNullish(Get(task, TaskName)) then "" else ToStr(Get(task, TaskName)))
  {
    Str(ToStr(Coalesce(Get(task, TaskName), Str(""))))
  }

  /** Two AI tasks that differ at most in `id` and `order`. */
  predicate SameButNumbering(a: Obj, b: Obj) {
    forall p :: p != Id && p != Order ==> Get(a, p) == Get(b, p)
  }

  /** The record ignores the incoming `id` and `order`. */
  lemma TaskRecordIgnoresNumbering(a: Obj, b: Obj, i: nat, name: Value, time: Value, priority: Value)
    requires SameButNumbering(a, b)
    ensures TaskRecord(a, i, name, time, priority) == TaskRecord(b, i, name, time, priority)
  {
    var r1, r2 := TaskRecord(a, i, name, time, priority), TaskRecord(b, i, name, time, priority);
    forall p | p in RecordKeys ensures r1[p] == r2[p] {
      assert Get(r1, p) == Get(r2, p);
    }
    assert r1.Keys == r2.Keys;
  }

  /** Every task is numbered by position in both `id` and `order`. */
  predicate Normalised(tasks: seq<Obj>) {
    forall i :: 0 <= i < |tasks| ==> Get(tasks[i], Id) == Num(i + 1) && Get(tasks[i], Order) == Num(i + 1)
  }

  /**
    A normalised list has the ids 1..N, each found at its position, and
    renumbering it changes nothing.
  */
  lemma NormalisedIds(tasks: seq<Obj>, k: int)
    requires Normalised(tasks) && 1 <= k <= |tasks|
    ensures FindIndex(tasks, Num(k)) == k - 1
  {
    assert StrictEq(Get(tasks[k - 1], Id), Num(k));
  }

  lemma NormalisedRenumbered(tasks: seq<Obj>)
    requires Normalised(tasks)
    ensures Numbered(tasks) && Renumber(tasks) == tasks
  {
    var r := Renumber(tasks);
    forall i | 0 <= i < |tasks| ensures r[i] == tasks[i] {
      assert r[i] == With(tasks[i], Order, Num(i + 1));
    }
  }

  /**
    A drag between two rows of a normalised table always finds both rows
    (findIndex cannot return -1), lands the dragged task at the target's
    position and leaves the orders 1..N.
  */
  lemma DragNormalised(tasks: seq<Obj>, a: int, o: int)
    requires Normalised(tasks) && 1 <= a <= |tasks| && 1 <= o <= |tasks| && a != o
    ensures FindIndex(tasks, Num(a)) == a - 1 && FindIndex(tasks, Num(o)) == o - 1
    ensures var r := MoveAndRenumber(tasks, Num(a), Num(o));
      Numbered(r) && r[o - 1] == With(tasks[a - 1], Order, Num(o))
  {
    NormalisedIds(tasks, a);
    NormalisedIds(tasks, o);
    assert !StrictEq(Num(a), Num(o));
    MoveAndRenumberMovesTask(tasks, Num(a), Num(o), a - 1, o - 1);
  }

  // ---------------------------------------------------------------------
  // Hour totals

  /** The hours of one task: a number counts as itself, anything else as 0. */
  function HoursOf(t: Obj): int {
    match Get(t, TaskTime)
    case Num(n) => n
    case _ => 0
  }

  /** The total the hour sums are meant to compute. */
  function TotalHours(tasks: seq<Obj>): int
    decreases |tasks|
  {
    if tasks == [] then 0 else TotalHours(tasks[..|tasks| - 1]) + HoursOf(tasks[|tasks| - 1])
  }

  /** Some task's `taskTime` is a string, which turns a `+` sum into concatenation. */
  predicate SomeTimeText(tasks: seq<Obj>) {
    exists i :: 0 <= i < |tasks| && Get(tasks[i], TaskTime).Str?
  }

  /** A list has a text `taskTime` exactly when its front or its last task has one. */
  lemma SomeTimeTextSnoc(tasks: seq<Obj>)
    requires tasks != []
    ensures SomeTimeText(tasks) <==>
      SomeTimeText(tasks[..|tasks| - 1]) || Get(tasks[|tasks| - 1], TaskTime).Str?
  {
    var prefix := tasks[..|tasks| - 1];
    if SomeTimeText(prefix) {
      var i :| 0 <= i < |prefix| && Get(prefix[i], TaskTime).Str?;
      assert tasks[i] == prefix[i];
    }
    if SomeTimeText(tasks) {
      var i :| 0 <= i < |tasks| && Get(tasks[i], TaskTime).Str?;
      if i < |prefix| {
        assert tasks[i] == prefix[i];
      }
    }
  }

  /** Every `taskTime` is a number, null or absent. */
  predicate NumericTimes(tasks: seq<Obj>) {
    forall i :: 0 <= i < |tasks| ==> Get(tasks[i], TaskTime).Num? || IsNullish(Get(tasks[i], TaskTime))
  }

  /** Lists whose tasks count the same hours, position by position, have the same total. */
  lemma {:induction false} TotalHoursPointwise(a: seq<Obj>, b: seq<Obj>)
    requires |a| == |b|
    requires forall i :: 0 <= i < |a| ==> HoursOf(a[i]) == HoursOf(b[i])
    ensures TotalHours(a) == TotalHours(b)
    decreases |a|
  {
    if a != [] {
      var n := |a|;
      TotalHoursPointwise(a[..n - 1], b[..n - 1]);
      assert HoursOf(a[n - 1]) == HoursOf(b[n - 1]);
    }
  }

  lemma {:induction false} TotalHoursNonNegative(tasks: seq<Obj>)
    requires forall i :: 0 <= i < |tasks| ==> HoursOf(tasks[i]) >= 0
    ensures TotalHours(tasks) >= 0
    decreases |tasks|
  {
    if tasks != [] {
      TotalHoursNonNegative(tasks[..|tasks| - 1]);
      assert HoursOf(tasks[|tasks| - 1]) >= 0;
    }
  }

  // ---------------------------------------------------------------------
  // Edits

  /**
    `handleChange(e, field)`: when a task is being edited, set `field` to the
    input's text, converted with `Number` for the fields in `numeric`.
  */
  function EditField(edited: Option<Obj>, field: Prop, text: string, numeric: set<Prop>): (r: Option<Obj>)
    ensures edited.None? ==> r.None?
    ensures edited.Some? ==> r.Some? && r.value.Keys == edited.value.Keys + {field}
    ensures edited.Some? ==> forall p :: p != field ==> Get(r.value, p) == Get(edited.value, p)
    ensures edited.Some? && field in numeric ==> Get(r.value, field) == ToNumber(Str(text))
    ensures edited.Some? && field !in numeric ==> Get(r.value, field) == Str(text)
  {
    match edited
    case None => None
    case Some(t) => Some(t[field := if field in numeric then ToNumber(Str(text)) else Str(text)])
  }

  /** Typing the decimal form of `n` into a numeric field stores the number `n`. */
  lemma EditNumericRoundTrip(t: Obj, field: Prop, n: int, numeric: set<Prop>)
    requires field in numeric
    ensures EditField(Some(t), field, IntToString(n), numeric) == Some(With(t, field, Num(n)))
  {
    NumberOfString(n);
  }

  // ---------------------------------------------------------------------
  // Update and delete by id

  /**
    `prevTasks.map(task => task.id === Number(id) ? { ...task, ...updatedTask } : task)`
  */
  function UpdateById(tasks: seq<Obj>, id: Value, updated: Obj): (r: seq<Obj>)
    ensures |r| == |tasks|
    ensures forall i :: 0 <= i < |tasks| ==>
      r[i] == if StrictEq(Get(tasks[i], Id), ToNumber(id)) then Spread(tasks[i], updated) else tasks[i]
  {
    ReplaceMatching(tasks, ToNumber(id), updated)
  }

  /** `tasks.filter(task => task.id !== Number(id))` */
  function DeleteById(tasks: seq<Obj>, id: Value): (r: seq<Obj>)
    ensures |r| <= |tasks|
    ensures forall i :: 0 <= i < |r| ==> !StrictEq(Get(r[i], Id), ToNumber(id))
  {
    RemoveMatching(tasks, ToNumber(id))
  }

  /**
    The id may arrive as its decimal string: `"7"` updates exactly the tasks
    whose id is the number 7, and a non-numeric id updates nothing.
  */
  lemma UpdateByRenderedId(tasks: seq<Obj>, n: int, updated: Obj)
    ensures UpdateById(tasks, Str(IntToString(n)), updated) == UpdateById(tasks, Num(n), updated)
  {
    NumberOfString(n);
  }

  lemma UpdateByNonNumericId(tasks: seq<Obj>, s: string, updated: Obj)
    requires ParseNumber(s).NaN?
    ensures UpdateById(tasks, Str(s), updated) == tasks
  {
  }

  /** Deleting by `"7"` drops exactly the tasks with id 7 and keeps every other task as often as it occurs. */
  lemma DeleteByRenderedId(tasks: seq<Obj>, n: int, t: Obj)
    ensures multiset(DeleteById(tasks, Str(IntToString(n))))[t] ==
      if Get(t, Id) == Num(n) then 0 else multiset(tasks)[t]
  {
    NumberOfString(n);
    RemoveMatchingCount(tasks, Num(n), t);
  }

  /** Deleting an id that no task has leaves the list as it is; the others are not renumbered. */
  lemma DeleteAbsentId(tasks: seq<Obj>, id: Value)
    requires FindIndex(tasks, ToNumber(id)) == -1
    ensures DeleteById(tasks, id) == tasks
  {
    RemoveMatchingNone(tasks, ToNumber(id));
  }
}
