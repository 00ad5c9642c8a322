/**
  The earlier goal page (`Goal_bk.tsx`): the AI tasks are normalised into the
  task table with `taskName ?? ""`, `taskTime ?? 0` and `taskPriority`
  copied; the hour total defaults a missing `taskTime` to 0; a drag reorders
  and renumbers the task table; the edit handler converts `taskTime` and
  `taskPriority` to numbers.
*/
module GoalBk {
  import opened Js
  import opened TaskArrays
  import opened GoalTasks

  /** The chat transform: one normalised record per AI task, in the same order. */
  function ChatToTasks(chat: seq<Obj>): (r: seq<Obj>)
    ensures |r| == |chat| && Normalised(r)
    ensures forall i :: 0 <= i < |r| ==> r[i].Keys == RecordKeys
    ensures forall i :: 0 <= i < |r| ==>
      Get(r[i], Name) == Str(if IsNullish(Get(chat[i], TaskName)) then "" else ToStr(Get(chat[i], TaskName)))
    ensures forall i :: 0 <= i < |r| ==>
      Get(r[i], TaskTime) == if IsNullish(Get(chat[i], TaskTime)) then Num(0) else Get(chat[i], TaskTime)
    ensures forall i :: 0 <= i < |r| ==> Get(r[i], TaskPriority) == Get(chat[i], TaskPriority)
  {
    seq(|chat|, i requires 0 <= i < |chat| =>
      TaskRecord(chat[i], i, NameOf(chat[i]), Coalesce(Get(chat[i], TaskTime), Num(0)), Get(chat[i], TaskPriority)))
  }

  /**
    Incoming ids and orders are discarded: two replies that agree on every
    other field, position by position, give the same task table.
  */
  lemma ChatToTasksIgnoresNumbering(chat: seq<Obj>, other: seq<Obj>)
    requires |chat| == |other|
    requires forall i :: 0 <= i < |chat| ==> SameButNumbering(chat[i], other[i])
    ensures ChatToTasks(chat) == ChatToTasks(other)
  {
    var r, s := ChatToTasks(chat), ChatToTasks(other);
    forall i | 0 <= i < |chat| ensures r[i] == s[i] {
      RecordIgnoresNumbering(chat[i], other[i], i);
    }
  }

  lemma RecordIgnoresNumbering(a: Obj, b: Obj, i: nat)
    requires SameButNumbering(a, b)
    ensures TaskRecord(a, i, NameOf(a), Coalesce(Get(a, TaskTime), Num(0)), Get(a, TaskPriority))
         == TaskRecord(b, i, NameOf(b), Coalesce(Get(b, TaskTime), Num(0)), Get(b, TaskPriority))
  {
    assert Get(a, TaskName) == Get(b, TaskName) && Get(a, TaskTime) == Get(b, TaskTime);
    assert Get(a, TaskPriority) == Get(b, TaskPriority);
    TaskRecordIgnoresNumbering(a, b, i, NameOf(a), Coalesce(Get(a, TaskTime), Num(0)), Get(a, TaskPriority));
  }

  /**
    `handleDragEnd` on the table the transform built: both dragged ids are
    found, the dragged task lands on the target's row and the orders stay 1..N.
  */
  lemma DragAfterTransform(chat: seq<Obj>, a: int, o: int)
    requires 1 <= a <= |chat| && 1 <= o <= |chat| && a != o
    ensures var tasks := ChatToTasks(chat);
      FindIndex(tasks, Num(a)) == a - 1 && FindIndex(tasks, Num(o)) == o - 1
      && Numbered(MoveAndRenumber(tasks, Num(a), Num(o)))
      && MoveAndRenumber(tasks, Num(a), Num(o))[o - 1] == With(tasks[a - 1], Order, Num(o))
  {
    DragNormalised(ChatToTasks(chat), a, o);
  }

  /** `parsedChatResponse.reduce((sum, task) => sum + (task.taskTime ?? 0), 0)` */
  function TotalTime(tasks: seq<Obj>): (r: Value)
    ensures r.Str? <==> SomeTimeText(tasks)
    ensures !r.Str? ==> r.Num? || r.NaN?
    decreases |tasks|
  {
    if tasks == [] then Num(0)
    else
      SomeTimeTextSnoc(tasks);
      Add(TotalTime(tasks[..|tasks| - 1]), Coalesce(Get(tasks[|tasks| - 1], TaskTime), Num(0)))
  }

  /** With numeric or missing hours, the total is their sum, a missing one counting 0. */
  lemma {:induction false} TotalTimeIsSum(tasks: seq<Obj>)
    requires NumericTimes(tasks)
    ensures TotalTime(tasks) == Num(TotalHours(tasks))
    decreases |tasks|
  {
    if tasks != [] {
      var n := |tasks|;
      var prefix := tasks[..n - 1];
      assert NumericTimes(prefix) by {
        forall i | 0 <= i < |prefix| ensures Get(prefix[i], TaskTime).Num? || IsNullish(Get(prefix[i], TaskTime)) {
          assert prefix[i] == tasks[i];
        }
      }
      TotalTimeIsSum(prefix);
      assert Get(tasks[n - 1], TaskTime).Num? || IsNullish(Get(tasks[n - 1], TaskTime));
    }
  }

  /** Non-negative hours give a non-negative total. */
  lemma TotalTimeNonNegative(tasks: seq<Obj>)
    requires NumericTimes(tasks)
    requires forall i :: 0 <= i < |tasks| ==> HoursOf(tasks[i]) >= 0
    ensures TotalTime(tasks).Num? && TotalTime(tasks).n >= 0
  {
    TotalTimeIsSum(tasks);
    TotalHoursNonNegative(tasks);
  }

  /** `handleChange`: `taskTime` and `taskPriority` are converted with `Number`. */
  function Edit(edited: Option<Obj>, field: Prop, text: string): (r: Option<Obj>)
    ensures edited.None? ==> r.None?
    ensures edited.Some? ==> r.Some? && forall p :: p != field ==> Get(r.value, p) == Get(edited.value, p)
    ensures edited.Some? && (field == TaskTime || field == TaskPriority) ==>
      Get(r.value, field) == ParseNumber(text)
    ensures edited.Some? && field != TaskTime && field != TaskPriority ==>
      Get(r.value, field) == Str(text)
  {
    EditField(edited, field, text, {TaskTime, TaskPriority})
  }

  /**
    The row editor reports its priority under `tasktaskPriority`, which this
    handler does not convert: picking 中 stores the text "2", while typing an
    hour count stores the number.
  */
  lemma EditorPriorityStaysText(t: Obj, n: int)
    ensures Edit(Some(t), TasktaskPriority, IntToString(n)) == Some(With(t, TasktaskPriority, Str(IntToString(n))))
    ensures Edit(Some(t), TaskTime, IntToString(n)) == Some(With(t, TaskTime, Num(n)))
  {
    EditNumericRoundTrip(t, TaskTime, n, {TaskTime, TaskPriority});
  }
}
