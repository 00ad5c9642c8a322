/**
  The goal page (`Goal.tsx`): the normalisations of the AI tasks; an hour
  total with no default, so one missing `taskTime` makes it NaN; a drag that
  reorders the AI reply rather than the task table; and an edit handler that
  converts `taskTime` and `tasktaskPriority` to numbers.

  The page declares two chat effects on the same dependency. The early one
  (lines 314-335) copies the priority from `taskPriority`; the late one
  (lines 635-656) reads it from `tasktaskPriority`. Its `setTasks` is queued
  after the early one's, so the late transform is the one a non-empty table
  keeps. Each chat effect is followed by a fallback (lines 341-345 and
  661-665) that queues the raw reply when the table of that render is empty,
  and the late fallback is queued last of all: a reply arriving at an empty
  table is shown raw, not normalised. `transformTasks` (without `??`
  defaults) is a third normalisation that nothing calls.
*/
module Goal {
  import opened Js
  import opened TaskArrays
  import opened GoalTasks

  /** The record the chat effect builds for the AI task at index `i`. */
  function ChatRecord(task: Obj, i: nat): Obj {
    TaskRecord(task, i, NameOf(task), Coalesce(Get(task, TaskTime), Num(0)), Get(task, TasktaskPriority))
  }

  /** The chat effect: `taskName ?? ""`, `taskTime ?? 0`, priority from `tasktaskPriority`. */
  function ChatToTasks(chat: seq<Obj>): (r: seq<Obj>)
    ensures |r| == |chat| && Normalised(r)
    ensures forall i :: 0 <= i < |r| ==> r[i].Keys == RecordKeys
    ensures forall i :: 0 <= i < |r| ==>
      Get(r[i], Name) == Str(if IsNullish(Get(chat[i], TaskName)) then "" else ToStr(Get(chat[i], TaskName)))
    ensures forall i :: 0 <= i < |r| ==>
      Get(r[i], TaskTime) == if IsNullish(Get(chat[i], TaskTime)) then Num(0) else Get(chat[i], TaskTime)
    ensures forall i :: 0 <= i < |r| ==> Get(r[i], TaskPriority) == Get(chat[i], TasktaskPriority)
  {
    seq(|chat|, i requires 0 <= i < |chat| => ChatRecord(chat[i], i))
  }

  /** The early chat effect: the same record, but the priority is copied from `taskPriority`. */
  function EarlyChatToTasks(chat: seq<Obj>): (r: seq<Obj>)
    ensures |r| == |chat| && Normalised(r)
    ensures forall i :: 0 <= i < |r| ==> r[i].Keys == RecordKeys
    ensures forall i :: 0 <= i < |r| ==> Get(r[i], TaskPriority) == Get(chat[i], TaskPriority)
  {
    seq(|chat|, i requires 0 <= i < |chat| =>
      TaskRecord(chat[i], i, NameOf(chat[i]), Coalesce(Get(chat[i], TaskTime), Num(0)), Get(chat[i], TaskPriority)))
  }

  /**
    The `setTasks` calls queued by the render in which `chatResponse` changes,
    in the order their effects are declared: early chat effect, its fallback,
    late chat effect, its fallback. A fallback queues the raw reply when the
    table of that render is empty.
  */
  function QueuedTables(chat: seq<Obj>, tasks: seq<Obj>): seq<seq<Obj>> {
    var fallback := if chat != [] && tasks == [] then [chat] else [];
    (if chat != [] then [EarlyChatToTasks(chat)] else []) + fallback
      + (if chat != [] then [ChatToTasks(chat)] else []) + fallback
  }

  /**
    The table after that render: the last queued update wins. An empty reply
    leaves the table alone, a reply arriving at an empty table is shown raw,
    and otherwise the late chat transform replaces the table. A raw table
    stays: on the next render it is not empty, so the fallbacks are idle, and
    the chat effects do not run again because the reply has not changed.
  */
  function TableAfterReply(chat: seq<Obj>, tasks: seq<Obj>): (r: seq<Obj>)
    ensures chat == [] ==> r == tasks
    ensures chat != [] && tasks == [] ==> r == chat
    ensures chat != [] && tasks != [] ==> r == ChatToTasks(chat)
  {
    var q := QueuedTables(chat, tasks);
    if q == [] then tasks else q[|q| - 1]
  }

  /** `transformTasks`: the same record, but `taskName` and `taskTime` are copied as they are. */
  function TransformTasks(tasks: seq<Obj>): (r: seq<Obj>)
    ensures |r| == |tasks| && Normalised(r)
    ensures forall i :: 0 <= i < |r| ==> r[i].Keys == RecordKeys
    ensures forall i :: 0 <= i < |r| ==>
      Get(r[i], Name) == Get(tasks[i], TaskName) && Get(r[i], TaskTime) == Get(tasks[i], TaskTime)
    ensures forall i :: 0 <= i < |r| ==> Get(r[i], TaskPriority) == Get(tasks[i], TasktaskPriority)
  {
    seq(|tasks|, i requires 0 <= i < |tasks| =>
      TaskRecord(tasks[i], i, Get(tasks[i], TaskName), Get(tasks[i], TaskTime), Get(tasks[i], TasktaskPriority)))
  }

  /**
    The two normalisations give the same record exactly when the AI task
    has a string `taskName` and a `taskTime` that is neither null nor absent.
  */
  lemma TransformsAgree(chat: seq<Obj>, i: int)
    requires 0 <= i < |chat|
    ensures TransformTasks(chat)[i] == ChatToTasks(chat)[i] <==>
      Get(chat[i], TaskName).Str? && !IsNullish(Get(chat[i], TaskTime))
  {
    var t := chat[i];
    if Get(t, TaskName).Str? && !IsNullish(Get(t, TaskTime)) {
      assert NameOf(t) == Get(t, TaskName);
      assert TransformTasks(chat)[i] == ChatRecord(t, i);
    }
  }

  /**
    `handleDragEnd` reorders `chatResponse`.  The renumbering it does is
    overwritten when the chat effect rebuilds the table from the reply: the
    table is the normalisation of the plainly moved reply.
  */
  lemma DragReordersReply(chat: seq<Obj>, active: Value, over: Value)
    requires !StrictEq(active, over)
    requires FindIndex(chat, active) >= 0 && FindIndex(chat, over) >= 0
    ensures ChatToTasks(MoveAndRenumber(chat, active, over))
         == ChatToTasks(ArrayMove(chat, FindIndex(chat, active), FindIndex(chat, over)))
  {
    var from, to := FindIndex(chat, active), FindIndex(chat, over);
    var dragged, moved := MoveAndRenumber(chat, active, over), ArrayMove(chat, from, to);
    forall k | 0 <= k < |chat| ensures SameButNumbering(dragged[k], moved[k]) {
      MoveAndRenumberAt(chat, active, over, k);
      ArrayMoveAt(chat, from, to, k);
    }
    ChatToTasksIgnoresNumbering(dragged, moved);
  }

  /** Incoming ids and orders are discarded by the chat effect. */
  lemma ChatToTasksIgnoresNumbering(chat: seq<Obj>, other: seq<Obj>)
    requires |chat| == |other|
    requires forall i :: 0 <= i < |chat| ==> SameButNumbering(chat[i], other[i])
    ensures ChatToTasks(chat) == ChatToTasks(other)
  {
    var r, s := ChatToTasks(chat), ChatToTasks(other);
    forall i | 0 <= i < |chat| ensures r[i] == s[i] {
      RecordIgnoresNumbering(chat[i], other[i], i);
    }
  }

  /** After the rebuild, the target's row is built from the dragged AI task. */
  lemma DraggedTaskLands(chat: seq<Obj>, active: Value, over: Value)
    requires !StrictEq(active, over)
    requires FindIndex(chat, active) >= 0 && FindIndex(chat, over) >= 0
    ensures ChatToTasks(MoveAndRenumber(chat, active, over))[FindIndex(chat, over)]
         == ChatRecord(chat[FindIndex(chat, active)], FindIndex(chat, over))
  {
    var from, to := FindIndex(chat, active), FindIndex(chat, over);
    DraggedRow(chat, active, over, to);
    ChatToTasksAt(ArrayMove(chat, from, to), to);
  }

  lemma ChatToTasksAt(chat: seq<Obj>, k: nat)
    requires k < |chat|
    ensures ChatToTasks(chat)[k] == ChatRecord(chat[k], k)
  {
  }

  lemma DraggedRow(chat: seq<Obj>, active: Value, over: Value, k: nat)
    requires !StrictEq(active, over)
    requires FindIndex(chat, active) >= 0 && FindIndex(chat, over) >= 0
    requires k < |chat|
    ensures var from, to := FindIndex(chat, active), FindIndex(chat, over);
      ChatToTasks(MoveAndRenumber(chat, active, over))[k] == ChatToTasks(ArrayMove(chat, from, to))[k]
  {
    var from, to := FindIndex(chat, active), FindIndex(chat, over);
    var dragged, moved := MoveAndRenumber(chat, active, over), ArrayMove(chat, from, to);
    MoveAndRenumberAt(chat, active, over, k);
    ArrayMoveAt(chat, from, to, k);
    RecordIgnoresNumbering(dragged[k], moved[k], k);
    ChatToTasksAt(dragged, k);
    ChatToTasksAt(moved, k);
  }

  lemma RecordIgnoresNumbering(a: Obj, b: Obj, i: nat)
    requires SameButNumbering(a, b)
    ensures ChatRecord(a, i) == ChatRecord(b, i)
  {
    assert Get(a, TaskName) == Get(b, TaskName) && Get(a, TaskTime) == Get(b, TaskTime);
    assert Get(a, TasktaskPriority) == Get(b, TasktaskPriority);
    TaskRecordIgnoresNumbering(a, b, i, NameOf(a), Coalesce(Get(a, TaskTime), Num(0)), Get(a, TasktaskPriority));
  }

  /** `parsedChatResponse.reduce((sum, task) => sum + task.taskTime, 0)` */
  function TotalTime(tasks: seq<Obj>): (r: Value)
    ensures r.Str? <==> SomeTimeText(tasks)
    ensures !r.Str? ==> r.Num? || r.NaN?
    decreases |tasks|
  {
    if tasks == [] then Num(0)
    else
      SomeTimeTextSnoc(tasks);
      Add(TotalTime(tasks[..|tasks| - 1]), Get(tasks[|tasks| - 1], TaskTime))
  }

  /** Some task has no `taskTime` at all. */
  predicate SomeTimeMissing(tasks: seq<Obj>) {
    exists i :: 0 <= i < |tasks| && Get(tasks[i], TaskTime).Undefined?
  }

  /**
    With numeric, null or absent hours: the total is the sum (null adding 0)
    when no `taskTime` is absent, and NaN as soon as one is.
  */
  lemma {:induction false} TotalTimeCases(tasks: seq<Obj>)
    requires NumericTimes(tasks)
    ensures !SomeTimeMissing(tasks) ==> TotalTime(tasks) == Num(TotalHours(tasks))
    ensures SomeTimeMissing(tasks) ==> TotalTime(tasks).NaN?
    decreases |tasks|
  {
    if tasks != [] {
      var n := |tasks|;
      var prefix, last := tasks[..n - 1], tasks[n - 1];
      assert NumericTimes(prefix) by {
        forall i | 0 <= i < |prefix| ensures Get(prefix[i], TaskTime).Num? || IsNullish(Get(prefix[i], TaskTime)) {
          assert prefix[i] == tasks[i];
        }
      }
      TotalTimeCases(prefix);
      assert Get(last, TaskTime).Num? || IsNullish(Get(last, TaskTime));
      if SomeTimeMissing(prefix) {
        var i :| 0 <= i < |prefix| && Get(prefix[i], TaskTime).Undefined?;
        assert tasks[i] == prefix[i];
      } else if Get(last, TaskTime).Undefined? {
        assert SomeTimeMissing(tasks);
      } else {
        forall i | 0 <= i < n ensures !Get(tasks[i], TaskTime).Undefined? {
          if i < n - 1 {
            assert tasks[i] == prefix[i];
          }
        }
      }
    }
  }

  /**
    The table the chat effect builds never lacks hours, so a total taken over
    the table would be the sum of the reply's hours, missing ones counting 0.
    The page takes its total over the raw reply instead (`TotalTimeCases`).
  */
  lemma TotalTimeAfterTransform(chat: seq<Obj>)
    requires NumericTimes(chat)
    ensures TotalTime(ChatToTasks(chat)) == Num(TotalHours(chat))
  {
    var table := ChatToTasks(chat);
    forall i | 0 <= i < |table| ensures Get(table[i], TaskTime).Num? && HoursOf(table[i]) == HoursOf(chat[i]) {
      RowHours(chat, i);
    }
    assert NumericTimes(table);
    assert !SomeTimeMissing(table);
    TotalTimeCases(table);
    TotalHoursPointwise(table, chat);
  }

  /**
    The page's total and a total over its table differ: one AI task without
    `taskTime` makes the page's total NaN, while the table shows it with 0 hours.
  */
  lemma TotalTimeRawVersusTable(t: Obj)
    requires TaskTime !in t
    ensures TotalTime([t]).NaN?
    ensures TotalTime(ChatToTasks([t])) == Num(0)
  {
    assert [t][0] == t && Get([t][0], TaskTime).Undefined?;
    assert NumericTimes([t]) && SomeTimeMissing([t]);
    TotalTimeCases([t]);
    TotalTimeAfterTransform([t]);
    assert TotalHours([t]) == TotalHours([t][..0]) + HoursOf(t);
  }

  /** A row of the table has numeric hours, the reply's own or 0 for a missing one. */
  lemma RowHours(chat: seq<Obj>, i: int)
    requires NumericTimes(chat) && 0 <= i < |chat|
    ensures Get(ChatToTasks(chat)[i], TaskTime).Num?
    ensures HoursOf(ChatToTasks(chat)[i]) == HoursOf(chat[i])
  {
    assert Get(chat[i], TaskTime).Num? || IsNullish(Get(chat[i], TaskTime));
  }

  /** `handleChange`: `taskTime` and `tasktaskPriority` are converted with `Number`. */
  function Edit(edited: Option<Obj>, field: Prop, text: string): (r: Option<Obj>)
    ensures edited.None? ==> r.None?
    ensures edited.Some? ==> r.Some? && forall p :: p != field ==> Get(r.value, p) == Get(edited.value, p)
    ensures edited.Some? && (field == TaskTime || field == TasktaskPriority) ==>
      Get(r.value, field) == ParseNumber(text)
    ensures edited.Some? && field != TaskTime && field != TasktaskPriority ==>
      Get(r.value, field) == Str(text)
  {
    EditField(edited, field, text, {TaskTime, TasktaskPriority})
  }

  /** The priority picked in the row editor is stored as a number; names stay text. */
  lemma EditorPriorityIsNumber(t: Obj, n: int)
    ensures Edit(Some(t), TasktaskPriority, IntToString(n)) == Some(With(t, TasktaskPriority, Num(n)))
    ensures Edit(Some(t), TaskName, IntToString(n)) == Some(With(t, TaskName, Str(IntToString(n))))
  {
    EditNumericRoundTrip(t, TasktaskPriority, n, {TaskTime, TasktaskPriority});
  }
}
