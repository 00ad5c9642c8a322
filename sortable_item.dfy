/**
  The cells of one row of the sortable task table (`SortableItem.tsx`):
  whether the row is being edited, the order, name, duration and priority
  cells, and the values shown in the row editor.
*/
module SortableItem {
  import opened Js
  import opened TaskArrays
  import opened GoalTasks
  import TaskList
  import GoalBk
  import Goal

  /** `task.id != null && editingId === task.id.toString()` */
  predicate IsEditing(task: Obj, editingId: Option<string>)
    ensures IsEditing(task, editingId) ==> editingId.Some? && !IsNullish(Get(task, Id))
    ensures Get(task, Id).Str? ==> (IsEditing(task, editingId) <==> editingId == Some(Get(task, Id).s))
  {
    !IsNullish(Get(task, Id)) && editingId == Some(ToStr(Get(task, Id)))
  }

  lemma NumeralShape(n: int)
    ensures |IntToString(n)| > 0
    ensures IntToString(n)[0] == '-' || IsDigit(IntToString(n)[0])
  {
    NatToStringDigits(if n < 0 then -n else n);
  }

  /**
    With the editing id set from a numeric id `n` (as `handleEdit` does), a
    row is in editing mode exactly when its id is the number `n` or the
    string of its digits.
  */
  lemma EditingRows(task: Obj, n: int)
    ensures IsEditing(task, Some(IntToString(n))) <==>
      Get(task, Id) == Num(n) || Get(task, Id) == Str(IntToString(n))
  {
    NumeralShape(n);
    match Get(task, Id)
    case Num(m) =>
      IntToStringInjective(m, n);
    case NaN =>
      assert ToStr(NaN)[0] == 'N';
    case _ =>
  }

  /** In a table numbered 1..N, editing id `k` selects exactly row `k - 1`. */
  lemma OneEditingRow(tasks: seq<Obj>, k: int, i: int)
    requires Normalised(tasks) && 0 <= i < |tasks|
    ensures IsEditing(tasks[i], Some(IntToString(k))) <==> i == k - 1
  {
    EditingRows(tasks[i], k);
  }

  /** `task.order != null ? task.order.toString() : (index + 1).toString()` */
  function OrderCell(task: Obj, index: nat): (cell: string)
    ensures IsNullish(Get(task, Order)) ==> cell == IntToString(index + 1)
    ensures !IsNullish(Get(task, Order)) ==> cell == ToStr(Get(task, Order))
  {
    if !IsNullish(Get(task, Order)) then ToStr(Get(task, Order)) else IntToString(index + 1)
  }

  /** A renumbered table shows its positions 1..N, and distinct rows show distinct numbers. */
  lemma OrderCellsNumbered(tasks: seq<Obj>, i: int, j: int)
    requires Numbered(tasks) && 0 <= i < |tasks| && 0 <= j < |tasks|
    ensures OrderCell(tasks[i], i) == IntToString(i + 1)
    ensures i != j ==> OrderCell(tasks[i], i) != OrderCell(tasks[j], j)
  {
    IntToStringInjective(i + 1, j + 1);
  }

  /**
    The local drag of the task list page does not renumber: the dragged row
    shows its old order number at its new position.
  */
  lemma OrderCellAfterLocalDrag(items: seq<Obj>, active: Value, over: Value)
    requires !StrictEq(active, over)
    requires FindIndex(items, active) >= 0 && FindIndex(items, over) >= 0
    requires !IsNullish(Get(items[FindIndex(items, active)], Order))
    ensures var from, to := FindIndex(items, active), FindIndex(items, over);
      OrderCell(TaskList.DragEnd(items, active, over)[to], to) == OrderCell(items[from], from)
  {
  }

  /** `task.taskName || task.name` */
  function NameCell(task: Obj): (cell: Value)
    ensures Truthy(Get(task, TaskName)) ==> cell == Get(task, TaskName)
    ensures !Truthy(Get(task, TaskName)) ==> cell == Get(task, Name)
  {
    Or(Get(task, TaskName), Get(task, Name))
  }

  /** A normalised row has no `taskName`, so its cell shows the name the transform gave it. */
  lemma NameCellOfNormalised(chat: seq<Obj>, i: int)
    requires 0 <= i < |chat|
    ensures NameCell(GoalBk.ChatToTasks(chat)[i]) == NameOf(chat[i])
    ensures NameCell(Goal.ChatToTasks(chat)[i]) == NameOf(chat[i])
  {
    var r1, r2 := GoalBk.ChatToTasks(chat)[i], Goal.ChatToTasks(chat)[i];
    assert TaskName !in r1.Keys && TaskName !in r2.Keys;
  }

  /** `task.taskTime != null ? task.taskTime.toString() : "0"` */
  function DurationCell(task: Obj): (cell: string)
    ensures IsNullish(Get(task, TaskTime)) ==> cell == "0"
    ensures !IsNullish(Get(task, TaskTime)) ==> cell == ToStr(Get(task, TaskTime))
  {
    if !IsNullish(Get(task, TaskTime)) then ToStr(Get(task, TaskTime)) else "0"
  }

  /** Reading the duration cell back as a number gives the task's hours, a missing one as 0. */
  lemma DurationCellReadsBack(task: Obj)
    requires Get(task, TaskTime).Num? || IsNullish(Get(task, TaskTime))
    ensures ParseNumber(DurationCell(task)) == Num(HoursOf(task))
  {
    if Get(task, TaskTime).Num? {
      NumberOfString(Get(task, TaskTime).n);
    } else {
      NumberOfString(0);
      assert IntToString(0) == "0";
    }
  }

  /** The duration editor's value: `editedTask?.taskTime?.toString() || ""`. */
  function DurationEditorValue(edited: Option<Obj>): (value: string)
    ensures edited.None? || IsNullish(Get(edited.value, TaskTime)) ==> value == ""
    ensures edited.Some? && Get(edited.value, TaskTime).Num? ==> value == IntToString(Get(edited.value, TaskTime).n)
    ensures edited.Some? && !IsNullish(Get(edited.value, TaskTime)) ==> value == ToStr(Get(edited.value, TaskTime))
  {
    if edited.None? || IsNullish(Get(edited.value, TaskTime)) then ""
    else
      var v := Get(edited.value, TaskTime);
      if v.Num? then
        NatToStringDigits(if v.n < 0 then -v.n else v.n);
        IntToString(v.n)
      else if ToStr(v) != "" then ToStr(v) else ""
  }

  /** Leaving the hours input as shown and firing its change handler does not change the task. */
  lemma DurationEditIsStable(t: Obj, n: int)
    requires Get(t, TaskTime) == Num(n)
    ensures GoalBk.Edit(Some(t), TaskTime, DurationEditorValue(Some(t))) == Some(t)
    ensures Goal.Edit(Some(t), TaskTime, DurationEditorValue(Some(t))) == Some(t)
  {
    NumberOfString(n);
    assert t[TaskTime := Num(n)] == t;
  }

  /** The priority cell: 低 for `tasktaskPriority === 1`, 中 for `=== 2`, 高 otherwise. */
  function PriorityLabel(task: Obj): (shown: string)
    ensures StrictEq(Get(task, TasktaskPriority), Num(1)) <==> shown == "低"
    ensures StrictEq(Get(task, TasktaskPriority), Num(2)) <==> shown == "中"
    ensures shown == "低" || shown == "中" || shown == "高"
  {
    if StrictEq(Get(task, TasktaskPriority), Num(1)) then "低"
    else if StrictEq(Get(task, TasktaskPriority), Num(2)) then "中"
    else "高"
  }

  /** The priority editor's value: `String(editedTask?.tasktaskPriority || 1)`. */
  function PriorityEditorValue(edited: Option<Obj>): (value: string)
    ensures edited.None? ==> value == "1"
    ensures edited.Some? && !Truthy(Get(edited.value, TasktaskPriority)) ==> value == "1"
    ensures edited.Some? && Truthy(Get(edited.value, TasktaskPriority)) ==> value == ToStr(Get(edited.value, TasktaskPriority))
  {
    ToStr(Or(if edited.Some? then Get(edited.value, TasktaskPriority) else Undefined, Num(1)))
  }

  /**
    On the goal page, picking option `v` in the priority editor shows `v`
    in the editor and the matching label for the edited record.
  */
  lemma PickPriority(t: Obj, v: int)
    requires 1 <= v <= 3
    ensures var e := Goal.Edit(Some(t), TasktaskPriority, IntToString(v));
      PriorityEditorValue(e) == IntToString(v)
      && PriorityLabel(e.value) == (if v == 1 then "低" else if v == 2 then "中" else "高")
  {
    Goal.EditorPriorityIsNumber(t, v);
  }

  /**
    On the earlier goal page the picked option stays text, which the label's
    `=== 1` and `=== 2` never match.
  */
  lemma PickPriorityAsText(t: Obj, s: string)
    ensures PriorityLabel(GoalBk.Edit(Some(t), TasktaskPriority, s).value) == "高"
  {
  }

  /**
    The chat transforms store the priority under `taskPriority`, which the
    cell does not read: every freshly normalised row shows 高.
  */
  lemma NormalisedRowsShowHigh(chat: seq<Obj>, i: int)
    requires 0 <= i < |chat|
    ensures PriorityLabel(GoalBk.ChatToTasks(chat)[i]) == "高"
    ensures PriorityLabel(Goal.ChatToTasks(chat)[i]) == "高"
  {
    var r1, r2 := GoalBk.ChatToTasks(chat)[i], Goal.ChatToTasks(chat)[i];
    assert TasktaskPriority !in RecordKeys;
    assert r1.Keys == RecordKeys && r2.Keys == RecordKeys;
    assert Get(r1, TasktaskPriority) == Undefined && Get(r2, TasktaskPriority) == Undefined;
  }
}
