/**
  The task table of `TaskList.tsx`: merging the stored tasks with the ones
  proposed by the assistant, the column sort, the save payload, the tasks
  handed to the schedule, the local drag reorder and the edit handlers.
*/
module TaskList {
  import opened Js
  import opened Sorting
  import opened TaskArrays

  function IdOf(t: Obj): Value {
    Get(t, Id)
  }

  // ---------------------------------------------------------------------
  // combinedTasks

  /** `{ ...current, goalId: current.goal_id }` */
  function Tag(t: Obj): (r: Obj)
    ensures Get(r, GoalId) == Get(t, Goal_id)
    ensures forall p :: p != GoalId ==> Get(r, p) == Get(t, p)
  {
    With(t, GoalId, Get(t, Goal_id))
  }

  /**
    `{ ...item, ...current, goalId: current.goal_id }`: the fields of the later
    record win, and `goalId` is the later record's `goal_id`.
  */
  function Absorb(item: Obj, current: Obj): (r: Obj)
    ensures Get(r, GoalId) == Get(current, Goal_id)
    ensures forall p :: p != GoalId && p in current ==> Get(r, p) == current[p]
    ensures forall p :: p != GoalId && p !in current ==> Get(r, p) == Get(item, p)
  {
    With(Spread(item, current), GoalId, Get(current, Goal_id))
  }

  /** `acc.find(item => item.id === id)` finds a record (records are always truthy). */
  predicate Listed(acc: seq<Obj>, id: Value) {
    exists i :: 0 <= i < |acc| && StrictEq(IdOf(acc[i]), id)
  }

  /** One step of the `reduce`: append a new id, or merge `current` into every record with its id. */
  function Reconcile(acc: seq<Obj>, current: Obj): (r: seq<Obj>)
    ensures !Listed(acc, IdOf(current)) ==> r == acc + [Tag(current)]
    ensures Listed(acc, IdOf(current)) ==> |r| == |acc| && forall i :: 0 <= i < |acc| ==>
      r[i] == if StrictEq(IdOf(acc[i]), IdOf(current)) then Absorb(acc[i], current) else acc[i]
  {
    if !Listed(acc, IdOf(current)) then
      acc + [Tag(current)]
    else
      seq(|acc|, i requires 0 <= i < |acc| =>
        if StrictEq(IdOf(acc[i]), IdOf(current)) then Absorb(acc[i], current) else acc[i])
  }

  /** `allTasks.reduce(Reconcile, [])` */
  function Reduce(all: seq<Obj>): (r: seq<Obj>)
    ensures |r| <= |all|
    ensures all != [] ==> |r| > 0
    decreases |all|
  {
    if all == [] then [] else Reconcile(Reduce(all[..|all| - 1]), all[|all| - 1])
  }

  /** `combinedTasks`: the stored tasks followed by the proposed ones, merged by id. */
  function CombineTasks(existingTasks: seq<Obj>, chatResponse: seq<Obj>): (r: seq<Obj>)
    ensures r == Merged(existingTasks + chatResponse)
  {
    ReduceIsMerged(existingTasks + chatResponse);
    Reduce(existingTasks + chatResponse)
  }

  /** Index `k` holds the first record with its id (a NaN id never equals an earlier one). */
  predicate FirstOccurrence(s: seq<Obj>, k: int) {
    0 <= k < |s| && forall j :: 0 <= j < k ==> !StrictEq(IdOf(s[j]), IdOf(s[k]))
  }

  /** The first-occurrence indices of `s`, ascending. */
  function Firsts(s: seq<Obj>): (f: seq<nat>)
    ensures forall i :: 0 <= i < |f| ==> f[i] < |s|
    decreases |s|
  {
    if s == [] then []
    else
      var f := Firsts(s[..|s| - 1]);
      if FirstOccurrence(s, |s| - 1) then f + [|s| - 1] else f
  }

  lemma FirstsSnoc(s: seq<Obj>, x: Obj)
    ensures var all := s + [x];
      Firsts(all) == Firsts(s) + (if FirstOccurrence(all, |s|) then [|s|] else [])
  {
    var all := s + [x];
    assert all[..|all| - 1] == s;
  }

  /** `Firsts` lists first occurrences only, in ascending order. */
  lemma {:induction false} FirstsSound(s: seq<Obj>)
    ensures forall i :: 0 <= i < |Firsts(s)| ==> FirstOccurrence(s, Firsts(s)[i])
    ensures forall i, j :: 0 <= i < j < |Firsts(s)| ==> Firsts(s)[i] < Firsts(s)[j]
    decreases |s|
  {
    if s != [] {
      var p := s[..|s| - 1];
      FirstsSound(p);
      forall k | FirstOccurrence(p, k) ensures FirstOccurrence(s, k) {
      }
    }
  }

  /** `Firsts` lists every first occurrence. */
  lemma {:induction false} FirstsComplete(s: seq<Obj>, k: int)
    requires FirstOccurrence(s, k)
    ensures k in Firsts(s)
    decreases |s|
  {
    var p := s[..|s| - 1];
    if k < |s| - 1 {
      assert FirstOccurrence(p, k);
      FirstsComplete(p, k);
    }
  }

  /**
    The record `acc` after every later record of `rest` with id `v` has been
    merged into it, in order.
  */
  function MergeInto(acc: Obj, v: Value, rest: seq<Obj>): (r: Obj)
    ensures IdOf(acc) == v ==> IdOf(r) == v
    decreases |rest|
  {
    if rest == [] then acc
    else
      var m := MergeInto(acc, v, rest[..|rest| - 1]);
      var last := rest[|rest| - 1];
      if StrictEq(IdOf(last), v) then Absorb(m, last) else m
  }

  /** The record for the first occurrence at index `k`. */
  function MergedFrom(all: seq<Obj>, k: nat): Obj
    requires k < |all|
  {
    MergeInto(Tag(all[k]), IdOf(all[k]), all[k + 1..])
  }

  /**
    What `combinedTasks` is meant to be: one record per first occurrence of an
    id, in first-occurrence order, tagged and then merged with every later
    record of the same id.
  */
  function Merged(all: seq<Obj>): (r: seq<Obj>)
    ensures |r| == |Firsts(all)|
    ensures forall i :: 0 <= i < |r| ==> r[i] == MergedFrom(all, Firsts(all)[i])
  {
    var f := Firsts(all);
    seq(|f|, i requires 0 <= i < |f| => MergedFrom(all, f[i]))
  }

  lemma MergedIds(all: seq<Obj>)
    ensures forall i :: 0 <= i < |Merged(all)| ==> IdOf(Merged(all)[i]) == IdOf(all[Firsts(all)[i]])
  {
    forall i | 0 <= i < |Merged(all)| ensures IdOf(Merged(all)[i]) == IdOf(all[Firsts(all)[i]]) {
      var t := all[Firsts(all)[i]];
      assert IdOf(Tag(t)) == IdOf(t);
    }
  }

  /** Every id of `s` is the id of one of its first occurrences. */
  lemma FirstsCover(s: seq<Obj>, k: int)
    requires 0 <= k < |s|
    ensures exists i :: 0 <= i < |Firsts(s)| && IdOf(s[Firsts(s)[i]]) == IdOf(s[k])
    decreases k
  {
    if !FirstOccurrence(s, k) {
      var j :| 0 <= j < k && StrictEq(IdOf(s[j]), IdOf(s[k]));
      FirstsCover(s, j);
    } else {
      FirstsComplete(s, k);
    }
  }

  /** A later record finds a listed match exactly when some earlier record has its id. */
  lemma ListedMerged(s: seq<Obj>, x: Obj)
    ensures Listed(Merged(s), IdOf(x)) <==> exists j :: 0 <= j < |s| && StrictEq(IdOf(s[j]), IdOf(x))
  {
    MergedIds(s);
    var f := Firsts(s);
    if exists j :: 0 <= j < |s| && StrictEq(IdOf(s[j]), IdOf(x)) {
      var j :| 0 <= j < |s| && StrictEq(IdOf(s[j]), IdOf(x));
      FirstsCover(s, j);
      var i :| 0 <= i < |f| && IdOf(s[f[i]]) == IdOf(s[j]);
      assert StrictEq(IdOf(Merged(s)[i]), IdOf(x));
    }
    if Listed(Merged(s), IdOf(x)) {
      var i :| 0 <= i < |Merged(s)| && StrictEq(IdOf(Merged(s)[i]), IdOf(x));
      assert StrictEq(IdOf(s[f[i]]), IdOf(x));
    }
  }

  lemma MergedFromSnoc(s: seq<Obj>, x: Obj, k: nat)
    requires k < |s|
    ensures MergedFrom(s + [x], k) ==
      if StrictEq(IdOf(x), IdOf(s[k])) then Absorb(MergedFrom(s, k), x) else MergedFrom(s, k)
  {
    var all := s + [x];
    var rest := all[k + 1..];
    assert rest[..|rest| - 1] == s[k + 1..];
    assert rest[|rest| - 1] == x;
    assert all[k] == s[k];
  }

  /** A record whose id is new is appended, tagged. */
  lemma MergedSnocNew(s: seq<Obj>, x: Obj)
    requires forall j :: 0 <= j < |s| ==> !StrictEq(IdOf(s[j]), IdOf(x))
    ensures Merged(s + [x]) == Merged(s) + [Tag(x)]
  {
    var all := s + [x];
    FirstsSnoc(s, x);
    var f := Firsts(s);
    assert FirstOccurrence(all, |s|);
    assert Firsts(all) == f + [|s|];
    var m, m' := Merged(s), Merged(all);
    forall i | 0 <= i < |f| ensures m'[i] == m[i] {
      MergedFromSnoc(s, x, f[i]);
    }
    assert all[|s| + 1..] == [];
    assert m'[|f|] == MergedFrom(all, |s|) == Tag(x);
  }

  /** A record whose id is already listed is merged into the records with that id. */
  lemma MergedSnocListed(s: seq<Obj>, x: Obj)
    requires exists j :: 0 <= j < |s| && StrictEq(IdOf(s[j]), IdOf(x))
    ensures var m := Merged(s);
      Merged(s + [x]) == seq(|m|, i requires 0 <= i < |m| =>
        if StrictEq(IdOf(m[i]), IdOf(x)) then Absorb(m[i], x) else m[i])
  {
    var all := s + [x];
    FirstsSnoc(s, x);
    MergedIds(s);
    var f := Firsts(s);
    assert !FirstOccurrence(all, |s|) by {
      var j :| 0 <= j < |s| && StrictEq(IdOf(s[j]), IdOf(x));
      assert all[j] == s[j] && all[|s|] == x;
    }
    var m, m' := Merged(s), Merged(all);
    forall i | 0 <= i < |f| ensures m'[i] == if StrictEq(IdOf(m[i]), IdOf(x)) then Absorb(m[i], x) else m[i] {
      MergedFromSnoc(s, x, f[i]);
    }
  }

  /**
    The reduce computes the reference: one record per distinct id, at the
    position of its first occurrence, with later records merged into it.
  */
  lemma {:induction false} ReduceIsMerged(all: seq<Obj>)
    ensures Reduce(all) == Merged(all)
    decreases |all|
  {
    if all != [] {
      var n := |all|;
      var s, x := all[..n - 1], all[n - 1];
      assert all == s + [x];
      ReduceIsMerged(s);
      ListedMerged(s, x);
      if exists j :: 0 <= j < |s| && StrictEq(IdOf(s[j]), IdOf(x)) {
        MergedSnocListed(s, x);
      } else {
        MergedSnocNew(s, x);
      }
    }
  }

  /** No two records of `combinedTasks` share an id. */
  lemma CombineTasksUnique(existingTasks: seq<Obj>, chatResponse: seq<Obj>)
    ensures var r := CombineTasks(existingTasks, chatResponse);
      forall i, j :: 0 <= i < j < |r| ==> !StrictEq(IdOf(r[i]), IdOf(r[j]))
  {
    var all := existingTasks + chatResponse;
    ReduceIsMerged(all);
    MergedIds(all);
    FirstsSound(all);
  }

  lemma MergedCovers(all: seq<Obj>, k: int)
    requires 0 <= k < |all|
    ensures exists i :: 0 <= i < |Merged(all)| && IdOf(Merged(all)[i]) == IdOf(all[k])
  {
    FirstsCover(all, k);
    MergedIds(all);
  }

  /** Every id of the inputs appears in `combinedTasks`. */
  lemma CombineTasksCovers(existingTasks: seq<Obj>, chatResponse: seq<Obj>, k: int)
    requires 0 <= k < |existingTasks + chatResponse|
    ensures var r := CombineTasks(existingTasks, chatResponse);
      exists i :: 0 <= i < |r| && IdOf(r[i]) == IdOf((existingTasks + chatResponse)[k])
  {
    var all := existingTasks + chatResponse;
    ReduceIsMerged(all);
    MergedCovers(all, k);
    assert CombineTasks(existingTasks, chatResponse) == Merged(all);
  }

  /** With distinct ids, `combinedTasks` only adds `goalId` to each task. */
  lemma CombineTasksDistinct(all: seq<Obj>)
    requires forall i, j :: 0 <= i < j < |all| ==> !StrictEq(IdOf(all[i]), IdOf(all[j]))
    ensures Reduce(all) == seq(|all|, i requires 0 <= i < |all| => Tag(all[i]))
  {
    ReduceIsMerged(all);
    MergedDistinct(all);
  }

  lemma MergedDistinct(all: seq<Obj>)
    requires forall i, j :: 0 <= i < j < |all| ==> !StrictEq(IdOf(all[i]), IdOf(all[j]))
    ensures Merged(all) == seq(|all|, i requires 0 <= i < |all| => Tag(all[i]))
  {
    FirstsOfDistinct(all);
    var m := Merged(all);
    var tagged := seq(|all|, i requires 0 <= i < |all| => Tag(all[i]));
    forall i | 0 <= i < |all| ensures m[i] == tagged[i] {
      var rest := all[i + 1..];
      forall j | 0 <= j < |rest| ensures !StrictEq(IdOf(rest[j]), IdOf(all[i])) {
        assert rest[j] == all[i + 1 + j];
      }
      MergeIntoNone(Tag(all[i]), IdOf(all[i]), rest);
    }
  }

  /** With distinct ids every index is a first occurrence. */
  lemma {:induction false} FirstsOfDistinct(all: seq<Obj>)
    requires forall i, j :: 0 <= i < j < |all| ==> !StrictEq(IdOf(all[i]), IdOf(all[j]))
    ensures |Firsts(all)| == |all| && forall i :: 0 <= i < |all| ==> Firsts(all)[i] == i
    decreases |all|
  {
    if all != [] {
      var n := |all|;
      var s, x := all[..n - 1], all[n - 1];
      assert all == s + [x];
      FirstsOfDistinct(s);
      FirstsSnoc(s, x);
      assert FirstOccurrence(all, n - 1);
    }
  }

  lemma {:induction false} MergeIntoNone(acc: Obj, v: Value, rest: seq<Obj>)
    requires forall j :: 0 <= j < |rest| ==> !StrictEq(IdOf(rest[j]), v)
    ensures MergeInto(acc, v, rest) == acc
    decreases |rest|
  {
    if rest != [] {
      MergeIntoNone(acc, v, rest[..|rest| - 1]);
    }
  }

  // ---------------------------------------------------------------------
  // sortedTasks and requestSort

  datatype SortConfig = SortConfig(key: Option<Prop>, direction: Direction)

  /** The initial sort state: no column, ascending. */
  const InitialSort := SortConfig(None, Ascending)

  function Column(p: Prop): Obj -> Value {
    t => Get(t, p)
  }

  /** `sortedTasks`: a copy of the tasks, sorted by the chosen column when there is one. */
  function SortedTasks(tasks: seq<Obj>, config: SortConfig): (r: seq<Obj>)
    ensures config.key.None? ==> r == tasks
    ensures multiset(r) == multiset(tasks)
    ensures config.key.Some? && Comparable(tasks, Column(config.key.value)) ==>
      SortedBy(r, Column(config.key.value), config.direction)
      && forall v :: WithKey(r, Column(config.key.value), v) == WithKey(tasks, Column(config.key.value), v)
  {
    match config.key
    case None => tasks
    case Some(p) =>
      if Comparable(tasks, Column(p)) then
        StableSortCorrect(tasks, Column(p), config.direction);
        StableSort(tasks, Column(p), config.direction)
      else
        StableSort(tasks, Column(p), config.direction)
  }

  /** Sorting moves whole records: the `order` values are the ones the tasks had. */
  lemma SortedTasksKeepsOrders(tasks: seq<Obj>, config: SortConfig, i: int)
    requires 0 <= i < |SortedTasks(tasks, config)|
    ensures exists j :: 0 <= j < |tasks| && SortedTasks(tasks, config)[i] == tasks[j]
  {
    var r := SortedTasks(tasks, config);
    assert r[i] in multiset(tasks);
  }

  /** `requestSort(key)` */
  function RequestSort(config: SortConfig, key: Prop): (r: SortConfig)
    ensures r.key == Some(key)
    ensures r.direction == Descending <==> config.key == Some(key) && config.direction == Ascending
  {
    if config.key == Some(key) && config.direction == Ascending then SortConfig(Some(key), Descending)
    else SortConfig(Some(key), Ascending)
  }

  /** Clicking the same column again always flips the direction; a new column starts ascending. */
  lemma RequestSortToggles(config: SortConfig, key: Prop)
    ensures RequestSort(RequestSort(config, key), key).direction != RequestSort(config, key).direction
    ensures config.key != Some(key) ==> RequestSort(config, key).direction == Ascending
  {
  }

  // ---------------------------------------------------------------------
  // handleSaveAll

  /** The record sent for the task at position `i` of the sorted table. */
  function SaveRecord(t: Obj, i: nat): (r: Obj)
    ensures Get(r, Order) == Num(i + 1)
    ensures Get(r, Id) == Get(t, Id)
    ensures Get(r, Name) == Or(Get(t, Name), Get(t, TaskName))
    ensures Get(r, Estimated_time) == Or(Get(t, Estimated_time), Get(t, TaskTime))
    ensures Get(r, Goal_id) == Or(Get(t, GoalId), Get(t, Goal_id))
    ensures Get(r, GoalId) == Undefined
  {
    map[
      Id := Get(t, Id),
      Name := Or(Get(t, Name), Get(t, TaskName)),
      Description := Get(t, Description),
      Estimated_time := Or(Get(t, Estimated_time), Get(t, TaskTime)),
      Priority := Get(t, Priority),
      Review_interval := Get(t, Review_interval),
      Order := Num(i + 1),
      Goal_id := Or(Get(t, GoalId), Get(t, Goal_id))
    ]
  }

  /** `updatedTasks`: the save payload, renumbered by position. */
  function SavePayload(sorted: seq<Obj>): (r: seq<Obj>)
    ensures |r| == |sorted|
    ensures Numbered(r)
    ensures forall i :: 0 <= i < |r| ==> r[i] == SaveRecord(sorted[i], i)
  {
    seq(|sorted|, i requires 0 <= i < |sorted| => SaveRecord(sorted[i], i))
  }

  datatype SaveRequest = SaveRequest(goalId: Value, tasks: seq<Obj>) | MissingGoalId

  /**
    `updatedTasks[0]?.goal_id || updatedTasks[0]?.goalId || desiredGoalId`,
    and the error thrown when it is falsy.
  */
  function SaveAll(sorted: seq<Obj>, desiredGoalId: Value): (r: SaveRequest)
    ensures r.SaveRequest? ==> Truthy(r.goalId) && r.tasks == SavePayload(sorted)
  {
    var payload := SavePayload(sorted);
    var first := if payload == [] then Undefined else Get(payload[0], Goal_id);
    var second := if payload == [] then Undefined else Get(payload[0], GoalId);
    var goalId := Or(Or(first, second), desiredGoalId);
    if !Truthy(goalId) then MissingGoalId else SaveRequest(goalId, payload)
  }

  /**
    The goal the tasks are saved under is the first task's `goalId || goal_id`
    when that is set, otherwise `desiredGoalId`; saving fails only when
    neither is.  The orders sent are exactly 1..N.
  */
  lemma SaveAllGoal(sorted: seq<Obj>, desiredGoalId: Value)
    ensures var first := if sorted == [] then Undefined else Or(Get(sorted[0], GoalId), Get(sorted[0], Goal_id));
      && (SaveAll(sorted, desiredGoalId).MissingGoalId? <==> !Truthy(first) && !Truthy(desiredGoalId))
      && (SaveAll(sorted, desiredGoalId).SaveRequest? ==>
            SaveAll(sorted, desiredGoalId).goalId == (if Truthy(first) then first else desiredGoalId))
    ensures SaveAll(sorted, desiredGoalId).SaveRequest? ==>
      (set i | 0 <= i < |sorted| :: Get(SaveAll(sorted, desiredGoalId).tasks[i], Order))
        == (set k | 1 <= k <= |sorted| :: Num(k))
  {
    if SaveAll(sorted, desiredGoalId).SaveRequest? {
      NumberedOrders(SavePayload(sorted));
    }
  }

  // ---------------------------------------------------------------------
  // onReflectScheduleClick

  /** `task.goalId === Number(desiredGoalId)` */
  predicate OfGoal(t: Obj, desiredGoalId: Value)
    ensures OfGoal(t, desiredGoalId) ==> Get(t, GoalId).Num?
    ensures desiredGoalId.Num? ==> (OfGoal(t, desiredGoalId) <==> Get(t, GoalId) == desiredGoalId)
    ensures IsNullish(desiredGoalId) ==> (OfGoal(t, desiredGoalId) <==> desiredGoalId.Null? && Get(t, GoalId) == Num(0))
  {
    StrictEq(Get(t, GoalId), ToNumber(desiredGoalId))
  }

  /** `sortedTasks.filter(task => task.goalId === Number(desiredGoalId))` */
  function FilterGoal(tasks: seq<Obj>, desiredGoalId: Value): (r: seq<Obj>)
    ensures |r| <= |tasks|
    ensures forall i :: 0 <= i < |r| ==> OfGoal(r[i], desiredGoalId)
    decreases |tasks|
  {
    if tasks == [] then []
    else
      var rest := FilterGoal(tasks[1..], desiredGoalId);
      if OfGoal(tasks[0], desiredGoalId) then [tasks[0]] + rest else rest
  }

  /** Each task of the goal is kept as often as it occurs; the others are dropped. */
  lemma {:induction false} FilterGoalCount(tasks: seq<Obj>, desiredGoalId: Value, t: Obj)
    ensures multiset(FilterGoal(tasks, desiredGoalId))[t] ==
      if OfGoal(t, desiredGoalId) then multiset(tasks)[t] else 0
    decreases |tasks|
  {
    if tasks != [] {
      FilterGoalCount(tasks[1..], desiredGoalId, t);
      assert tasks == [tasks[0]] + tasks[1..];
      assert multiset(tasks) == multiset{tasks[0]} + multiset(tasks[1..]);
      var rest := FilterGoal(tasks[1..], desiredGoalId);
      assert multiset([tasks[0]] + rest) == multiset{tasks[0]} + multiset(rest);
    }
  }

  /** The `order` key of `(a, b) => a.order - b.order`. */
  function OrderNumber(t: Obj): (r: Value)
    ensures r.Num? || r.NaN?
    ensures Get(t, Order).Num? ==> r == Get(t, Order)
    ensures Get(t, Order).Undefined? ==> r.NaN?
    ensures Get(t, Order).Null? ==> r == Num(0)
  {
    ToNumber(Get(t, Order))
  }

  /** The tasks handed to the schedule: those of the chosen goal, ascending by `order`. */
  function ReflectSchedule(sorted: seq<Obj>, desiredGoalId: Value): (r: seq<Obj>)
    ensures forall i :: 0 <= i < |r| ==> OfGoal(r[i], desiredGoalId)
    ensures multiset(r) == multiset(FilterGoal(sorted, desiredGoalId))
    ensures Comparable(FilterGoal(sorted, desiredGoalId), OrderNumber) ==> SortedBy(r, OrderNumber, Ascending)
  {
    var kept := FilterGoal(sorted, desiredGoalId);
    var r := StableSort(kept, OrderNumber, Ascending);
    assert forall i :: 0 <= i < |r| ==> OfGoal(r[i], desiredGoalId) by {
      forall i | 0 <= i < |r| ensures OfGoal(r[i], desiredGoalId) {
        assert r[i] in multiset(kept);
      }
    }
    if Comparable(kept, OrderNumber) then
      StableSortCorrect(kept, OrderNumber, Ascending);
      r
    else
      r
  }

  /** A task of the chosen goal is handed to the schedule as often as it is listed, any other never. */
  lemma ReflectScheduleKeeps(sorted: seq<Obj>, desiredGoalId: Value, t: Obj)
    ensures multiset(ReflectSchedule(sorted, desiredGoalId))[t] ==
      if OfGoal(t, desiredGoalId) then multiset(sorted)[t] else 0
  {
    FilterGoalCount(sorted, desiredGoalId, t);
  }

  // ---------------------------------------------------------------------
  // handleDragEnd and updateTaskOrder

  /**
    `handleDragEnd`: move the dragged row to the target's index.  The local
    list is not renumbered; the `order` fields keep their old values.
  */
  function DragEnd(items: seq<Obj>, active: Value, over: Value): (r: seq<Obj>)
    requires !StrictEq(active, over) ==> FindIndex(items, active) >= 0 && FindIndex(items, over) >= 0
    ensures StrictEq(active, over) ==> r == items
    ensures |r| == |items| && multiset(r) == multiset(items)
    ensures !StrictEq(active, over) ==> r[FindIndex(items, over)] == items[FindIndex(items, active)]
  {
    if StrictEq(active, over) then items
    else ArrayMove(items, FindIndex(items, active), FindIndex(items, over))
  }

  /** `newTasks.map((task, index) => ({ id: task.id, order: index + 1 }))` */
  function OrderPayload(items: seq<Obj>): (r: seq<Obj>)
    ensures |r| == |items|
    ensures Numbered(r)
    ensures Ids(r) == Ids(items)
    ensures forall i :: 0 <= i < |r| ==> r[i].Keys == {Id, Order}
  {
    seq(|items|, i requires 0 <= i < |items| => map[Id := Get(items[i], Id), Order := Num(i + 1)])
  }

  /**
    After a drag the server is sent the new positions as 1..N, while the
    moved row keeps its old `order` locally.
  */
  lemma DragEndOrders(items: seq<Obj>, active: Value, over: Value)
    requires !StrictEq(active, over) && FindIndex(items, active) >= 0 && FindIndex(items, over) >= 0
    ensures var from, to := FindIndex(items, active), FindIndex(items, over);
      var moved := DragEnd(items, active, over);
      Get(moved[to], Order) == Get(items[from], Order)
      && Get(OrderPayload(moved)[to], Order) == Num(to + 1)
      && Get(OrderPayload(moved)[to], Id) == Get(items[from], Id)
  {
  }

  // ---------------------------------------------------------------------
  // Edit handlers

  /** The input's value: `Number(value)` for a number input, the text otherwise. */
  function InputValue(isNumberInput: bool, text: string): (v: Value)
    ensures isNumberInput ==> v.Num? || v.NaN?
    ensures !isNumberInput ==> v == Str(text)
  {
    if isNumberInput then ParseNumber(text) else Str(text)
  }

  /** `handleChange(e, field, taskId)`: `{ ...task, [field]: value }` for the tasks with that id. */
  function HandleChange(tasks: seq<Obj>, field: Prop, isNumberInput: bool, text: string, taskId: Value): (r: seq<Obj>)
    ensures |r| == |tasks|
    ensures forall i :: 0 <= i < |tasks| && StrictEq(IdOf(tasks[i]), taskId) ==>
      Get(r[i], field) == InputValue(isNumberInput, text)
      && forall p :: p != field ==> Get(r[i], p) == Get(tasks[i], p)
    ensures forall i :: 0 <= i < |tasks| && !StrictEq(IdOf(tasks[i]), taskId) ==> r[i] == tasks[i]
  {
    ReplaceMatching(tasks, taskId, map[field := InputValue(isNumberInput, text)])
  }

  /**
    The ids are compared with `===` and no conversion: a row whose id is the
    number 1 is not deleted by the string "1".
  */
  lemma DeleteNeedsSameType(t: Obj)
    requires IdOf(t) == Num(1)
    ensures RemoveMatching([t], Str("1")) == [t]
  {
    RemoveMatchingNone([t], Str("1"));
  }

  /** The priority column outside editing: 低 for 1, 中 for 2, 高 otherwise. */
  function PriorityCell(t: Obj): (cell: string)
    ensures StrictEq(Get(t, Priority), Num(1)) ==> cell == "低"
    ensures StrictEq(Get(t, Priority), Num(2)) ==> cell == "中"
    ensures !StrictEq(Get(t, Priority), Num(1)) && !StrictEq(Get(t, Priority), Num(2)) ==> cell == "高"
  {
    if StrictEq(Get(t, Priority), Num(1)) then "低"
    else if StrictEq(Get(t, Priority), Num(2)) then "中"
    else "高"
  }
}
