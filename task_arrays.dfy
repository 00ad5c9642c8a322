/**
  List operations shared by the task views: locating a task by id, the
  `arrayMove` of @dnd-kit/sortable, renumbering `order` by position, and the
  replace-by-id and delete-by-id updates the edit handlers apply to the task
  list state.
*/
module TaskArrays {
  import opened Js

  /** `items.findIndex(item => item.id === id)` */
  function FindIndex(items: seq<Obj>, id: Value): (k: int)
    ensures -1 <= k < |items|
    ensures k == -1 <==> forall i :: 0 <= i < |items| ==> !StrictEq(Get(items[i], Id), id)
    ensures k >= 0 ==> StrictEq(Get(items[k], Id), id)
    ensures k >= 0 ==> forall i :: 0 <= i < k ==> !StrictEq(Get(items[i], Id), id)
  {
    if items == [] then -1
    else if StrictEq(Get(items[0], Id), id) then 0
    else
      var k := FindIndex(items[1..], id);
      if k == -1 then -1 else k + 1
  }

  /**
    `arrayMove(array, from, to)` of @dnd-kit/sortable: take the element at
    `from` out and insert it so that it ends up at index `to`.
  */
  function ArrayMove<T>(a: seq<T>, from: nat, to: nat): (r: seq<T>)
    requires from < |a| && to < |a|
    ensures |r| == |a|
    ensures multiset(r) == multiset(a)
    ensures r[to] == a[from]
  {
    var rest := a[..from] + a[from + 1..];
    assert a == a[..from] + [a[from]] + a[from + 1..];
    assert rest == rest[..to] + rest[to..];
    assert multiset(a) == multiset(rest) + multiset{a[from]};
    rest[..to] + [a[from]] + rest[to..]
  }

  /** Where the element at index `k` of `ArrayMove(a, from, to)` came from. */
  function MovedFrom(from: nat, to: nat, k: nat): nat {
    if k == to then from
    else if from < to && from <= k < to then k + 1
    else if to < from && to < k <= from then k - 1
    else k
  }

  lemma ArrayMoveAt<T>(a: seq<T>, from: nat, to: nat, k: nat)
    requires from < |a| && to < |a| && k < |a|
    ensures MovedFrom(from, to, k) < |a|
    ensures ArrayMove(a, from, to)[k] == a[MovedFrom(from, to, k)]
  {
  }

  /** Moving an element back where it came from restores the list. */
  lemma ArrayMoveInverse<T>(a: seq<T>, i: nat, j: nat)
    requires i < |a| && j < |a|
    ensures ArrayMove(ArrayMove(a, i, j), j, i) == a
  {
    var b := ArrayMove(a, i, j);
    var c := ArrayMove(b, j, i);
    forall k | 0 <= k < |a| ensures c[k] == a[k] {
      ArrayMoveAt(b, j, i, k);
      ArrayMoveAt(a, i, j, MovedFrom(j, i, k));
      MovedFromInverse(i, j, k);
    }
  }

  /** The index maps of the two opposite moves undo each other. */
  lemma MovedFromInverse(i: nat, j: nat, k: nat)
    ensures MovedFrom(i, j, MovedFrom(j, i, k)) == k
  {
  }

  /** Only the elements between the two indices shift; the rest keep their place. */
  lemma ArrayMoveOutside<T>(a: seq<T>, from: nat, to: nat, k: nat)
    requires from < |a| && to < |a| && k < |a|
    requires (k < from && k < to) || (k > from && k > to)
    ensures ArrayMove(a, from, to)[k] == a[k]
  {
    ArrayMoveAt(a, from, to, k);
  }

  /** `items.map((item, index) => ({ ...item, order: index + 1 }))` */
  function Renumber(items: seq<Obj>): (r: seq<Obj>)
    ensures |r| == |items|
    ensures forall i :: 0 <= i < |r| ==> Get(r[i], Order) == Num(i + 1)
    ensures forall i, p :: 0 <= i < |r| && p != Order ==> Get(r[i], p) == Get(items[i], p)
  {
    seq(|items|, i requires 0 <= i < |items| => With(items[i], Order, Num(i + 1)))
  }

  lemma RenumberAt(items: seq<Obj>, i: nat)
    requires i < |items|
    ensures Renumber(items)[i] == With(items[i], Order, Num(i + 1))
  {
  }

  /** The `order` fields of `items` are exactly 1, 2, ..., N by position. */
  predicate Numbered(items: seq<Obj>) {
    forall i :: 0 <= i < |items| ==> Get(items[i], Order) == Num(i + 1)
  }

  /** A numbered list carries each order value 1..N exactly once. */
  lemma NumberedOrders(items: seq<Obj>)
    requires Numbered(items)
    ensures (set i | 0 <= i < |items| :: Get(items[i], Order)) == (set k | 1 <= k <= |items| :: Num(k))
    ensures forall i, j :: 0 <= i < j < |items| ==> Get(items[i], Order) != Get(items[j], Order)
  {
    var have := set i | 0 <= i < |items| :: Get(items[i], Order);
    var want := set k | 1 <= k <= |items| :: Num(k);
    forall v | v in want ensures v in have {
      var k :| 1 <= k <= |items| && v == Num(k);
      assert Get(items[k - 1], Order) == v;
    }
  }

  /** The ids of a list, in order. */
  function Ids(items: seq<Obj>): (r: seq<Value>)
    ensures |r| == |items|
    ensures forall i :: 0 <= i < |items| ==> r[i] == Get(items[i], Id)
  {
    seq(|items|, i requires 0 <= i < |items| => Get(items[i], Id))
  }

  /**
    The drag handler of the task tables: when the dragged row and the row it
    was dropped on differ, the dragged row is moved to the target's index and
    every `order` is renumbered by the new position.
  */
  function MoveAndRenumber(items: seq<Obj>, active: Value, over: Value): (r: seq<Obj>)
    requires !StrictEq(active, over) ==> FindIndex(items, active) >= 0 && FindIndex(items, over) >= 0
    ensures StrictEq(active, over) ==> r == items
    ensures |r| == |items|
    ensures !StrictEq(active, over) ==> Numbered(r)
    ensures !StrictEq(active, over) ==>
      Ids(r) == ArrayMove(Ids(items), FindIndex(items, active), FindIndex(items, over))
  {
    if StrictEq(active, over) then items
    else
      var from, to := FindIndex(items, active), FindIndex(items, over);
      RenumberedMoveIds(items, from, to);
      Renumber(ArrayMove(items, from, to))
  }

  /** Renumbering does not touch ids, so the ids move exactly as the rows do. */
  lemma RenumberedMoveIds(items: seq<Obj>, from: nat, to: nat)
    requires from < |items| && to < |items|
    ensures Ids(Renumber(ArrayMove(items, from, to))) == ArrayMove(Ids(items), from, to)
  {
    var r := Renumber(ArrayMove(items, from, to));
    forall k | 0 <= k < |items|
      ensures Ids(r)[k] == ArrayMove(Ids(items), from, to)[k]
    {
      ArrayMoveAt(items, from, to, k);
      ArrayMoveAt(Ids(items), from, to, k);
    }
  }

  /** Dragging a row lands it at the target's index, the dragged task otherwise unchanged. */
  lemma MoveAndRenumberMovesTask(items: seq<Obj>, active: Value, over: Value, from: nat, to: nat)
    requires !StrictEq(active, over)
    requires FindIndex(items, active) == from && FindIndex(items, over) == to
    ensures from < |items| && to < |items|
    ensures MoveAndRenumber(items, active, over)[to] == With(items[from], Order, Num(to + 1))
  {
    RenumberAt(ArrayMove(items, from, to), to);
  }

  /** Every row after a drag is the task that moved there, renumbered by its new position. */
  lemma MoveAndRenumberAt(items: seq<Obj>, active: Value, over: Value, k: nat)
    requires !StrictEq(active, over)
    requires FindIndex(items, active) >= 0 && FindIndex(items, over) >= 0
    requires k < |items|
    ensures var from, to := FindIndex(items, active), FindIndex(items, over);
      MovedFrom(from, to, k) < |items|
      && MoveAndRenumber(items, active, over)[k] == With(items[MovedFrom(from, to, k)], Order, Num(k + 1))
  {
    var from, to := FindIndex(items, active), FindIndex(items, over);
    var moved := ArrayMove(items, from, to);
    ArrayMoveAt(items, from, to, k);
    RenumberAt(moved, k);
    assert MoveAndRenumber(items, active, over) == Renumber(moved);
  }

  /** `tasks.map(task => task.id === id ? { ...task, ...patch } : task)` */
  function ReplaceMatching(tasks: seq<Obj>, id: Value, patch: Obj): (r: seq<Obj>)
    ensures |r| == |tasks|
    ensures forall i :: 0 <= i < |tasks| && StrictEq(Get(tasks[i], Id), id) ==>
      r[i] == Spread(tasks[i], patch)
    ensures forall i :: 0 <= i < |tasks| && !StrictEq(Get(tasks[i], Id), id) ==> r[i] == tasks[i]
  {
    seq(|tasks|, i requires 0 <= i < |tasks| =>
      if StrictEq(Get(tasks[i], Id), id) then Spread(tasks[i], patch) else tasks[i])
  }

  /** `tasks.filter(task => task.id !== id)` */
  function RemoveMatching(tasks: seq<Obj>, id: Value): (r: seq<Obj>)
    ensures |r| <= |tasks|
    ensures forall i :: 0 <= i < |r| ==> !StrictEq(Get(r[i], Id), id)
    decreases |tasks|
  {
    if tasks == [] then []
    else
      var rest := RemoveMatching(tasks[1..], id);
      if StrictEq(Get(tasks[0], Id), id) then rest else [tasks[0]] + rest
  }

  /** Each task without that id is kept as often as it occurs; the others are dropped. */
  lemma {:induction false} RemoveMatchingCount(tasks: seq<Obj>, id: Value, t: Obj)
    ensures multiset(RemoveMatching(tasks, id))[t] ==
      if StrictEq(Get(t, Id), id) then 0 else multiset(tasks)[t]
    decreases |tasks|
  {
    if tasks != [] {
      var head, tail := tasks[0], tasks[1..];
      var rest := RemoveMatching(tail, id);
      RemoveMatchingCount(tail, id, t);
      assert tasks == [head] + tail;
      assert multiset(tasks) == multiset{head} + multiset(tail);
      if StrictEq(Get(head, Id), id) {
        assert RemoveMatching(tasks, id) == rest;
      } else {
        assert RemoveMatching(tasks, id) == [head] + rest;
        assert multiset([head] + rest) == multiset{head} + multiset(rest);
      }
    }
  }

  /** Deleting distributes over concatenation, so the kept tasks stay in their order. */
  lemma {:induction false} RemoveMatchingAppend(a: seq<Obj>, b: seq<Obj>, id: Value)
    ensures RemoveMatching(a + b, id) == RemoveMatching(a, id) + RemoveMatching(b, id)
    decreases |a|
  {
    if a == [] {
      assert a + b == b;
    } else {
      var ab := a + b;
      assert ab[0] == a[0];
      assert ab[1..] == a[1..] + b;
      RemoveMatchingAppend(a[1..], b, id);
      var x, y := RemoveMatching(a[1..], id), RemoveMatching(b, id);
      if StrictEq(Get(a[0], Id), id) {
        assert RemoveMatching(ab, id) == RemoveMatching(ab[1..], id);
      } else {
        assert RemoveMatching(ab, id) == [ab[0]] + RemoveMatching(ab[1..], id);
        assert [a[0]] + (x + y) == ([a[0]] + x) + y;
      }
    }
  }

  /** A list with no task of that id is left as it is. */
  lemma {:induction false} RemoveMatchingNone(tasks: seq<Obj>, id: Value)
    requires forall i :: 0 <= i < |tasks| ==> !StrictEq(Get(tasks[i], Id), id)
    ensures RemoveMatching(tasks, id) == tasks
    decreases |tasks|
  {
    if tasks != [] {
      RemoveMatchingNone(tasks[1..], id);
      assert tasks == [tasks[0]] + tasks[1..];
    }
  }
}
