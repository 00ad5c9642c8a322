/**
  `Array.prototype.sort` as the task-list code uses it: a stable sort driven
  by a three-way comparator.  The sort itself is the JS engine's; it is
  modelled by its result, a stable insertion sort on the key each comparator
  reads.
*/
module Sorting {
  import opened Js

  datatype Direction = Ascending | Descending

  /**
    JS `a < b` for two numbers or two strings.  Null, undefined and NaN are
    below nothing and nothing is below them.
  */
  predicate Less(a: Value, b: Value)
    ensures Less(a, b) ==> (a.Num? && b.Num?) || (a.Str? && b.Str?)
    ensures a.Num? && b.Num? ==> (Less(a, b) <==> a.n < b.n)
  {
    (a.Num? && b.Num? && a.n < b.n) || (a.Str? && b.Str? && LexLess(a.s, b.s))
  }

  /**
    The three-way comparator of the task table: a missing value on either side
    compares equal, otherwise `<` and `>` decide, flipped when descending.
  */
  function Compare(a: Value, b: Value, dir: Direction): (r: int)
    ensures -1 <= r <= 1
    ensures IsNullish(a) || IsNullish(b) ==> r == 0
  {
    if IsNullish(a) || IsNullish(b) then 0
    else if Less(a, b) then (if dir == Ascending then -1 else 1)
    else if Less(b, a) then (if dir == Ascending then 1 else -1)
    else 0
  }

  /** Inserts `x` after every element it does not strictly precede. */
  function Insert<T>(x: T, r: seq<T>, key: T -> Value, dir: Direction): (res: seq<T>)
    ensures |res| == |r| + 1
    ensures multiset(res) == multiset(r) + multiset{x}
  {
    if r == [] then [x]
    else if Compare(key(x), key(r[0]), dir) < 0 then [x] + r
    else
      assert r == [r[0]] + r[1..];
      [r[0]] + Insert(x, r[1..], key, dir)
  }

  /** The stable sort of `s` by `key`: each element is inserted in input order. */
  function StableSort<T>(s: seq<T>, key: T -> Value, dir: Direction): (res: seq<T>)
    ensures |res| == |s|
    ensures multiset(res) == multiset(s)
  {
    if s == [] then []
    else
      assert s == s[..|s| - 1] + [s[|s| - 1]];
      Insert(s[|s| - 1], StableSort(s[..|s| - 1], key, dir), key, dir)
  }

  predicate HasKind(v: Value, numeric: bool) {
    if numeric then v.Num? else v.Str?
  }

  /** All keys are numbers (`numeric`) or all are strings: the comparator is then a total preorder. */
  predicate OfKind<T>(s: seq<T>, key: T -> Value, numeric: bool) {
    forall i :: 0 <= i < |s| ==> HasKind(key(s[i]), numeric)
  }

  predicate Comparable<T>(s: seq<T>, key: T -> Value) {
    OfKind(s, key, true) || OfKind(s, key, false)
  }

  predicate SortedBy<T>(s: seq<T>, key: T -> Value, dir: Direction) {
    forall i, j :: 0 <= i < j < |s| ==> Compare(key(s[i]), key(s[j]), dir) <= 0
  }

  /** The elements of `s` whose key is `v`, in their order in `s`. */
  function WithKey<T>(s: seq<T>, key: T -> Value, v: Value): seq<T> {
    if s == [] then []
    else (if key(s[0]) == v then [s[0]] else []) + WithKey(s[1..], key, v)
  }

  // ---------------------------------------------------------------------
  // The comparator on keys of one kind is a total preorder

  lemma CompareFacts(a: Value, b: Value, dir: Direction, numeric: bool)
    requires HasKind(a, numeric) && HasKind(b, numeric)
    ensures Compare(a, b, dir) == 0 <==> a == b
    ensures Compare(a, b, dir) == -Compare(b, a, dir)
  {
    if !numeric {
      if a == b {
        LexLessIrreflexive(a.s);
      } else {
        LexLessTotal(a.s, b.s);
        if LexLess(a.s, b.s) { LexLessAsymmetric(a.s, b.s); }
        if LexLess(b.s, a.s) { LexLessAsymmetric(b.s, a.s); }
      }
    }
  }

  /**
    The comparator is negative exactly when `a` goes first in the chosen
    direction, positive exactly when `b` does, and 0 otherwise.
  */
  lemma CompareSign(a: Value, b: Value, dir: Direction)
    ensures Compare(a, b, dir) < 0 <==>
      !IsNullish(a) && !IsNullish(b) && (if dir == Ascending then Less(a, b) else Less(b, a))
    ensures Compare(a, b, dir) > 0 <==>
      !IsNullish(a) && !IsNullish(b) && (if dir == Ascending then Less(b, a) else Less(a, b))
  {
    if a.Str? && b.Str? && LexLess(a.s, b.s) {
      LexLessAsymmetric(a.s, b.s);
    }
  }

  lemma CompareAntisymmetric(a: Value, b: Value, dir: Direction)
    ensures Compare(a, b, dir) == -Compare(b, a, dir)
  {
    if a.Str? && b.Str? && LexLess(a.s, b.s) {
      LexLessAsymmetric(a.s, b.s);
    }
  }

  lemma CompareTransitive(a: Value, b: Value, c: Value, dir: Direction, numeric: bool)
    requires HasKind(a, numeric) && HasKind(b, numeric) && HasKind(c, numeric)
    requires Compare(a, b, dir) <= 0 && Compare(b, c, dir) <= 0
    ensures Compare(a, c, dir) <= 0
    ensures Compare(a, b, dir) < 0 || Compare(b, c, dir) < 0 ==> Compare(a, c, dir) < 0
  {
    CompareFacts(a, b, dir, numeric);
    CompareFacts(b, c, dir, numeric);
    CompareFacts(a, c, dir, numeric);
    if !numeric && a != b && b != c {
      if dir == Ascending {
        LexLessTransitive(a.s, b.s, c.s);
      } else {
        LexLessTransitive(c.s, b.s, a.s);
      }
    }
  }

  lemma OfKindPermutation<T>(a: seq<T>, b: seq<T>, key: T -> Value, numeric: bool)
    requires multiset(a) == multiset(b) && OfKind(a, key, numeric)
    ensures OfKind(b, key, numeric)
  {
    forall i | 0 <= i < |b| ensures HasKind(key(b[i]), numeric) {
      assert b[i] in multiset(a);
      var j :| 0 <= j < |a| && a[j] == b[i];
    }
  }

  // ---------------------------------------------------------------------
  // Sortedness

  lemma {:induction false} InsertSorted<T>(x: T, r: seq<T>, key: T -> Value, dir: Direction, numeric: bool)
    requires SortedBy(r, key, dir) && OfKind(r, key, numeric) && HasKind(key(x), numeric)
    ensures SortedBy(Insert(x, r, key, dir), key, dir)
    decreases |r|
  {
    if r == [] {
    } else if Compare(key(x), key(r[0]), dir) < 0 {
      forall j | 0 <= j < |r| ensures Compare(key(x), key(r[j]), dir) <= 0 {
        if j > 0 {
          CompareTransitive(key(x), key(r[0]), key(r[j]), dir, numeric);
        }
      }
      ConsSorted(x, r, key, dir);
    } else {
      var rest := r[1..];
      SortedTail(r, key, dir, numeric);
      InsertSorted(x, rest, key, dir, numeric);
      CompareFacts(key(x), key(r[0]), dir, numeric);
      forall k | 0 <= k < |rest| ensures Compare(key(r[0]), key(rest[k]), dir) <= 0 {
        assert rest[k] == r[k + 1];
      }
      var tail := Insert(x, rest, key, dir);
      HeadPrecedes(r[0], rest, x, key, dir);
      assert forall j :: 0 <= j < |tail| ==> Compare(key(r[0]), key(tail[j]), dir) <= 0;
      ConsSorted(r[0], tail, key, dir);
    }
  }

  /** An element that precedes `x` and all of `rest` precedes all of `rest` with `x` inserted. */
  lemma HeadPrecedes<T>(h: T, rest: seq<T>, x: T, key: T -> Value, dir: Direction)
    requires forall k :: 0 <= k < |rest| ==> Compare(key(h), key(rest[k]), dir) <= 0
    requires Compare(key(h), key(x), dir) <= 0
    ensures forall j :: 0 <= j < |Insert(x, rest, key, dir)| ==>
      Compare(key(h), key(Insert(x, rest, key, dir)[j]), dir) <= 0
  {
    var tail := Insert(x, rest, key, dir);
    forall j | 0 <= j < |tail| ensures Compare(key(h), key(tail[j]), dir) <= 0 {
      assert tail[j] in multiset(tail);
      if tail[j] != x {
        assert tail[j] in multiset(rest);
        var k :| 0 <= k < |rest| && rest[k] == tail[j];
      }
    }
  }

  /** A sorted list stays sorted when an element that precedes all of it is put in front. */
  lemma ConsSorted<T>(h: T, tail: seq<T>, key: T -> Value, dir: Direction)
    requires SortedBy(tail, key, dir)
    requires forall j :: 0 <= j < |tail| ==> Compare(key(h), key(tail[j]), dir) <= 0
    ensures SortedBy([h] + tail, key, dir)
  {
    var s := [h] + tail;
    forall i, j | 0 <= i < j < |s| ensures Compare(key(s[i]), key(s[j]), dir) <= 0 {
      assert s[j] == tail[j - 1];
      if i > 0 {
        assert s[i] == tail[i - 1];
      }
    }
  }

  lemma {:induction false} StableSortSorted<T>(s: seq<T>, key: T -> Value, dir: Direction, numeric: bool)
    requires OfKind(s, key, numeric)
    ensures SortedBy(StableSort(s, key, dir), key, dir)
    ensures OfKind(StableSort(s, key, dir), key, numeric)
    decreases |s|
  {
    if s != [] {
      var init := s[..|s| - 1];
      StableSortSorted(init, key, dir, numeric);
      InsertSorted(s[|s| - 1], StableSort(init, key, dir), key, dir, numeric);
    }
    OfKindPermutation(s, StableSort(s, key, dir), key, numeric);
  }

  // ---------------------------------------------------------------------
  // Stability: elements with equal keys keep their input order

  lemma {:induction false} WithKeyAppend<T>(a: seq<T>, b: seq<T>, key: T -> Value, v: Value)
    ensures WithKey(a + b, key, v) == WithKey(a, key, v) + WithKey(b, key, v)
    decreases |a|
  {
    if a == [] {
      assert a + b == b;
    } else {
      var ab, head := a + b, if key(a[0]) == v then [a[0]] else [];
      assert ab[0] == a[0] && ab[1..] == a[1..] + b;
      WithKeyAppend(a[1..], b, key, v);
      assert WithKey(ab, key, v) == head + WithKey(ab[1..], key, v);
      assert WithKey(a, key, v) == head + WithKey(a[1..], key, v);
      assert head + (WithKey(a[1..], key, v) + WithKey(b, key, v))
          == (head + WithKey(a[1..], key, v)) + WithKey(b, key, v);
    }
  }

  lemma {:induction false} WithKeyNone<T>(s: seq<T>, key: T -> Value, v: Value)
    requires forall i :: 0 <= i < |s| ==> key(s[i]) != v
    ensures WithKey(s, key, v) == []
    decreases |s|
  {
    if s != [] {
      WithKeyNone(s[1..], key, v);
    }
  }

  lemma WithKeyCons<T>(y: T, t: seq<T>, key: T -> Value, v: Value)
    ensures WithKey([y] + t, key, v) == (if key(y) == v then [y] else []) + WithKey(t, key, v)
  {
    assert ([y] + t)[1..] == t;
  }

  lemma SortedTail<T>(r: seq<T>, key: T -> Value, dir: Direction, numeric: bool)
    requires r != [] && SortedBy(r, key, dir) && OfKind(r, key, numeric)
    ensures SortedBy(r[1..], key, dir) && OfKind(r[1..], key, numeric)
  {
    var rest := r[1..];
    forall i, j | 0 <= i < j < |rest| ensures Compare(key(rest[i]), key(rest[j]), dir) <= 0 {
      assert rest[i] == r[i + 1] && rest[j] == r[j + 1];
    }
    forall i | 0 <= i < |rest| ensures HasKind(key(rest[i]), numeric) {
      assert rest[i] == r[i + 1];
    }
  }

  /** An element that strictly precedes the head of a sorted list shares its key with none of it. */
  lemma PrecedesAll<T>(x: T, r: seq<T>, key: T -> Value, dir: Direction, numeric: bool)
    requires r != [] && SortedBy(r, key, dir) && OfKind(r, key, numeric) && HasKind(key(x), numeric)
    requires Compare(key(x), key(r[0]), dir) < 0
    ensures forall i :: 0 <= i < |r| ==> key(r[i]) != key(x)
  {
    forall i | 0 <= i < |r| ensures key(r[i]) != key(x) {
      if i > 0 {
        CompareTransitive(key(x), key(r[0]), key(r[i]), dir, numeric);
      }
      CompareFacts(key(x), key(r[i]), dir, numeric);
    }
  }

  lemma InsertWithKeyFront<T>(x: T, r: seq<T>, key: T -> Value, dir: Direction, numeric: bool, v: Value)
    requires r != [] && SortedBy(r, key, dir) && OfKind(r, key, numeric) && HasKind(key(x), numeric)
    requires Compare(key(x), key(r[0]), dir) < 0
    ensures WithKey([x] + r, key, v) == WithKey(r, key, v) + (if key(x) == v then [x] else [])
  {
    WithKeyCons(x, r, key, v);
    if key(x) == v {
      PrecedesAll(x, r, key, dir, numeric);
      WithKeyNone(r, key, v);
    }
  }

  lemma InsertWithKeyStep<T>(x: T, r: seq<T>, key: T -> Value, dir: Direction, v: Value)
    requires r != [] && Compare(key(x), key(r[0]), dir) >= 0
    requires WithKey(Insert(x, r[1..], key, dir), key, v)
          == WithKey(r[1..], key, v) + (if key(x) == v then [x] else [])
    ensures WithKey(Insert(x, r, key, dir), key, v)
         == WithKey(r, key, v) + (if key(x) == v then [x] else [])
  {
    var rest, tail := r[1..], Insert(x, r[1..], key, dir);
    var hd, ex := (if key(r[0]) == v then [r[0]] else []), (if key(x) == v then [x] else []);
    InsertStep(x, r, key, dir);
    WithKeyCons(r[0], tail, key, v);
    assert WithKey(r, key, v) == hd + WithKey(rest, key, v);
    assert WithKey(Insert(x, r, key, dir), key, v) == hd + (WithKey(rest, key, v) + ex);
    AppendAssociative(hd, WithKey(rest, key, v), ex);
  }

  lemma AppendAssociative<T>(a: seq<T>, b: seq<T>, c: seq<T>)
    ensures a + (b + c) == (a + b) + c
  {
  }

  lemma {:induction false} InsertWithKey<T>(x: T, r: seq<T>, key: T -> Value, dir: Direction, numeric: bool, v: Value)
    requires SortedBy(r, key, dir) && OfKind(r, key, numeric) && HasKind(key(x), numeric)
    ensures WithKey(Insert(x, r, key, dir), key, v)
         == WithKey(r, key, v) + (if key(x) == v then [x] else [])
    decreases |r|
  {
    if r == [] {
      WithKeyCons(x, [], key, v);
      assert [x] + [] == [x];
    } else if Compare(key(x), key(r[0]), dir) < 0 {
      InsertWithKeyFront(x, r, key, dir, numeric, v);
    } else {
      SortedTail(r, key, dir, numeric);
      InsertWithKey(x, r[1..], key, dir, numeric, v);
      InsertWithKeyStep(x, r, key, dir, v);
    }
  }

  lemma StableStep<T>(init: seq<T>, x: T, sorted: seq<T>, res: seq<T>, key: T -> Value, v: Value)
    requires WithKey(sorted, key, v) == WithKey(init, key, v)
    requires WithKey(res, key, v) == WithKey(sorted, key, v) + (if key(x) == v then [x] else [])
    ensures WithKey(res, key, v) == WithKey(init + [x], key, v)
  {
    WithKeyAppend(init, [x], key, v);
    WithKeyCons(x, [], key, v);
    assert [x] + [] == [x];
  }

  /** Sorting keeps, for every key value, the input order of the elements having it. */
  lemma {:induction false} StableSortStable<T>(s: seq<T>, key: T -> Value, dir: Direction, numeric: bool, v: Value)
    requires OfKind(s, key, numeric)
    ensures WithKey(StableSort(s, key, dir), key, v) == WithKey(s, key, v)
    decreases |s|
  {
    if s != [] {
      var init, x := s[..|s| - 1], s[|s| - 1];
      assert s == init + [x];
      assert OfKind(init, key, numeric) by {
        forall i | 0 <= i < |init| ensures HasKind(key(init[i]), numeric) {
          assert init[i] == s[i];
        }
      }
      StableSortStable(init, key, dir, numeric, v);
      StableSortSorted(init, key, dir, numeric);
      var sorted := StableSort(init, key, dir);
      InsertWithKey(x, sorted, key, dir, numeric, v);
      StableStep(init, x, sorted, StableSort(s, key, dir), key, v);
    }
  }

  /**
    The result of sorting a comparable list: a permutation of the input,
    ordered by the comparator, with equal keys in input order.
  */
  lemma StableSortCorrect<T>(s: seq<T>, key: T -> Value, dir: Direction)
    requires Comparable(s, key)
    ensures multiset(StableSort(s, key, dir)) == multiset(s)
    ensures SortedBy(StableSort(s, key, dir), key, dir)
    ensures forall v :: WithKey(StableSort(s, key, dir), key, v) == WithKey(s, key, v)
  {
    var numeric := OfKind(s, key, true);
    StableSortSorted(s, key, dir, numeric);
    forall v ensures WithKey(StableSort(s, key, dir), key, v) == WithKey(s, key, v) {
      StableSortStable(s, key, dir, numeric, v);
    }
  }

  /** A list already in order is returned unchanged. */
  lemma {:induction false} StableSortOfSorted<T>(s: seq<T>, key: T -> Value, dir: Direction)
    requires SortedBy(s, key, dir)
    ensures StableSort(s, key, dir) == s
    decreases |s|
  {
    if s != [] {
      var init, x := s[..|s| - 1], s[|s| - 1];
      assert s == init + [x];
      SortedInitLast(init, x, key, dir);
      StableSortOfSorted(init, key, dir);
      InsertLast(x, init, key, dir);
    }
  }

  /** The front of a sorted list is sorted, and its last element comes after all of it. */
  lemma SortedInitLast<T>(init: seq<T>, x: T, key: T -> Value, dir: Direction)
    requires SortedBy(init + [x], key, dir)
    ensures SortedBy(init, key, dir)
    ensures forall i :: 0 <= i < |init| ==> Compare(key(init[i]), key(x), dir) <= 0
  {
    var s := init + [x];
    forall i, j | 0 <= i < j < |init| ensures Compare(key(init[i]), key(init[j]), dir) <= 0 {
      assert init[i] == s[i] && init[j] == s[j];
    }
    forall i | 0 <= i < |init| ensures Compare(key(init[i]), key(x), dir) <= 0 {
      assert init[i] == s[i] && x == s[|init|];
    }
  }

  /** Inserting an element that does not precede the head keeps the head in front. */
  lemma InsertStep<T>(x: T, r: seq<T>, key: T -> Value, dir: Direction)
    requires r != [] && Compare(key(x), key(r[0]), dir) >= 0
    ensures Insert(x, r, key, dir) == [r[0]] + Insert(x, r[1..], key, dir)
  {
  }

  lemma {:induction false} InsertLast<T>(x: T, r: seq<T>, key: T -> Value, dir: Direction)
    requires forall i :: 0 <= i < |r| ==> Compare(key(r[i]), key(x), dir) <= 0
    ensures Insert(x, r, key, dir) == r + [x]
    decreases |r|
  {
    if r != [] {
      CompareAntisymmetric(key(r[0]), key(x), dir);
      var rest := r[1..];
      forall i | 0 <= i < |rest| ensures Compare(key(rest[i]), key(x), dir) <= 0 {
        assert rest[i] == r[i + 1];
      }
      InsertLast(x, rest, key, dir);
      InsertStep(x, r, key, dir);
      assert [r[0]] + (rest + [x]) == r + [x];
    }
  }
}
