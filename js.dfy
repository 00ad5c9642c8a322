/**
  The slice of JavaScript value semantics the task-list code relies on.

  A task record is a plain JS object: a finite map from property names to
  values.  A property that is not in the map reads as `undefined`; a property
  can also be present and hold `undefined` (an object literal such as
  `{ taskPriority: task.taskPriority }` creates the key even when the value is
  missing), which matters for object spread.  Numbers are modelled as
  integers plus a distinct NaN.
*/
module Js {

  datatype Option<+T> = None | Some(value: T)

  /** A JS primitive as it occurs in task records. */
  datatype Value = Undefined | Null | Num(n: int) | NaN | Str(s: string)

  /** The property names of task records that the modelled code reads or writes. */
  datatype Prop =
    | Id | Name | TaskName | Description
    | Estimated_time | TaskTime
    | Priority | TaskPriority | TasktaskPriority
    | Review_interval | ReviewInterval | RepetitionCount
    | Order | GoalId | Goal_id | UserId | ElapsedTime | LastNotificationSent

  type Obj = map<Prop, Value>

  /** Property read `o.p`. */
  function Get(o: Obj, p: Prop): Value {
    if p in o then o[p] else Undefined
  }

  /** `v == null`, true of both null and undefined. */
  predicate IsNullish(v: Value)
    ensures IsNullish(v) <==> !v.Num? && !v.NaN? && !v.Str?
  {
    v.Undefined? || v.Null?
  }

  /** JS truthiness: 0, NaN, "", null and undefined are falsy. */
  predicate Truthy(v: Value)
    ensures Truthy(v) <==> !IsNullish(v) && !v.NaN? && v != Num(0) && v != Str("")
  {
    match v
    case Num(n) => n != 0
    case Str(s) => s != ""
    case _ => false
  }

  /** `a || b` */
  function Or(a: Value, b: Value): (r: Value)
    ensures r == a || r == b
    ensures Truthy(a) ==> r == a
    ensures !Truthy(a) ==> r == b
  {
    if Truthy(a) then a else b
  }

  /** `a ?? b` */
  function Coalesce(a: Value, b: Value): (r: Value)
    ensures IsNullish(a) ==> r == b
    ensures !IsNullish(a) ==> r == a
  {
    if IsNullish(a) then b else a
  }

  /** `a === b`: structural equality on primitives, except that NaN equals nothing. */
  predicate StrictEq(a: Value, b: Value)
    ensures StrictEq(a, b) ==> a == b
    ensures a.NaN? || b.NaN? ==> !StrictEq(a, b)
    ensures a.Num? && b.Str? ==> !StrictEq(a, b)
  {
    a == b && !a.NaN?
  }

  /** `{ ...a, ...b }`: the properties of `b` overwrite those of `a`. */
  function Spread(a: Obj, b: Obj): (r: Obj)
    ensures r.Keys == a.Keys + b.Keys
    ensures forall p :: Get(r, p) == if p in b then b[p] else Get(a, p)
  {
    a + b
  }

  /** `{ ...o, [p]: v }` */
  function With(o: Obj, p: Prop, v: Value): (r: Obj)
    ensures Get(r, p) == v
    ensures forall q :: q != p ==> Get(r, q) == Get(o, q)
  {
    o[p := v]
  }

  /**
    `a + b` on primitives: string concatenation when either side is a string,
    numeric addition of `Number(a)` and `Number(b)` otherwise.
  */
  function Add(a: Value, b: Value): (r: Value)
    ensures a.Str? || b.Str? ==> r.Str?
    ensures !a.Str? && !b.Str? ==> (r.Num? <==> ToNumber(a).Num? && ToNumber(b).Num?)
    ensures a.Num? && b.Num? ==> r == Num(a.n + b.n)
  {
    if a.Str? || b.Str? then Str(ToStr(a) + ToStr(b))
    else
      match (ToNumber(a), ToNumber(b))
      case (Num(x), Num(y)) => Num(x + y)
      case _ => NaN
  }

  // ---------------------------------------------------------------------
  // Decimal rendering and parsing of integers

  function DigitChar(d: nat): char
    requires d < 10
  {
    "0123456789"[d]
  }

  predicate IsDigit(c: char) {
    '0' <= c <= '9'
  }

  function DigitValue(c: char): nat
    requires IsDigit(c)
  {
    (c as int - '0' as int) as nat
  }

  /** The decimal numeral of `n`, most significant digit first, without leading zeros. */
  function NatToString(n: nat): (s: string)
    decreases n
  {
    if n < 10 then [DigitChar(n)] else NatToString(n / 10) + [DigitChar(n % 10)]
  }

  /** `n.toString()` for an integer `n`: a minus sign exactly for negatives, then digits. */
  function IntToString(n: int): (s: string)
    ensures |s| > 0 && (s[0] == '-' <==> n < 0)
    ensures n < 0 ==> |s| > 1 && AllDigits(s[1..])
    ensures n >= 0 ==> AllDigits(s)
  {
    NatToStringDigits(if n < 0 then -n else n);
    if n < 0 then
      var t := NatToString(-n);
      assert ("-" + t)[1..] == t;
      "-" + t
    else NatToString(n)
  }

  predicate AllDigits(s: string) {
    forall i :: 0 <= i < |s| ==> IsDigit(s[i])
  }

  /** The value of a string of decimal digits. */
  function DigitsValue(s: string): nat
    requires AllDigits(s)
  {
    if s == [] then 0 else 10 * DigitsValue(s[..|s| - 1]) + DigitValue(s[|s| - 1])
  }

  /**
    `Number(s)` for the strings this model interprets: the empty string is 0,
    a run of decimal digits with an optional `+` or `-` sign is its value,
    anything else is NaN.
  */
  function ParseNumber(s: string): (r: Value)
    ensures r.Num? || r.NaN?
  {
    if s == "" then Num(0)
    else if AllDigits(s) then Num(DigitsValue(s))
    else if s[0] == '-' && |s| > 1 && AllDigits(s[1..]) then Num(0 - DigitsValue(s[1..]))
    else if s[0] == '+' && |s| > 1 && AllDigits(s[1..]) then Num(DigitsValue(s[1..]))
    else NaN
  }

  /** `Number(v)` */
  function ToNumber(v: Value): (r: Value)
    ensures r.Num? || r.NaN?
    ensures v.Num? ==> r == v
  {
    match v
    case Undefined => NaN
    case Null => Num(0)
    case Num(_) => v
    case NaN => NaN
    case Str(s) => ParseNumber(s)
  }

  /** `String(v)`: a string is itself, anything else a non-empty text that `Number` reads back. */
  function ToStr(v: Value): (s: string)
    ensures v.Str? ==> s == v.s
    ensures !v.Str? ==> |s| > 0
    ensures v.Num? ==> ToNumber(Str(s)) == v
    ensures v.NaN? ==> ToNumber(Str(s)).NaN?
  {
    match v
    case Undefined => "undefined"
    case Null => "null"
    case Num(n) => NumberOfString(n); IntToString(n)
    case NaN => "NaN"
    case Str(s) => s
  }

  lemma {:induction false} NatToStringDigits(n: nat)
    ensures |NatToString(n)| > 0 && AllDigits(NatToString(n))
    decreases n
  {
    if n >= 10 {
      NatToStringDigits(n / 10);
    }
  }

  /** Reading back the numeral of `n` gives `n`. */
  lemma {:induction false} DigitsOfNatToString(n: nat)
    ensures AllDigits(NatToString(n)) && DigitsValue(NatToString(n)) == n
    decreases n
  {
    NatToStringDigits(n);
    var s := NatToString(n);
    if n >= 10 {
      DigitsOfNatToString(n / 10);
      assert s[..|s| - 1] == NatToString(n / 10);
      assert s[|s| - 1] == DigitChar(n % 10);
    } else {
      assert s[..|s| - 1] == [];
    }
  }

  /** `Number(String(n)) === n` for every integer `n`. */
  lemma NumberOfString(n: int)
    ensures ToNumber(Str(IntToString(n))) == Num(n)
    ensures ParseNumber(IntToString(n)) == Num(n)
  {
    var s := IntToString(n);
    if n < 0 {
      var t := NatToString(-n);
      DigitsOfNatToString(-n);
      NatToStringDigits(-n);
      assert s == "-" + t;
      assert s[1..] == t;
      assert !IsDigit(s[0]);
      assert !AllDigits(s);
      assert ParseNumber(s) == Num(0 - DigitsValue(t));
    } else {
      DigitsOfNatToString(n);
      NatToStringDigits(n);
      assert s != "" && AllDigits(s);
    }
  }

  /** `Number("+" + String(n)) === n` for every natural `n`: a leading plus sign is accepted. */
  lemma ParsePlusSign(n: nat)
    ensures ParseNumber("+" + IntToString(n)) == Num(n)
  {
    var t := IntToString(n);
    DigitsOfNatToString(n);
    assert ("+" + t)[1..] == t;
    assert !IsDigit(("+" + t)[0]);
  }

  /** Distinct integers have distinct decimal renderings. */
  lemma IntToStringInjective(a: int, b: int)
    ensures IntToString(a) == IntToString(b) <==> a == b
  {
    if IntToString(a) == IntToString(b) {
      NumberOfString(a);
      NumberOfString(b);
    }
  }

  // ---------------------------------------------------------------------
  // The relational operator `<` on two strings: code-unit lexicographic order

  predicate LexLess(a: string, b: string)
    decreases |a|
  {
    if b == [] then false
    else if a == [] then true
    else if a[0] != b[0] then a[0] < b[0]
    else LexLess(a[1..], b[1..])
  }

  lemma {:induction false} LexLessIrreflexive(a: string)
    ensures !LexLess(a, a)
    decreases |a|
  {
    if a != [] {
      LexLessIrreflexive(a[1..]);
    }
  }

  lemma {:induction false} LexLessTransitive(a: string, b: string, c: string)
    requires LexLess(a, b) && LexLess(b, c)
    ensures LexLess(a, c)
    decreases |a|
  {
    if a != [] && a[0] == b[0] && b[0] == c[0] {
      LexLessTransitive(a[1..], b[1..], c[1..]);
    }
  }

  lemma {:induction false} LexLessTotal(a: string, b: string)
    requires a != b
    ensures LexLess(a, b) || LexLess(b, a)
    decreases |a|
  {
    if a != [] && b != [] && a[0] == b[0] {
      assert a == [a[0]] + a[1..] && b == [b[0]] + b[1..];
      LexLessTotal(a[1..], b[1..]);
    }
  }

  lemma {:induction false} LexLessAsymmetric(a: string, b: string)
    requires LexLess(a, b)
    ensures !LexLess(b, a)
    decreases |a|
  {
    if a != [] && a[0] == b[0] {
      LexLessAsymmetric(a[1..], b[1..]);
    }
  }
}
