/** BSON values, their order, and field paths. */
module Bson {

  /** `Missing` is what reading an absent field gives; stored documents hold none. */
  datatype Value =
    | Missing
    | Null
    | Bool(b: bool)
    | Num(n: real)
    | Str(s: string)
    | Arr(items: seq<Value>)
    | Doc(fields: map<string, Value>)

  type Document = map<string, Value>

  /** The outcome of an evaluation: a value, or a run-time error that aborts the query. */
  datatype Outcome = Ok(v: Value) | Err

  function NullOf(v: Value): Value {
    if v.Missing? then Null else v
  }

  function NullOfOutcome(r: Outcome): Outcome {
    match r
    case Ok(v) => Ok(NullOf(v))
    case Err => Err
  }

  /** The values a SQL column can hold. */
  predicate IsScalar(v: Value) {
    v.Null? || v.Bool? || v.Num? || v.Str?
  }

  // ----- order -----

  /** The position of a value's type in the BSON comparison order. */
  function Rank(v: Value): nat {
    match v
    case Missing => 0
    case Null => 1
    case Num(_) => 2
    case Str(_) => 3
    case Doc(_) => 4
    case Arr(_) => 5
    case Bool(_) => 6
  }

  predicate SameType(a: Value, b: Value) {
    Rank(a) == Rank(b)
  }

  predicate StrLess(a: string, b: string) {
    b != [] && (a == [] || a[0] < b[0] || (a[0] == b[0] && StrLess(a[1..], b[1..])))
  }

  /** BSON order on scalars; it crosses types, with NULL near the bottom. */
  predicate Less(a: Value, b: Value) {
    Rank(a) < Rank(b)
    || (a.Num? && b.Num? && a.n < b.n)
    || (a.Str? && b.Str? && StrLess(a.s, b.s))
    || (a.Bool? && b.Bool? && !a.b && b.b)
  }

  lemma {:induction false} StrLessTrichotomy(a: string, b: string)
    ensures StrLess(a, b) || a == b || StrLess(b, a)
    ensures !(StrLess(a, b) && StrLess(b, a))
    ensures !StrLess(a, a)
  {
    if a != [] {
      StrLessTrichotomy(a[1..], a[1..]);
    }
    if a != [] && b != [] && a[0] == b[0] {
      StrLessTrichotomy(a[1..], b[1..]);
      assert a == [a[0]] + a[1..];
      assert b == [b[0]] + b[1..];
    }
  }

  lemma {:induction false} StrLessTransitive(a: string, b: string, c: string)
    requires StrLess(a, b) && StrLess(b, c)
    ensures StrLess(a, c)
  {
    if a != [] && a[0] == b[0] == c[0] {
      StrLessTransitive(a[1..], b[1..], c[1..]);
    }
  }

  /** On scalars exactly one of less, equal, greater holds. */
  lemma {:induction false} LessTrichotomy(a: Value, b: Value)
    requires IsScalar(a) && IsScalar(b)
    ensures Less(a, b) || a == b || Less(b, a)
    ensures !(Less(a, b) && Less(b, a))
    ensures !Less(a, a)
  {
    if a.Str? && b.Str? {
      StrLessTrichotomy(a.s, b.s);
    }
    if a.Str? {
      StrLessTrichotomy(a.s, a.s);
    }
  }

  lemma {:induction false} LessTransitive(a: Value, b: Value, c: Value)
    requires Less(a, b) && Less(b, c)
    ensures Less(a, c)
  {
    if a.Str? && b.Str? && c.Str? {
      StrLessTransitive(a.s, b.s, c.s);
    }
  }

  // ----- field paths -----

  predicate DotFree(s: string) {
    '.' !in s
  }

  /** A usable field name: not empty, no dot, no leading dollar sign. */
  predicate GoodName(s: string) {
    s != [] && DotFree(s) && s[0] != '$'
  }

  function FirstDot(s: string): (k: nat)
    ensures k <= |s|
    ensures '.' !in s[..k]
    ensures k < |s| ==> s[k] == '.'
  {
    if s == [] || s[0] == '.' then 0 else 1 + FirstDot(s[1..])
  }

  /** Follows a dotted path through nested documents. */
  function Get(d: Document, path: string): Value
    decreases |path|
  {
    var k := FirstDot(path);
    if k == |path| then
      if path in d then d[path] else Missing
    else if path[..k] in d && d[path[..k]].Doc? then
      Get(d[path[..k]].fields, path[k + 1..])
    else
      Missing
  }

  lemma {:induction false} FirstDotAt(a: string, b: string)
    requires DotFree(a)
    ensures FirstDot(a) == |a|
    ensures FirstDot(a + "." + b) == |a|
  {
    var s := a + "." + b;
    var k := FirstDot(s);
    assert s[|a|] == '.';
    assert forall i :: 0 <= i < |a| ==> s[i] == a[i];
  }

  lemma {:induction false} GetName(d: Document, name: string)
    requires DotFree(name)
    ensures Get(d, name) == if name in d then d[name] else Missing
  {
    FirstDotAt(name, "");
  }

  lemma {:induction false} GetQualified(d: Document, q: string, name: string)
    requires DotFree(q) && DotFree(name)
    ensures Get(d, q + "." + name) ==
            if q in d && d[q].Doc? && name in d[q].fields then d[q].fields[name] else Missing
  {
    var path := q + "." + name;
    FirstDotAt(q, name);
    assert path[..|q|] == q;
    assert path[|q| + 1..] == name;
    if q in d && d[q].Doc? {
      GetName(d[q].fields, name);
    }
  }

  // ----- numbers -----

  predicate InInt64(i: int) {
    -0x8000_0000_0000_0000 <= i < 0x8000_0000_0000_0000
  }

  /** Truncation toward zero: Go's float-to-integer conversion and integer division. */
  function Trunc(x: real): int {
    if x >= 0.0 then x.Floor else -((-x).Floor)
  }

  // Named products and quotients keep nonlinear arithmetic out of the proofs.

  function Times(x: real, y: real): real {
    x * y
  }

  function Over(x: real, y: real): real
    requires y != 0.0
  {
    x / y
  }

  /** The remainder of truncated division; it has the sign of the dividend. */
  function Remainder(a: real, b: real): real
    requires b != 0.0
  {
    a - Times(b, Trunc(Over(a, b)) as real)
  }

  function AbsReal(x: real): real {
    if x < 0.0 then -x else x
  }

  function Pow10(d: nat): (r: real)
    ensures r >= 1.0
  {
    if d == 0 then 1.0 else Pow10(d - 1) * 10.0
  }

  lemma {:induction false} NotPositive(q: real, p: real)
    requires p > 0.0
    ensures q <= 0.0 ==> q * p <= 0.0
  {
  }

  lemma {:induction false} PositiveInverse(p: real)
    requires p > 0.0
    ensures Over(1.0, p) > 0.0
  {
    var q := 1.0 / p;
    assert q * p == 1.0;
    NotPositive(q, p);
  }

  /** Ten to any whole power. */
  function Tens(d: int): (r: real)
    ensures r > 0.0
  {
    if d >= 0 then Pow10(d)
    else
      PositiveInverse(Pow10(-d));
      Over(1.0, Pow10(-d))
  }
}
