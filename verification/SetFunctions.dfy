/** SQL's set functions and the accumulators that compute them. */
module SetFunctions {
  import opened Bson
  import opened Sql
  import M = Mongo
  import Select
  import Seqs

  // ----- set functions (ISO/IEC 9075:1992, 6.5) -----

  function IsValue(): Value -> bool {
    (v: Value) => v != Null
  }

  /** NULLs are eliminated before anything is computed. */
  function NonNulls(vs: seq<Value>): seq<Value> {
    Seqs.Filter(IsValue(), vs)
  }

  function Considered(distinct: bool, vs: seq<Value>): seq<Value> {
    if distinct then Seqs.Distinct(NonNulls(vs)) else NonNulls(vs)
  }

  function Total(vs: seq<Value>): real {
    if vs == [] then 0.0 else (if vs[0].Num? then vs[0].n else 0.0) + Total(vs[1..])
  }

  /** No value lies beyond m. */
  predicate IsExtreme(least: bool, m: Value, vs: seq<Value>) {
    m in vs && forall v :: v in vs ==> if least then !Less(v, m) else !Less(m, v)
  }

  ghost function ExtremeOf(least: bool, vs: seq<Value>): (m: Value)
    requires vs != [] && AllScalar(vs)
    ensures IsExtreme(least, m, vs)
  {
    ExtremeExists(least, vs);
    var m :| IsExtreme(least, m, vs);
    m
  }

  predicate AllScalar(vs: seq<Value>) {
    forall v :: v in vs ==> IsScalar(v)
  }

  /** SUM and AVG take numbers, MIN and MAX values of one type. */
  predicate SetSafe(f: AggFunc, vs: seq<Value>) {
    AllScalar(vs)
    && (f == Sum || f == Avg ==> forall v :: v in vs ==> v.Null? || v.Num?)
    && (f == Min || f == Max ==> forall v, w :: v in vs && w in vs && v != Null && w != Null ==> SameType(v, w))
  }

  ghost function SqlSet(f: AggFunc, distinct: bool, vs: seq<Value>): Value
    requires AllScalar(vs)
  {
    var d := Considered(distinct, vs);
    if f == Count then Num(|d| as real)
    else if d == [] then Null
    else
      match f
      case Sum => Num(Total(d))
      case Avg => Num(Over(Total(d), |d| as real))
      case Min => ExtremeOf(true, d)
      case Max => ExtremeOf(false, d)
      case Count => Null
  }

  lemma {:induction false} ExtremeExists(least: bool, vs: seq<Value>)
    requires vs != [] && AllScalar(vs)
    ensures exists m :: IsExtreme(least, m, vs)
  {
    if |vs| == 1 {
      LessTrichotomy(vs[0], vs[0]);
      assert IsExtreme(least, vs[0], vs);
    } else {
      ExtremeExists(least, vs[1..]);
      var m :| IsExtreme(least, m, vs[1..]);
      var x := vs[0];
      assert forall v :: v in vs ==> v == x || v in vs[1..];
      LessTrichotomy(x, x);
      LessTrichotomy(x, m);
      if (if least then Less(x, m) else Less(m, x)) {
        ExtremeBeyond(least, x, m, vs);
      } else {
        assert IsExtreme(least, m, vs);
      }
    }
  }

  lemma {:induction false} ExtremeBeyond(least: bool, x: Value, m: Value, vs: seq<Value>)
    requires |vs| > 1 && x == vs[0] && AllScalar(vs) && IsExtreme(least, m, vs[1..])
    requires if least then Less(x, m) else Less(m, x)
    ensures IsExtreme(least, x, vs)
  {
    forall v | v in vs
      ensures if least then !Less(v, x) else !Less(x, v)
    {
      LessTrichotomy(x, x);
      if v != x {
        assert v in vs[1..];
        if least && Less(v, x) { LessTransitive(v, x, m); }
        if !least && Less(x, v) { LessTransitive(m, x, v); }
      }
    }
  }

  lemma {:induction false} ExtremeUnique(least: bool, a: Value, b: Value, vs: seq<Value>)
    requires AllScalar(vs) && IsExtreme(least, a, vs) && IsExtreme(least, b, vs)
    ensures a == b
  {
    LessTrichotomy(a, b);
  }

  // ----- accumulators over values that may be absent -----

  /** What a $group reads for the values SQL sees: NULL may be absent. */
  predicate Reads(ms: seq<Value>, vs: seq<Value>) {
    |ms| == |vs| && forall i :: 0 <= i < |vs| ==> NullOf(ms[i]) == vs[i]
  }

  lemma {:induction false} ReadsItself(vs: seq<Value>)
    requires AllScalar(vs)
    ensures Reads(vs, vs)
  {
    forall i | 0 <= i < |vs|
      ensures NullOf(vs[i]) == vs[i]
    {
      assert vs[i] in vs;
    }
  }

  lemma {:induction false} SumAgrees(ms: seq<Value>, vs: seq<Value>)
    requires Reads(ms, vs) && SetSafe(Sum, vs)
    ensures M.SumNums(ms) == Total(NonNulls(vs))
    ensures M.CountNums(ms) == |NonNulls(vs)|
  {
    if vs != [] {
      assert vs[0] in vs;
      SumAgrees(ms[1..], vs[1..]);
      assert NonNulls(vs) == (if vs[0] != Null then [vs[0]] else []) + NonNulls(vs[1..]);
    }
  }

  lemma {:induction false} ExtremeAgrees(least: bool, ms: seq<Value>, vs: seq<Value>)
    requires Reads(ms, vs) && AllScalar(vs)
    ensures NonNulls(vs) == [] ==> M.Extreme(least, ms) == Null
    ensures NonNulls(vs) != [] ==> IsExtreme(least, M.Extreme(least, ms), NonNulls(vs))
  {
    if vs != [] {
      assert vs[0] in vs;
      ExtremeAgrees(least, ms[1..], vs[1..]);
      var rest := NonNulls(vs[1..]);
      assert NonNulls(vs) == (if vs[0] != Null then [vs[0]] else []) + rest;
      if vs[0] != Null {
        LessTrichotomy(vs[0], vs[0]);
        if rest != [] {
          var m := M.Extreme(least, ms[1..]);
          assert m in vs[1..];
          ExtremeStep(least, vs[0], m, rest);
          assert NonNulls(vs) == [vs[0]] + rest;
        }
      }
    }
  }

  lemma {:induction false} ExtremeStep(least: bool, x: Value, m: Value, rest: seq<Value>)
    requires IsScalar(x) && AllScalar(rest) && IsExtreme(least, m, rest)
    ensures IsExtreme(least, if (if least then Less(x, m) else Less(m, x)) then x else m, [x] + rest)
  {
    var all := [x] + rest;
    LessTrichotomy(x, x);
    LessTrichotomy(x, m);
    if if least then Less(x, m) else Less(m, x) {
      assert all[1..] == rest;
      ExtremeBeyond(least, x, m, all);
    }
  }

  function FolderOf(f: AggFunc): M.AccFunc {
    match f
    case Count => M.AccSum
    case Sum => M.AccSum
    case Avg => M.AccAvg
    case Min => M.AccMin
    case Max => M.AccMax
  }

  /** SUM, AVG, MIN and MAX are what their accumulators compute. */
  lemma {:induction false} AccumulatorAgrees(f: AggFunc, ms: seq<Value>, vs: seq<Value>)
    requires f != Count && Reads(ms, vs) && SetSafe(f, vs)
    requires f == Sum ==> NonNulls(vs) != []
    ensures M.Folded(FolderOf(f), ms) == SqlSet(f, false, vs)
  {
    match f
    case Sum => SumAgrees(ms, vs);
    case Avg => SumAgrees(ms, vs);
    case Min => MinMaxAgrees(true, ms, vs);
    case Max => MinMaxAgrees(false, ms, vs);
  }

  lemma {:induction false} MinMaxAgrees(least: bool, ms: seq<Value>, vs: seq<Value>)
    requires Reads(ms, vs) && AllScalar(vs)
    ensures M.Extreme(least, ms) == SqlSet(if least then Min else Max, false, vs)
  {
    ExtremeAgrees(least, ms, vs);
    if NonNulls(vs) != [] {
      ExtremeUnique(least, M.Extreme(least, ms), ExtremeOf(least, NonNulls(vs)), NonNulls(vs));
    }
  }

  /** $sum is SQL's SUM exactly when some value is not NULL; otherwise it gives 0 for NULL. */
  lemma {:induction false} SumExactly(ms: seq<Value>, vs: seq<Value>)
    requires Reads(ms, vs) && SetSafe(Sum, vs)
    ensures M.Folded(M.AccSum, ms) == SqlSet(Sum, false, vs) <==> NonNulls(vs) != []
  {
    SumAgrees(ms, vs);
  }

  /** COUNT adds up a one for each value and a zero for each NULL. */
  lemma {:induction false} CountAgrees(ones: seq<Value>, vs: seq<Value>)
    requires |ones| == |vs| && AllScalar(vs)
    requires forall i :: 0 <= i < |vs| ==> ones[i] == Num(if vs[i] == Null then 0.0 else 1.0)
    ensures M.SumNums(ones) == |NonNulls(vs)| as real
  {
    if vs != [] {
      CountAgrees(ones[1..], vs[1..]);
      assert NonNulls(vs) == (if vs[0] != Null then [vs[0]] else []) + NonNulls(vs[1..]);
    }
  }

  // ----- DISTINCT: a set of values, reduced after NULL is taken out -----

  lemma {:induction false} PresentNonNulls(ms: seq<Value>, vs: seq<Value>)
    requires Reads(ms, vs)
    ensures NonNulls(Seqs.Filter(M.NotMissing(), ms)) == NonNulls(vs)
  {
    if vs != [] {
      PresentNonNulls(ms[1..], vs[1..]);
      var rest := Seqs.Filter(M.NotMissing(), ms[1..]);
      if ms[0] != Missing {
        assert ([ms[0]] + rest)[1..] == rest;
      }
    }
  }

  /** The set collected, without NULL, holds the distinct values SQL considers. */
  lemma {:induction false} DistinctValues(ms: seq<Value>, vs: seq<Value>)
    requires Reads(ms, vs)
    ensures M.Folded(M.AddToSet, ms).Arr?
    ensures NonNulls(M.Folded(M.AddToSet, ms).items) == Considered(true, vs)
  {
    PresentNonNulls(ms, vs);
    Seqs.DistinctFilter(IsValue(), Seqs.Filter(M.NotMissing(), ms));
  }

  lemma {:induction false} ConsideredSafe(f: AggFunc, vs: seq<Value>)
    requires SetSafe(f, vs)
    ensures SetSafe(f, Considered(true, vs)) && NonNulls(Considered(true, vs)) == Considered(true, vs)
  {
    AllKept(Considered(true, vs));
  }

  lemma {:induction false} AllKept(vs: seq<Value>)
    requires Null !in vs
    ensures NonNulls(vs) == vs
  {
    if vs != [] {
      AllKept(vs[1..]);
      assert vs == [vs[0]] + vs[1..];
    }
  }

  /** Reducing the distinct values gives the DISTINCT aggregate. */
  lemma {:induction false} DistinctAgrees(f: AggFunc, vs: seq<Value>)
    requires SetSafe(f, vs) && (f == Sum ==> NonNulls(vs) != [])
    ensures M.Reduced(Select.ReducerOf(f), Ok(Arr(Considered(true, vs)))) == Ok(SqlSet(f, true, vs))
  {
    var d := Considered(true, vs);
    ConsideredSafe(f, vs);
    if f != Count {
      if f == Sum {
        assert NonNulls(vs)[0] in d;
      }
      ReadsItself(d);
      AccumulatorAgrees(f, d, d);
    }
  }

  // ----- $addToSet promises no order: none is needed -----

  lemma {:induction false} SumOrderFree(a: seq<Value>, b: seq<Value>)
    requires multiset(a) == multiset(b)
    ensures M.SumNums(a) == M.SumNums(b) && M.CountNums(a) == M.CountNums(b)
    decreases |a|
  {
    if a == [] {
      assert |multiset(b)| == 0;
    } else {
      var i := Seqs.TakeOutSame(a, b);
      Seqs.TakeOut(a, 0);
      SumOrderFree(Seqs.RemoveAt(a, 0), Seqs.RemoveAt(b, i));
      SumTakeOut(b, i);
    }
  }

  lemma {:induction false} SumTakeOut(b: seq<Value>, i: nat)
    requires i < |b|
    ensures M.SumNums(b) == (if b[i].Num? then b[i].n else 0.0) + M.SumNums(Seqs.RemoveAt(b, i))
    ensures M.CountNums(b) == (if b[i].Num? then 1 else 0) + M.CountNums(Seqs.RemoveAt(b, i))
  {
    if i > 0 {
      SumTakeOut(b[1..], i - 1);
      assert ([b[0]] + Seqs.RemoveAt(b[1..], i - 1))[1..] == Seqs.RemoveAt(b[1..], i - 1);
    }
  }

  lemma {:induction false} SameMembers(a: seq<Value>, b: seq<Value>)
    requires multiset(a) == multiset(b)
    ensures |a| == |b| && forall x :: x in a <==> x in b
  {
    assert |a| == |multiset(a)| == |multiset(b)| == |b|;
    forall x
      ensures x in a <==> x in b
    {
      assert x in a <==> x in multiset(a);
      assert x in b <==> x in multiset(b);
    }
  }

  lemma {:induction false} ExtremeOrderFree(least: bool, a: seq<Value>, b: seq<Value>)
    requires AllScalar(a) && AllScalar(b) && Null !in a && Null !in b && |a| == |b|
    requires forall x :: x in a <==> x in b
    ensures M.Extreme(least, a) == M.Extreme(least, b)
  {
    AllKept(a);
    AllKept(b);
    ReadsItself(a);
    ReadsItself(b);
    ExtremeAgrees(least, a, a);
    ExtremeAgrees(least, b, b);
    if a != [] {
      ExtremeUnique(least, M.Extreme(least, a), M.Extreme(least, b), a);
    }
  }

  /** Any two arrangements of the same values reduce alike. */
  lemma {:induction false} ReduceOrderFree(f: AggFunc, a: seq<Value>, b: seq<Value>)
    requires multiset(a) == multiset(b) && AllScalar(a) && Null !in a
    ensures M.Reduced(Select.ReducerOf(f), Ok(Arr(a))) == M.Reduced(Select.ReducerOf(f), Ok(Arr(b)))
  {
    SameMembers(a, b);
    SumOrderFree(a, b);
    ExtremeOrderFree(true, a, b);
    ExtremeOrderFree(false, a, b);
  }
}
