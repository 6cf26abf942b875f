/** Output fields hold the aggregates of the group (render_aggregate.go). */
module Aggregates {
  import opened Bson
  import opened Sql
  import opened Compiler
  import opened ValueTheorem
  import opened JoinTheorem
  import opened Select
  import opened SetFunctions
  import M = Mongo
  import Seqs

  // ----- aggregates over the rows of a group -----

  function ArgReader(arg: Expr, main: string): Row -> Value {
    (row: Row) => var r := Eval(arg, EnvOf(row, main)); if r.Ok? then r.v else Null
  }

  function ArgsOf(arg: Expr, members: seq<Row>, main: string): seq<Value> {
    Seqs.Map(ArgReader(arg, main), members)
  }

  /** The value of an aggregate over a group. */
  ghost function SqlAgg(spec: AggSpec, members: seq<Row>, main: string): Value {
    match spec
    case CountStar => Num(|members| as real)
    case AggOf(f, distinct, arg) =>
      var vs := ArgsOf(arg, members, main);
      if AllScalar(vs) then SqlSet(f, distinct, vs) else Null
  }

  /** An argument that compiles, reads only columns of the row, and is safe for it. */
  predicate ArgSafe(arg: Expr, row: Row, main: string) {
    WellFormed(row, main) && GoodName(main)
    && (forall c :: c in Cols(arg) ==> Readable(row, main, c.0, c.1))
    && Safe(arg, EnvOf(row, main), DocOf(row, main), main)
    && Eval(arg, EnvOf(row, main)).Ok?
  }

  /** Arguments are safe and of a type the function takes; SUM sees a value that is not NULL. */
  predicate AggSafe(spec: AggSpec, members: seq<Row>, main: string) {
    spec.AggOf? ==>
      ToAgg(spec.arg, main).Success? && Plain(spec.arg)
      && (forall row :: row in members ==> ArgSafe(spec.arg, row, main))
      && var vs := ArgsOf(spec.arg, members, main);
         SetSafe(spec.func, vs) && (spec.func == Sum && members != [] ==> NonNulls(vs) != [])
  }

  lemma {:induction false} RowRepresents(row: Row, main: string, cols: set<(string, string)>)
    requires WellFormed(row, main) && GoodName(main)
    requires forall c :: c in cols ==> Readable(row, main, c.0, c.1)
    ensures Represents(DocOf(row, main), EnvOf(row, main), main, cols)
  {
    forall c | c in cols
      ensures ColumnAgrees(DocOf(row, main), EnvOf(row, main), main, c)
    {
      DocReads(row, main, c.0, c.1);
    }
  }

  lemma {:induction false} ArgRead(arg: Expr, row: Row, main: string)
    requires ToAgg(arg, main).Success? && Plain(arg) && ArgSafe(arg, row, main)
    ensures NullOfOutcome(M.Eval(ToAgg(arg, main).value, DocOf(row, main), map[])) == Ok(ArgReader(arg, main)(row))
  {
    RowRepresents(row, main, Cols(arg));
    ValueCorrect(arg, EnvOf(row, main), DocOf(row, main), main, map[]);
  }

  function DocReader(e: M.MExpr, main: string): Row -> Value {
    (row: Row) => M.ValueOf(e, DocOf(row, main), map[])
  }

  lemma {:induction false} DocsRead(e: M.MExpr, members: seq<Row>, main: string)
    ensures Seqs.Map(M.Reader(e), Seqs.Map(AsJoined(main), members)) == Seqs.Map(DocReader(e, main), members)
  {
    Seqs.MapMap(M.Reader(e), AsJoined(main), DocReader(e, main), members);
  }

  /** What a $group reads for an argument is what SQL sees, absent fields being NULL. */
  lemma {:induction false} ArgsRead(arg: Expr, members: seq<Row>, main: string)
    requires ToAgg(arg, main).Success? && Plain(arg)
    requires forall row :: row in members ==> ArgSafe(arg, row, main)
    ensures Reads(Seqs.Map(DocReader(ToAgg(arg, main).value, main), members), ArgsOf(arg, members, main))
  {
    var ms := Seqs.Map(DocReader(ToAgg(arg, main).value, main), members);
    forall i | 0 <= i < |members|
      ensures NullOf(ms[i]) == ArgsOf(arg, members, main)[i]
    {
      assert members[i] in members;
      ArgRead(arg, members[i], main);
    }
  }

  lemma {:induction false} Ones(members: seq<Row>, main: string)
    ensures M.SumNums(Seqs.Map(DocReader(IntConst(1), main), members)) == |members| as real
  {
    if members != [] {
      Ones(members[1..], main);
      assert DocReader(IntConst(1), main)(members[0]) == Num(1.0);
    }
  }

  lemma {:induction false} CountArgReads(arg: Expr, row: Row, main: string)
    requires ToAgg(arg, main).Success? && Plain(arg) && ArgSafe(arg, row, main)
    ensures DocReader(CountArg(ToAgg(arg, main).value), main)(row)
            == Num(if ArgReader(arg, main)(row) == Null then 0.0 else 1.0)
  {
    ArgRead(arg, row, main);
    CountArgEval(ToAgg(arg, main).value, DocOf(row, main));
  }

  lemma {:induction false} CountArgEval(a: M.MExpr, doc: Document)
    requires M.Eval(a, doc, map[]).Ok?
    ensures M.Eval(CountArg(a), doc, map[])
            == Ok(Num(if NullOf(M.Eval(a, doc, map[]).v) == Null then 0.0 else 1.0))
  {
    var rest := M.MCons(M.Const(Null), M.MNil);
    assert M.EvalIfNull(rest, doc, map[]) == Ok(Null);
    var n := M.IfNull(M.MCons(a, rest));
    assert M.Eval(n, doc, map[]) == M.EvalIfNull(M.MCons(a, rest), doc, map[]);
    assert M.Eval(M.MCompare(M.CEq, n, M.Const(Null)), doc, map[]) == M.Compare(M.CEq, M.Eval(n, doc, map[]), Ok(Null));
  }

  /** Without DISTINCT, the accumulator is the aggregate. */
  lemma {:induction false} PlainAggregate(spec: AggSpec, members: seq<Row>, main: string)
    requires !IsDistinct(spec) && AccumulatorFor(spec, main).Success? && AggSafe(spec, members, main) && members != []
    ensures M.Accumulated(AccumulatorFor(spec, main).value, Seqs.Map(AsJoined(main), members))
            == SqlAgg(spec, members, main)
  {
    var acc := AccumulatorFor(spec, main).value;
    DocsRead(acc.arg, members, main);
    if spec.CountStar? {
      Ones(members, main);
    } else {
      var vs := ArgsOf(spec.arg, members, main);
      if spec.func == Count {
        forall i | 0 <= i < |members|
          ensures Seqs.Map(DocReader(acc.arg, main), members)[i] == Num(if vs[i] == Null then 0.0 else 1.0)
        {
          assert members[i] in members;
          CountArgReads(spec.arg, members[i], main);
        }
        CountAgrees(Seqs.Map(DocReader(acc.arg, main), members), vs);
      } else {
        ArgsRead(spec.arg, members, main);
        AccumulatorAgrees(spec.func, Seqs.Map(DocReader(acc.arg, main), members), vs);
      }
    }
  }

  // ----- DISTINCT: $filter and a reducer in the $project -----

  lemma {:induction false} KeepsValue(v: Value, doc: Document)
    ensures M.Eval(M.MCompare(M.CNe, M.Const(Str("$$v")), M.Const(Null)), doc, map[]["v" := v]) == Ok(Bool(v != Null))
  {
    var vars := map["v" := v];
    assert "$$v"[2..] == "v" && map[]["v" := v] == vars;
    assert M.Eval(M.Const(Str("$$v")), doc, vars) == Ok(v);
  }

  lemma {:induction false} FilterEval(items: seq<Value>, doc: Document)
    ensures M.EvalFilter(items, "v", M.MCompare(M.CNe, M.Const(Str("$$v")), M.Const(Null)), doc, map[])
            == Ok(Arr(NonNulls(items)))
  {
    if items != [] {
      FilterEval(items[1..], doc);
      KeepsValue(items[0], doc);
    }
  }

  /** The list that a DISTINCT aggregate reduces. */
  function NonNullsOf(name: string): M.MExpr {
    M.FilterList(M.Const(Str("$" + name)), "v", M.MCompare(M.CNe, M.Const(Str("$$v")), M.Const(Null)))
  }

  lemma {:induction false} NonNullsRead(name: string, doc: Document, items: seq<Value>)
    requires GoodName(name) && name in doc && doc[name] == Arr(items)
    ensures M.Eval(NonNullsOf(name), doc, map[]) == Ok(Arr(NonNulls(items)))
  {
    GetName(doc, name);
    assert ("$" + name)[1..] == name;
    assert M.Eval(M.Const(Str("$" + name)), doc, map[]) == Ok(Arr(items));
    FilterEval(items, doc);
  }

  lemma {:induction false} DistinctEval(f: AggFunc, name: string, doc: Document, items: seq<Value>)
    requires GoodName(name) && name in doc && doc[name] == Arr(items)
    ensures M.ProjectedValue(DistinctProjection(f, name), name, doc)
            == var r := M.Reduced(ReducerOf(f), Ok(Arr(NonNulls(items)))); if r.Ok? then r.v else Missing
  {
    NonNullsRead(name, doc, items);
    assert M.Eval(M.Reduce(ReducerOf(f), NonNullsOf(name)), doc, map[]) == M.Reduced(ReducerOf(f), Ok(Arr(NonNulls(items))));
  }

  /** With DISTINCT, the projection of the set collected is the aggregate. */
  lemma {:induction false} DistinctAggregate(spec: AggSpec, name: string, doc: Document, members: seq<Row>, main: string)
    requires IsDistinct(spec) && AccumulatorFor(spec, main).Success? && AggSafe(spec, members, main) && members != []
    requires GoodName(name) && name in doc
    requires doc[name] == M.Accumulated(AccumulatorFor(spec, main).value, Seqs.Map(AsJoined(main), members))
    ensures M.ProjectedValue(DistinctProjection(spec.func, name), name, doc) == SqlAgg(spec, members, main)
  {
    var acc := AccumulatorFor(spec, main).value;
    var ms, vs := Seqs.Map(DocReader(acc.arg, main), members), ArgsOf(spec.arg, members, main);
    DocsRead(acc.arg, members, main);
    ArgsRead(spec.arg, members, main);
    DistinctValues(ms, vs);
    DistinctEval(spec.func, name, doc, M.Folded(M.AddToSet, ms).items);
    DistinctAgrees(spec.func, vs);
  }

  /** Either way, the projected output field holds the aggregate. */
  lemma {:induction false} OutputField(spec: AggSpec, name: string, doc: Document, members: seq<Row>, main: string)
    requires AccumulatorFor(spec, main).Success? && AggSafe(spec, members, main) && members != []
    requires GoodName(name) && name in doc
    requires doc[name] == M.Accumulated(AccumulatorFor(spec, main).value, Seqs.Map(AsJoined(main), members))
    ensures M.ProjectedValue(ProjectionOf(spec, name), name, doc) == SqlAgg(spec, members, main)
  {
    if IsDistinct(spec) {
      DistinctAggregate(spec, name, doc, members, main);
    } else {
      PlainAggregate(spec, members, main);
    }
  }

  /** The defaults are the aggregates over no rows. */
  lemma {:induction false} DefaultField(spec: AggSpec, main: string)
    ensures AggDefault(spec) == SqlAgg(spec, [], main)
  {
  }

  lemma {:induction false} AggregatePresent(spec: AggSpec, members: seq<Row>, main: string)
    ensures SqlAgg(spec, members, main) != Missing
  {
    if spec.AggOf? {
      var vs := ArgsOf(spec.arg, members, main);
      if AllScalar(vs) {
        var d := Considered(spec.distinct, vs);
        assert forall v :: v in d ==> v in vs;
      }
    }
  }
}
