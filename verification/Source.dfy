/** FROM clauses: the join plan (source.go) and its $lookup stages (render_aggregate.go). */
module Source {
  import opened Wrappers
  import opened Bson
  import opened Sql
  import opened Compiler
  import M = Mongo

  datatype JoinKind = InnerJoin | LeftJoin | RightJoin

  /** `Derived` stands for what is rejected: subqueries and other table expressions. */
  datatype TableExpr =
    | Table(collection: string, as_: Option<string>)
    | Join(kind: JoinKind, left: TableExpr, right: TableExpr, on: Option<Expr>)
    | Derived

  datatype SourceRef = SourceRef(collection: string, alias: string)

  datatype FieldRef = FieldRef(source: string, name: string)

  datatype JoinPlan =
    | EquiJoin(right: SourceRef, leftField: FieldRef, rightField: FieldRef, outer: bool)
    | OnJoin(right: SourceRef, on: Expr, outer: bool)

  datatype FromPlan = FromPlan(main: SourceRef, joins: seq<JoinPlan>)

  function SourceOf(t: TableExpr): Result<SourceRef> {
    match t
    case Table(c, a) => Success(SourceRef(c, if a.Some? then a.value else c))
    case _ => Failure("subqueries in FROM not supported")
  }

  function ExtractFromPlan(t: TableExpr): Result<FromPlan> {
    match t
    case Table(_, _) =>
      var s :- SourceOf(t);
      Success(FromPlan(s, []))
    case Derived => Failure("unsupported FROM clause")
    case Join(kind, l, r, on) =>
      var left :- ExtractFromPlan(l);
      if !r.Table? then Failure("only simple JOIN of a table is supported")
      else
        var right :- SourceOf(r);
        if kind == RightJoin then
          if left.joins != [] then Failure("RIGHT JOIN with more than two tables is not supported")
          else
            var j :- PlanJoin(on, right.alias, left.main, true);
            Success(FromPlan(right, [j]))
        else
          var j :- PlanJoin(on, left.main.alias, right, kind == LeftJoin);
          Success(FromPlan(left.main, left.joins + [j]))
  }

  function PlanJoin(on: Option<Expr>, main: string, right: SourceRef, outer: bool): Result<JoinPlan> {
    if on.None? then Failure("JOIN requires ON clause")
    else
      var fields := JoinFields(on.value, main, right.alias);
      Success(if fields.Success? then EquiJoin(right, fields.value.0, fields.value.1, outer)
              else OnJoin(right, on.value, outer))
  }

  /** The main and the joined side of `a.x = b.y`, whichever way round it is written. */
  function JoinFields(on: Expr, left: string, right: string): Result<(FieldRef, FieldRef)> {
    if !on.Compare? || on.cop != Eq then Failure("not an equi-join")
    else if !on.l.Col? || !on.r.Col? then Failure("JOIN ON must compare two columns for equi-join")
    else
      var l, r := FieldRef(on.l.qual, on.l.name), FieldRef(on.r.qual, on.r.name);
      if l.source == left && r.source == right then Success((l, r))
      else if r.source == left && l.source == right then Success((r, l))
      else if l.source == "" && r.source == right then Success((l, r))
      else if r.source == "" && l.source == right then Success((r, l))
      else Success((l, r))
  }

  // ----- stages -----

  function LeftVar(name: string): string {
    "left_" + name
  }

  /** The variables of a $lookup pipeline: one for each column that is not the joined table's. */
  function CollectLeft(e: Expr, main: string, right: string): map<string, M.MExpr> {
    match e
    case Col(q, n) => if q == right then map[] else map[LeftVar(n) := Ref(PathOf(q, n, main))]
    case Compare(_, l, r) => CollectLeft(l, main, right) + CollectLeft(r, main, right)
    case And(l, r) => CollectLeft(l, main, right) + CollectLeft(r, main, right)
    case Or(l, r) => CollectLeft(l, main, right) + CollectLeft(r, main, right)
    case Binary(_, l, r) => CollectLeft(l, main, right) + CollectLeft(r, main, right)
    case _ => map[]
  }

  /** The joined table's columns become fields, the others variables. */
  function JoinOn(e: Expr, right: string): Result<M.MExpr> {
    match e
    case Col(q, n) => Success(if q == right then Ref(n) else M.Const(Str("$$" + LeftVar(n))))
    case Compare(op, l, r) =>
      var a :- JoinOn(l, right);
      var b :- JoinOn(r, right);
      (match op
       case Eq => Success(M.MCompare(M.CEq, a, b))
       case Ne => Success(M.MCompare(M.CNe, a, b))
       case Lt => Success(M.MCompare(M.CLt, a, b))
       case Le => Success(M.MCompare(M.CLte, a, b))
       case Gt => Success(M.MCompare(M.CGt, a, b))
       case Ge => Success(M.MCompare(M.CGte, a, b))
       case _ => Failure("unsupported ON operator"))
    case And(l, r) =>
      var a :- JoinOn(l, right);
      var b :- JoinOn(r, right);
      Success(M.MAnd(a, b))
    case Or(l, r) =>
      var a :- JoinOn(l, right);
      var b :- JoinOn(r, right);
      Success(M.MOr(a, b))
    case Lit(l) => Success(M.Const(ToBson(LiteralValue(l))))
    case Binary(op, l, r) =>
      var a :- JoinOn(l, right);
      var b :- JoinOn(r, right);
      (match op
       case Plus => Success(M.MArith(M.Add, a, b))
       case Minus => Success(M.MArith(M.Subtract, a, b))
       case Mult => Success(M.MArith(M.Multiply, a, b))
       case Div => Success(M.MArith(M.Divide, a, b))
       case _ => Failure("unsupported binary op in ON"))
    case _ => Failure("unsupported expression in JOIN ON")
  }

  function LookupStage(j: JoinPlan, main: string): Result<M.Stage> {
    match j
    case EquiJoin(right, lf, rf, _) =>
      Success(M.Lookup(right.collection, lf.name, rf.name, right.alias))
    case OnJoin(right, on, _) =>
      var cond :- JoinOn(on, right.alias);
      Success(M.LookupWhere(right.collection, CollectLeft(on, main, right.alias), cond, right.alias))
  }

  function JoinStages(joins: seq<JoinPlan>, main: string): Result<seq<M.Stage>> {
    if joins == [] then Success([])
    else
      var n := |joins| - 1;
      var before :- JoinStages(joins[..n], main);
      var lookup :- LookupStage(joins[n], main);
      Success(before + [lookup, M.Unwind(joins[n].right.alias, joins[n].outer)])
  }

  /** The pipeline-building loop over the joins. */
  method AppendJoins(joins: seq<JoinPlan>, main: string) returns (r: Result<seq<M.Stage>>)
    ensures r == JoinStages(joins, main) || (r.Failure? && JoinStages(joins, main).Failure?)
  {
    var pipeline: seq<M.Stage> := [];
    for i := 0 to |joins|
      invariant JoinStages(joins[..i], main) == Success(pipeline)
    {
      assert joins[..i + 1][..i] == joins[..i];
      var lookup := LookupStage(joins[i], main);
      if lookup.Failure? {
        FailsFrom(joins, i + 1, main);
        return Failure(lookup.msg);
      }
      ghost var before := pipeline;
      var unwind := M.Unwind(joins[i].right.alias, joins[i].outer);
      pipeline := pipeline + [lookup.value];
      pipeline := pipeline + [unwind];
      assert pipeline == before + [lookup.value, unwind];
    }
    assert joins[..|joins|] == joins;
    return Success(pipeline);
  }

  lemma {:induction false} FailsFrom(joins: seq<JoinPlan>, i: nat, main: string)
    requires i <= |joins| && JoinStages(joins[..i], main).Failure?
    ensures JoinStages(joins, main).Failure?
    decreases |joins| - i
  {
    if i == |joins| {
      assert joins[..i] == joins;
    } else {
      assert joins[..i + 1][..i] == joins[..i];
      FailsFrom(joins, i + 1, main);
    }
  }
}
