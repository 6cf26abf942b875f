/** The rest of an aggregate statement: ORDER BY, LIMIT and the final projection (render_aggregate.go). */
module Render {
  import opened Wrappers
  import opened Bson
  import opened Sql
  import opened Compiler
  import Source
  import opened Select
  import Stages
  import M = Mongo

  datatype AggregateStmt = AggregateStmt(collection: string, pipeline: seq<M.Stage>, empty: bool)

  // ----- ORDER BY -----

  function RawExpr(item: SelectItem): Expr {
    match item
    case FieldItem(q, n, _) => Col(q, n)
    case AggItem(spec, _) => Agg(spec)
    case ExprItem(e, _) => e
  }

  /** The alias of the first item that is the expression ordered by; "" if there is none. */
  function AliasFor(e: Expr, items: seq<SelectItem>): string {
    if items == [] then ""
    else if items[0].alias != "" && RawExpr(items[0]) == e then items[0].alias
    else AliasFor(e, items[1..])
  }

  method FindExprAlias(e: Expr, items: seq<SelectItem>) returns (alias: string)
    ensures alias == AliasFor(e, items)
  {
    for i := 0 to |items|
      invariant AliasFor(e, items) == AliasFor(e, items[i..])
    {
      assert items[i..][1..] == items[i + 1..];
      if items[i].alias != "" && RawExpr(items[i]) == e { return items[i].alias; }
    }
    return "";
  }

  function OrderPath(e: Expr, items: seq<SelectItem>, main: string): Result<string> {
    if e.Col? then Success(PathOf(e.qual, e.name, main))
    else
      var alias := AliasFor(e, items);
      if alias == "" then Failure("ORDER BY expression must have an alias in SELECT list") else Success(alias)
  }

  /** The keys as written. The $sort takes them from a map, which keeps the order of at most one. */
  function OrderKeys(orders: seq<Order>, items: seq<SelectItem>, main: string): Result<seq<M.SortKey>> {
    if orders == [] then Success([])
    else
      var n := |orders| - 1;
      var before :- OrderKeys(orders[..n], items, main);
      var path :- OrderPath(orders[n].e, items, main);
      Success(before + [M.SortKey(path, orders[n].descending)])
  }

  // ----- the final projection -----

  function Leaf(path: string): string {
    if '.' !in path then path else Leaf(path[FirstDot(path) + 1..])
  }

  function Underscored(path: string): (r: string)
    ensures DotFree(r) && |r| == |path|
  {
    if path == [] then [] else [if path[0] == '.' then '_' else path[0]] + Underscored(path[1..])
  }

  /** A column's output name, given the names already taken. */
  function FieldName(path: string, alias: string, taken: set<string>): string {
    var name := if alias != "" then alias else Leaf(path);
    if name in taken && name != "_id" then Underscored(path) else name
  }

  /** In a $project a number or a boolean does not stand for itself: it includes or excludes. */
  function AsProjected(e: M.MExpr): M.Projected {
    match e
    case Const(v) =>
      if v == Num(0.0) || v == Bool(false) then M.Exclude
      else if v.Num? || v.Bool? then M.Include
      else M.Computed(e)
    case _ => M.Computed(e)
  }

  datatype Final = Final(spec: map<string, M.Projected>, names: seq<string>, askedForId: bool)

  function FinalStep(f: Final, item: SelectItem, main: string, print_: Expr -> string): Result<Final> {
    match item
    case FieldItem(q, c, alias) =>
      var path := PathOf(q, c, main);
      var name := FieldName(path, alias, f.spec.Keys);
      Success(Final(f.spec[name := if name == path then M.Include else M.Computed(Ref(path))],
                    f.names + [name], f.askedForId || name == "_id"))
    case ExprItem(e, alias) =>
      var compiled :- ToAgg(e, main);
      var name := if alias != "" then alias else print_(e);
      Success(Final(f.spec[name := AsProjected(compiled)], f.names + [name], f.askedForId))
    case AggItem(_, _) => Failure("unsupported select expression in aggregate")
  }

  /** The projection of a select list and its output names. `print_` writes an expression as text. */
  function FinalOf(items: seq<SelectItem>, main: string, print_: Expr -> string): Result<Final> {
    if items == [] then Success(Final(map["_id" := M.Exclude], [], false))
    else
      var f :- FinalOf(items[..|items| - 1], main, print_);
      FinalStep(f, items[|items| - 1], main, print_)
  }

  /** `_id` is kept by not being mentioned. */
  function FinalSpec(f: Final): map<string, M.Projected> {
    if f.askedForId then f.spec - {"_id"} else f.spec
  }

  lemma {:induction false} FinalFails(items: seq<SelectItem>, i: nat, main: string, print_: Expr -> string)
    requires i <= |items| && FinalOf(items[..i], main, print_).Failure?
    ensures FinalOf(items, main, print_).Failure?
    decreases |items| - i
  {
    if i == |items| {
      assert items[..i] == items;
    } else {
      assert items[..i + 1][..i] == items[..i];
      FinalFails(items, i + 1, main, print_);
    }
  }

  lemma {:induction false} FinalNext(items: seq<SelectItem>, i: nat, main: string, print_: Expr -> string)
    requires i < |items| && FinalOf(items[..i], main, print_).Success?
    ensures FinalOf(items[..i + 1], main, print_) == FinalStep(FinalOf(items[..i], main, print_).value, items[i], main, print_)
  {
    assert items[..i + 1][..i] == items[..i];
  }

  lemma {:induction false} FinalStops(items: seq<SelectItem>, i: nat, main: string, print_: Expr -> string)
    requires i < |items| && FinalOf(items[..i], main, print_).Success?
    requires items[i].AggItem? || (items[i].ExprItem? && ToAgg(items[i].e, main).Failure?)
    ensures FinalOf(items, main, print_).Failure?
  {
    FinalNext(items, i, main, print_);
    FinalFails(items, i + 1, main, print_);
  }

  /** The loop over the select list. */
  method BuildProjection(items: seq<SelectItem>, main: string, print_: Expr -> string)
    returns (r: Result<map<string, M.Projected>>)
    ensures FinalOf(items, main, print_).Success? ==> r == Success(FinalSpec(FinalOf(items, main, print_).value))
    ensures FinalOf(items, main, print_).Failure? ==> r.Failure?
  {
    var project: map<string, M.Projected> := map["_id" := M.Exclude];
    var askedForId := false;
    ghost var names: seq<string> := [];
    for i := 0 to |items|
      invariant FinalOf(items[..i], main, print_) == Success(Final(project, names, askedForId))
    {
      FinalNext(items, i, main, print_);
      match items[i] {
        case FieldItem(q, c, alias) =>
          var path := PathOf(q, c, main);
          var outName := if alias != "" then alias else Leaf(path);
          if outName in project && outName != "_id" { outName := Underscored(path); }
          project := project[outName := if outName == path then M.Include else M.Computed(Ref(path))];
          if outName == "_id" { askedForId := true; }
          names := names + [outName];
        case ExprItem(e, alias) =>
          var compiled := ToAgg(e, main);
          if compiled.Failure? {
            FinalStops(items, i, main, print_);
            return Failure(compiled.msg);
          }
          var outName := if alias != "" then alias else print_(e);
          project := project[outName := AsProjected(compiled.value)];
          names := names + [outName];
        case AggItem(_, _) =>
          FinalStops(items, i, main, print_);
          return Failure("unsupported select expression in aggregate");
      }
    }
    assert items[..|items|] == items;
    return Success(if askedForId then project - {"_id"} else project);
  }

  // ----- the statement -----

  function LimitOf(q: Query): nat {
    if q.limit.Some? && q.limit.value.count.Some? then q.limit.value.count.value else 0
  }

  function OffsetOf(q: Query): nat {
    if q.limit.Some? then q.limit.value.offset else 0
  }

  /** A select list of columns and expressions is projected last; aggregates and * are not. */
  predicate ProjectsLast(q: Query) {
    var plan := PlanItemsOf(q.exprs);
    !plan.hasAgg && GroupExprs(q) == [] && !plan.hasStar && plan.items != []
  }

  function LastStages(q: Query, main: string, print_: Expr -> string): Result<seq<M.Stage>> {
    if ProjectsLast(q) then
      var f :- FinalOf(PlanItemsOf(q.exprs).items, main, print_);
      Success([M.Project(FinalSpec(f))])
    else Success([])
  }

  function BuildAggregate(q: Query, print_: Expr -> string): Result<AggregateStmt> {
    var p :- Source.ExtractFromPlan(q.from);
    if q.limit.Some? && q.limit.value.count == Some(0) then Success(AggregateStmt(p.main.collection, [], true))
    else
      var rows :- RowsPipeline(q);
      var keys :- OrderKeys(q.orderBy, PlanItemsOf(q.exprs).items, p.main.alias);
      var last :- LastStages(q, p.main.alias, print_);
      Success(AggregateStmt(p.main.collection, rows + Stages.Tail(keys, OffsetOf(q), LimitOf(q)) + last, false))
  }

  /** The documents of a statement; a statement marked empty is not run. */
  function StatementDocs(s: AggregateStmt, db: M.Database): seq<Document> {
    if s.empty then [] else M.Run(s.pipeline, M.Collection(db, s.collection), db)
  }
}
