/** Planning a SELECT and rendering its aggregation stages (items.go, plan.go, render_aggregate.go). */
module Select {
  import opened Wrappers
  import opened Bson
  import opened Sql
  import opened Compiler
  import opened Source
  import W = Where
  import M = Mongo

  // ----- the parsed statement -----

  datatype SelectExpr = Star | Aliased(e: Expr, alias: string)

  datatype Order = Order(e: Expr, descending: bool)

  datatype LimitClause = LimitClause(count: Option<nat>, offset: nat)

  datatype Query = Query(
    distinct: bool, exprs: seq<SelectExpr>, from: TableExpr, where_: Option<Expr>,
    groupBy: Option<seq<Expr>>, having: Option<Expr>, orderBy: seq<Order>, limit: Option<LimitClause>)

  // ----- the select list -----

  datatype SelectItem =
    | FieldItem(qual: string, name: string, alias: string)
    | AggItem(spec: AggSpec, alias: string)
    | ExprItem(e: Expr, alias: string)

  function PlanItem(e: Expr, alias: string): SelectItem {
    match e
    case Agg(spec) => AggItem(spec, alias)
    case Col(q, n) => FieldItem(q, n, alias)
    case _ => ExprItem(e, alias)
  }

  datatype Items = Items(items: seq<SelectItem>, hasStar: bool, hasAgg: bool, hasExpr: bool)

  function PlanItemsOf(exprs: seq<SelectExpr>): Items {
    if exprs == [] then Items([], false, false, false)
    else
      var n := |exprs| - 1;
      var p := PlanItemsOf(exprs[..n]);
      match exprs[n]
      case Star => p.(hasStar := true)
      case Aliased(e, a) =>
        var item := PlanItem(e, a);
        Items(p.items + [item], p.hasStar, p.hasAgg || item.AggItem?, p.hasExpr || item.ExprItem?)
  }

  /** The loop over the select list, with its flags. */
  method PlanSelectItems(exprs: seq<SelectExpr>)
    returns (items: seq<SelectItem>, hasStar: bool, hasAgg: bool, hasExpr: bool)
    ensures Items(items, hasStar, hasAgg, hasExpr) == PlanItemsOf(exprs)
    ensures hasAgg <==> exists i :: 0 <= i < |items| && items[i].AggItem?
    ensures |items| <= |exprs|
  {
    items, hasStar, hasAgg, hasExpr := [], false, false, false;
    for i := 0 to |exprs|
      invariant Items(items, hasStar, hasAgg, hasExpr) == PlanItemsOf(exprs[..i])
      invariant hasAgg <==> exists k :: 0 <= k < |items| && items[k].AggItem?
      invariant |items| <= i
    {
      assert exprs[..i + 1][..i] == exprs[..i];
      match exprs[i]
      case Star => hasStar := true;
      case Aliased(e, a) =>
        var item := PlanItem(e, a);
        ghost var before := items;
        match item {
          case AggItem(_, _) => hasAgg := true;
          case FieldItem(_, _, _) =>
          case ExprItem(_, _) => hasExpr := true;
        }
        items := items + [item];
        assert items[|before|] == item;
        assert forall k :: 0 <= k < |before| ==> items[k] == before[k];
    }
    assert exprs[..|exprs|] == exprs;
  }

  // ----- names, accumulators, defaults -----

  function FuncText(f: AggFunc): string {
    match f
    case Count => "count"
    case Sum => "sum"
    case Avg => "avg"
    case Min => "min"
    case Max => "max"
  }

  function AggResultName(spec: AggSpec, alias: string, main: string): string {
    if alias != "" then alias
    else
      match spec
      case CountStar => "count_star"
      case AggOf(f, _, arg) =>
        if arg.Col? then FuncText(f) + "_" + PathOf(arg.qual, arg.name, main) else FuncText(f) + "_expr"
  }

  function AccumulatorFor(spec: AggSpec, main: string): Result<M.Accumulator> {
    match spec
    case CountStar => Success(M.Accumulator(M.AccSum, IntConst(1)))
    case AggOf(f, distinct, arg) =>
      var a :- ToAgg(arg, main);
      if distinct then Success(M.Accumulator(M.AddToSet, a))
      else
        match f
        case Count => Success(M.Accumulator(M.AccSum, CountArg(a)))
        case Sum => Success(M.Accumulator(M.AccSum, a))
        case Avg => Success(M.Accumulator(M.AccAvg, a))
        case Min => Success(M.Accumulator(M.AccMin, a))
        case Max => Success(M.Accumulator(M.AccMax, a))
  }

  /** 1 for a value, 0 for NULL and for an absent field. */
  function CountArg(a: M.MExpr): M.MExpr {
    M.Cond(M.MCompare(M.CEq, M.IfNull(M.MCons(a, M.MCons(M.Const(Null), M.MNil))), M.Const(Null)),
           IntConst(0), IntConst(1))
  }

  predicate IsDistinct(spec: AggSpec) {
    spec.AggOf? && spec.distinct
  }

  /** A DISTINCT aggregate's set of values, without NULL, reduced. */
  function DistinctProjection(f: AggFunc, name: string): M.Projected {
    var list := M.FilterList(M.Const(Str("$" + name)), "v",
                             M.MCompare(M.CNe, M.Const(Str("$$v")), M.Const(Null)));
    M.Computed(M.Reduce(ReducerOf(f), list))
  }

  function ReducerOf(f: AggFunc): M.Reducer {
    match f
    case Count => M.ToSize
    case Sum => M.ToSum
    case Avg => M.ToAvg
    case Min => M.ToMin
    case Max => M.ToMax
  }

  function ProjectionOf(spec: AggSpec, name: string): M.Projected {
    if IsDistinct(spec) then DistinctProjection(spec.func, name) else M.Include
  }

  /** What an aggregate yields over no rows. */
  function AggDefault(spec: AggSpec): Value {
    if spec.CountStar? || spec.func == Count then Num(0.0) else Null
  }

  // ----- grouping: which aggregate each output field holds -----

  /** Output fields and their aggregates, the field of each aggregate, the fields added by HAVING. */
  datatype GroupState = GroupState(outputs: map<string, AggSpec>, names: map<AggSpec, string>, hidden: seq<string>)

  function Accs(outputs: map<string, AggSpec>, main: string): map<string, M.Accumulator>
    requires forall n :: n in outputs ==> AccumulatorFor(outputs[n], main).Success?
  {
    map n | n in outputs :: AccumulatorFor(outputs[n], main).value
  }

  function Defaults(outputs: map<string, AggSpec>): map<string, Value> {
    map n | n in outputs :: AggDefault(outputs[n])
  }

  predicate AllCols(es: seq<Expr>) {
    forall e :: e in es ==> e.Col?
  }

  function IdFields(groupBy: seq<Expr>, main: string): map<string, M.MExpr>
    requires AllCols(groupBy)
  {
    if groupBy == [] then map[]
    else
      var c := groupBy[|groupBy| - 1];
      IdFields(groupBy[..|groupBy| - 1], main)[c.name := Ref(PathOf(c.qual, c.name, main))]
  }

  function IdOf(groupBy: seq<Expr>, main: string): M.GroupId
    requires AllCols(groupBy)
  {
    if groupBy == [] then M.NullId else M.DocId(IdFields(groupBy, main))
  }

  /** The group's columns are read back from the key document. */
  function KeyProjection(groupBy: seq<Expr>): map<string, M.Projected>
    requires AllCols(groupBy)
  {
    if groupBy == [] then map["_id" := M.Exclude]
    else
      var c := groupBy[|groupBy| - 1];
      KeyProjection(groupBy[..|groupBy| - 1])[c.name := M.Computed(Ref("_id." + c.name))]
  }

  function ProjectSpec(groupBy: seq<Expr>, outputs: map<string, AggSpec>): map<string, M.Projected>
    requires AllCols(groupBy)
  {
    KeyProjection(groupBy) + map n | n in outputs :: ProjectionOf(outputs[n], n)
  }

  /** The aggregates of the select list. */
  function SelectedState(items: seq<SelectItem>, main: string): Result<GroupState> {
    if items == [] then Success(GroupState(map[], map[], []))
    else
      var n := |items| - 1;
      var st :- SelectedState(items[..n], main);
      match items[n]
      case AggItem(spec, alias) =>
        var acc :- AccumulatorFor(spec, main);
        var name := AggResultName(spec, alias, main);
        Success(GroupState(st.outputs[name := spec], st.names[spec := name], []))
      case _ => Success(st)
  }

  // ----- HAVING -----

  function Digits(n: nat): string {
    if n < 10 then ["0123456789"[n]] else Digits(n / 10) + ["0123456789"[n % 10]]
  }

  function HiddenName(i: nat): string {
    "__hv_" + Digits(i)
  }

  function AddHidden(st: GroupState, spec: AggSpec): GroupState {
    var name := HiddenName(|st.hidden|);
    GroupState(st.outputs[name := spec], st.names[spec := name], st.hidden + [name])
  }

  datatype Rewritten<T> = Rewritten(e: T, st: GroupState)

  /** Replaces each aggregate by its output field, adding fields for those not selected. */
  function RewriteHaving(e: Expr, st: GroupState, main: string): Result<Rewritten<Expr>>
    decreases e
  {
    match e
    case Agg(spec) =>
      if spec in st.names then Success(Rewritten(Col("", st.names[spec]), st))
      else
        var acc :- AccumulatorFor(spec, main);
        var st' := AddHidden(st, spec);
        Success(Rewritten(Col("", st'.names[spec]), st'))
    case Col(_, _) => Success(Rewritten(e, st))
    case Lit(_) => Success(Rewritten(e, st))
    case BoolLit(_) => Success(Rewritten(e, st))
    case NullLit => Success(Rewritten(e, st))
    case Tuple(es) =>
      var r :- RewriteAll(es, st, main);
      Success(Rewritten(Tuple(r.e), r.st))
    case Unary(op, x) =>
      var r :- RewriteHaving(x, st, main);
      Success(Rewritten(Unary(op, r.e), r.st))
    case Binary(op, l, r) =>
      var a :- RewriteHaving(l, st, main);
      var b :- RewriteHaving(r, a.st, main);
      Success(Rewritten(Binary(op, a.e, b.e), b.st))
    case Compare(op, l, r) =>
      var a :- RewriteHaving(l, st, main);
      var b :- RewriteHaving(r, a.st, main);
      Success(Rewritten(Compare(op, a.e, b.e), b.st))
    case And(l, r) =>
      var a :- RewriteHaving(l, st, main);
      var b :- RewriteHaving(r, a.st, main);
      Success(Rewritten(And(a.e, b.e), b.st))
    case Or(l, r) =>
      var a :- RewriteHaving(l, st, main);
      var b :- RewriteHaving(r, a.st, main);
      Success(Rewritten(Or(a.e, b.e), b.st))
    case Not(x) =>
      var r :- RewriteHaving(x, st, main);
      Success(Rewritten(Not(r.e), r.st))
    case Is(x, op) =>
      var r :- RewriteHaving(x, st, main);
      Success(Rewritten(Is(r.e, op), r.st))
    case Between(b, x, f, t) =>
      var v :- RewriteHaving(x, st, main);
      var lo :- RewriteHaving(f, v.st, main);
      var hi :- RewriteHaving(t, lo.st, main);
      Success(Rewritten(Between(b, v.e, lo.e, hi.e), hi.st))
    case Case(b, ws) =>
      if b.Some? then
        var v :- RewriteHaving(b.value, st, main);
        var w :- RewriteWhens(ws, v.st, main);
        Success(Rewritten(Case(Some(v.e), w.e), w.st))
      else
        var w :- RewriteWhens(ws, st, main);
        Success(Rewritten(Case(None, w.e), w.st))
    case Func(f, es) =>
      var r :- RewriteAll(es, st, main);
      Success(Rewritten(Func(f, r.e), r.st))
  }

  function RewriteAll(es: Exprs, st: GroupState, main: string): Result<Rewritten<Exprs>>
    decreases es
  {
    match es
    case ENil => Success(Rewritten(ENil, st))
    case ECons(h, t) =>
      var a :- RewriteHaving(h, st, main);
      var b :- RewriteAll(t, a.st, main);
      Success(Rewritten(ECons(a.e, b.e), b.st))
  }

  function RewriteWhens(ws: Whens, st: GroupState, main: string): Result<Rewritten<Whens>>
    decreases ws
  {
    match ws
    case NoElse => Success(Rewritten(NoElse, st))
    case Else(x) =>
      var r :- RewriteHaving(x, st, main);
      Success(Rewritten(Else(r.e), r.st))
    case When(c, v, rest) =>
      var a :- RewriteHaving(c, st, main);
      var b :- RewriteHaving(v, a.st, main);
      var d :- RewriteWhens(rest, b.st, main);
      Success(Rewritten(When(a.e, b.e, d.e), d.st))
  }

  /** The grouping state after HAVING, and HAVING over the output fields. */
  datatype HavingPlan = HavingPlan(st: GroupState, pred: Option<Expr>)

  function PlanHaving(having: Option<Expr>, st: GroupState, main: string): Result<HavingPlan> {
    if having.None? then Success(HavingPlan(st, None))
    else
      var r :- RewriteHaving(having.value, st, main);
      Success(HavingPlan(r.st, Some(r.e)))
  }

  // ----- the grouping stages -----

  /** One row even over an empty input: the grouped row, or else the defaults. */
  function FacetStages(g: M.GroupSpec, project: map<string, M.Projected>, defaults: map<string, Value>): seq<M.Stage> {
    [M.Facet("__rows", [M.Group(g), M.Project(project)]),
     M.Project(PickSpec(defaults)),
     M.ReplaceRoot(M.Const(Str("$__row")))]
  }

  function PickSpec(defaults: map<string, Value>): map<string, M.Projected> {
    map["__row" := M.Computed(RowOrDefaults(defaults))]
  }

  function RowOrDefaults(defaults: map<string, Value>): M.MExpr {
    M.Cond(M.MCompare(M.CGt, M.Reduce(M.ToSize, M.Const(Str("$__rows"))), IntConst(0)),
           M.ElemAt(M.Const(Str("$__rows")), 0),
           M.Const(Doc(defaults)))
  }

  predicate AllAccumulate(outputs: map<string, AggSpec>, main: string) {
    forall n :: n in outputs ==> AccumulatorFor(outputs[n], main).Success?
  }

  function GroupingStages(groupBy: seq<Expr>, st: GroupState, main: string): seq<M.Stage>
    requires AllCols(groupBy) && AllAccumulate(st.outputs, main)
  {
    var g := M.GroupSpec(IdOf(groupBy, main), Accs(st.outputs, main));
    var project := ProjectSpec(groupBy, st.outputs);
    if groupBy == [] then FacetStages(g, project, Defaults(st.outputs))
    else [M.Group(g), M.Project(project)]
  }

  function DropSpec(hidden: seq<string>): map<string, M.Projected> {
    map n | n in hidden :: M.Exclude
  }

  /** The $match of HAVING, and a $project that drops the fields it added. */
  function HavingStages(h: HavingPlan): Result<seq<M.Stage>> {
    if h.pred.None? then Success([])
    else
      var f :- W.TranslateWhere(h.pred.value);
      Success([M.Match(f)] + if h.st.hidden == [] then [] else [M.Project(DropSpec(h.st.hidden))])
  }

  // ----- the whole pipeline -----

  function WhereStages(where_: Option<Expr>, main: string): Result<seq<M.Stage>> {
    if where_.None? then Success([])
    else
      var f :- W.TranslateWhere(W.Unqualify(where_.value, main));
      Success([M.Match(f)])
  }

  /** Everything from $match to the end of HAVING, for a query that groups. */
  function GroupedStages(groupBy: seq<Expr>, items: seq<SelectItem>, having: Option<Expr>, main: string): Result<seq<M.Stage>> {
    if !AllCols(groupBy) then Failure("GROUP BY supports column references only")
    else
      var st :- SelectedState(items, main);
      var h :- PlanHaving(having, st, main);
      if !AllAccumulate(h.st.outputs, main) then Failure("unsupported aggregate")
      else
        var hs :- HavingStages(h);
        Success(GroupingStages(groupBy, h.st, main) + hs)
  }

  function GroupExprs(q: Query): seq<Expr> {
    if q.groupBy.Some? then q.groupBy.value else []
  }

  /** The stages that make the rows of a query, before ORDER BY and LIMIT. */
  function RowsPipeline(q: Query): Result<seq<M.Stage>> {
    var p :- ExtractFromPlan(q.from);
    var joins :- JoinStages(p.joins, p.main.alias);
    var where_ :- WhereStages(q.where_, p.main.alias);
    var plan := PlanItemsOf(q.exprs);
    if !plan.hasAgg && GroupExprs(q) == [] then Success(joins + where_)
    else
      var grouped :- GroupedStages(GroupExprs(q), plan.items, q.having, p.main.alias);
      Success(joins + where_ + grouped)
  }
}
