/** Which expressions, predicates and FROM clauses are translated at all. */
module Accepted {
  import opened Wrappers
  import opened Sql
  import opened Compiler
  import opened Source
  import Select
  import W = Where
  import M = Mongo

  // ----- constants -----

  predicate FuncAccepts(f: FuncName, args: seq<GoVal>) {
    match f
    case FnIf => |args| >= 3 && !args[0].GStr?
    case FnNullIf => |args| >= 2 && IsNumber(args[0]) && IsNumber(args[1])
    case FnRound => |args| >= 1 && IsNumber(args[0])
    case FnMod => |args| >= 2
    case FnIfNull => true
    case FnCoalesce => true
  }

  /** A literal, a sign before a number or string, a list, a call of a known function or a comparison of numbers. */
  predicate StaticAccepts(e: Expr) {
    match e
    case Lit(_) => true
    case BoolLit(_) => true
    case NullLit => true
    case Tuple(es) => AllStatic(es)
    case Unary(op, x) =>
      op == UMinus && StaticAccepts(x)
      && StaticValue(x).Success? && (IsNumber(StaticValue(x).value) || StaticValue(x).value.GStr?)
    case Func(f, es) => AllStatic(es) && StaticValues(es).Success? && FuncAccepts(f, StaticValues(es).value)
    case Compare(_, l, r) =>
      StaticAccepts(l) && StaticAccepts(r)
      && StaticValue(l).Success? && StaticValue(r).Success? && IsNumber(StaticValue(l).value) && IsNumber(StaticValue(r).value)
    case _ => false
  }

  predicate AllStatic(es: Exprs) {
    match es
    case ENil => true
    case ECons(h, t) => StaticAccepts(h) && AllStatic(t)
  }

  lemma {:induction false} StaticExactly(e: Expr)
    ensures StaticValue(e).Success? <==> StaticAccepts(e)
    decreases e
  {
    match e
    case Tuple(es) => AllStaticExactly(es);
    case Unary(_, x) => StaticExactly(x);
    case Func(f, es) => AllStaticExactly(es);
    case Compare(_, l, r) => StaticExactly(l); StaticExactly(r);
    case _ =>
  }

  lemma {:induction false} AllStaticExactly(es: Exprs)
    ensures StaticValues(es).Success? <==> AllStatic(es)
    decreases es
  {
    if es.ECons? {
      StaticExactly(es.head);
      AllStaticExactly(es.tail);
    }
  }

  // ----- value expressions -----

  predicate IsString(e: Expr) {
    e.Lit? && e.lit.StrVal?
  }

  function CountOf(es: Exprs): nat {
    if es.ENil? then 0 else 1 + CountOf(es.tail)
  }

  predicate ArityFits(f: FuncName, n: nat) {
    match f
    case FnIf => n >= 3
    case FnCoalesce => true
    case FnRound => n >= 1
    case _ => n >= 2
  }

  predicate OperatorFits(op: CmpOp, r: Expr) {
    match op
    case Regexp => false
    case NotRegexp => false
    case LikeOp => IsString(r)
    case NotLike => IsString(r)
    case _ => true
  }

  /** Everything but aggregates, REGEXP, patterns that are no string literal, unknown operators and calls with too few arguments. */
  predicate Compiles(e: Expr) {
    match e
    case Col(_, _) => true
    case Lit(_) => true
    case BoolLit(_) => true
    case NullLit => true
    case Tuple(es) => AllCompile(es)
    case Unary(op, x) => op != OtherUnary && Compiles(x)
    case Binary(op, l, r) => op != OtherBinary && Compiles(l) && Compiles(r)
    case Compare(op, l, r) => OperatorFits(op, r) && Compiles(l) && Compiles(r)
    case And(l, r) => Compiles(l) && Compiles(r)
    case Or(l, r) => Compiles(l) && Compiles(r)
    case Not(x) => Compiles(x)
    case Is(x, _) => Compiles(x)
    case Between(_, x, f, t) => Compiles(x) && Compiles(f) && Compiles(t)
    case Case(b, ws) => (b.Some? ==> Compiles(b.value)) && WhensCompile(ws)
    case Func(f, es) => if ColsOf(es) == {} then StaticAccepts(e) else ArityFits(f, CountOf(es)) && AllCompile(es)
    case Agg(_) => false
  }

  predicate AllCompile(es: Exprs) {
    match es
    case ENil => true
    case ECons(h, t) => Compiles(h) && AllCompile(t)
  }

  predicate WhensCompile(ws: Whens) {
    match ws
    case NoElse => true
    case Else(x) => Compiles(x)
    case When(c, v, rest) => Compiles(c) && Compiles(v) && WhensCompile(rest)
  }

  function Length(ms: M.MExprs): nat {
    if ms.MNil? then 0 else 1 + Length(ms.tail)
  }

  lemma {:induction false} CallExactly(f: FuncName, ms: M.MExprs)
    ensures CallAgg(f, ms).Success? <==> ArityFits(f, Length(ms))
  {
    if ms.MCons? {
      assert Length(ms) == 1 + Length(ms.tail);
      if ms.tail.MCons? {
        assert Length(ms.tail) == 1 + Length(ms.tail.tail);
        assert ms.tail.tail.MCons? <==> Length(ms.tail.tail) >= 1;
      }
    }
  }

  /** An expression compiles exactly if it is one of those. */
  lemma {:induction false} CompilesExactly(e: Expr, main: string)
    ensures ToAgg(e, main).Success? <==> Compiles(e)
    decreases e, 0
  {
    match e
    case Tuple(es) => AllCompileExactly(es, main);
    case Unary(_, x) => CompilesExactly(x, main);
    case Binary(_, l, r) => CompilesExactly(l, main); CompilesExactly(r, main);
    case Compare(_, l, r) => CompilesExactly(l, main); CompilesExactly(r, main);
    case And(l, r) => CompilesExactly(l, main); CompilesExactly(r, main);
    case Or(l, r) => CompilesExactly(l, main); CompilesExactly(r, main);
    case Not(x) => CompilesExactly(x, main);
    case Is(x, _) => CompilesExactly(x, main);
    case Between(_, x, f, t) => CompilesExactly(x, main); CompilesExactly(f, main); CompilesExactly(t, main);
    case Case(b, ws) =>
      if b.Some? { CompilesExactly(b.value, main); }
      WhensCompileExactly(if b.Some? && ToAgg(b.value, main).Success? then Some(ToAgg(b.value, main).value) else None, ws, main);
      CaseExactly(ws, main);
    case Func(f, es) =>
      StaticExactly(e);
      AllCompileExactly(es, main);
      if ToAggAll(es, main).Success? { CallExactly(f, ToAggAll(es, main).value); }
    case _ =>
  }

  lemma {:induction false} AllCompileExactly(es: Exprs, main: string)
    ensures ToAggAll(es, main).Success? <==> AllCompile(es)
    ensures ToAggAll(es, main).Success? ==> Length(ToAggAll(es, main).value) == CountOf(es)
    decreases es, 0
  {
    if es.ECons? {
      CompilesExactly(es.head, main);
      AllCompileExactly(es.tail, main);
    }
  }

  lemma {:induction false} WhensCompileExactly(base: Option<M.MExpr>, ws: Whens, main: string)
    ensures BranchesAgg(base, ws, main).Success? && DefaultAgg(ws, main).Success? <==> WhensCompile(ws)
    ensures SwitchAgg(base, ws, main).Success? <==> WhensCompile(ws)
    decreases ws, 0
  {
    match ws
    case NoElse =>
    case Else(x) => CompilesExactly(x, main);
    case When(c, v, rest) =>
      CompilesExactly(c, main);
      CompilesExactly(v, main);
      WhensCompileExactly(base, rest, main);
  }

  lemma {:induction false} CaseExactly(ws: Whens, main: string)
    ensures CaseAgg(ws, main).Success? <==> WhensCompile(ws)
    decreases ws, 1
  {
    WhensCompileExactly(None, ws, main);
    if ws.When? && ws.rest.Else? {
      CompilesExactly(ws.cond, main);
      CompilesExactly(ws.val, main);
      CompilesExactly(ws.rest.els, main);
    }
  }

  /** An aggregate is accumulated exactly if its argument compiles. */
  lemma {:induction false} AccumulatesExactly(spec: AggSpec, main: string)
    ensures Select.AccumulatorFor(spec, main).Success? <==> spec.CountStar? || Compiles(spec.arg)
  {
    if spec.AggOf? {
      CompilesExactly(spec.arg, main);
    }
  }

  // ----- predicates -----

  /** A comparison of two value expressions; or of a column with a list or a pattern. */
  predicate ComparisonFilters(op: CmpOp, l: Expr, r: Expr) {
    match op
    case In => l.Col? && StaticAccepts(r)
    case NotIn => l.Col? && StaticAccepts(r)
    case LikeOp => l.Col? && IsString(r)
    case NotLike => l.Col? && IsString(r)
    case Regexp => l.Col? && IsString(r)
    case NotRegexp => l.Col? && IsString(r)
    case _ => Compiles(l) && Compiles(r)
  }

  /** AND, OR and NOT of comparisons, IS tests and ranges of columns. */
  predicate Filters(e: Expr) {
    match e
    case And(l, r) => Filters(l) && Filters(r)
    case Or(l, r) => Filters(l) && Filters(r)
    case Not(x) => Filters(x)
    case Compare(op, l, r) => ComparisonFilters(op, l, r)
    case Between(_, x, f, t) => x.Col? && StaticAccepts(f) && StaticAccepts(t)
    case Is(x, _) => x.Col?
    case _ => false
  }

  /** A predicate becomes a filter exactly if it is one of those. */
  lemma {:induction false} FiltersExactly(e: Expr)
    ensures W.TranslateWhere(e).Success? <==> Filters(e)
    decreases e
  {
    match e
    case And(l, r) => FiltersExactly(l); FiltersExactly(r);
    case Or(l, r) => FiltersExactly(l); FiltersExactly(r);
    case Not(x) =>
      FiltersExactly(x);
      W.NegationSucceeds(x);
    case Compare(op, l, r) =>
      CompilesExactly(l, "");
      CompilesExactly(r, "");
      StaticExactly(r);
    case Between(_, _, f, t) => StaticExactly(f); StaticExactly(t);
    case _ =>
  }

  // ----- FROM -----

  /** Tables joined one by one ON a condition; a RIGHT JOIN only of two tables. */
  predicate Plans(t: TableExpr) {
    match t
    case Table(_, _) => true
    case Derived => false
    case Join(kind, l, r, on) => Plans(l) && r.Table? && on.Some? && (kind == RightJoin ==> l.Table?)
  }

  lemma {:induction false} PlansExactly(t: TableExpr)
    ensures ExtractFromPlan(t).Success? <==> Plans(t)
    ensures ExtractFromPlan(t).Success? ==> (ExtractFromPlan(t).value.joins == [] <==> t.Table?)
    decreases t
  {
    if t.Join? {
      PlansExactly(t.left);
    }
  }

  /** ON: columns and literals, compared, combined by AND and OR, with + - * /. */
  predicate JoinsOn(e: Expr) {
    match e
    case Col(_, _) => true
    case Lit(_) => true
    case Compare(op, l, r) => op in {Eq, Ne, Lt, Le, Gt, Ge} && JoinsOn(l) && JoinsOn(r)
    case And(l, r) => JoinsOn(l) && JoinsOn(r)
    case Or(l, r) => JoinsOn(l) && JoinsOn(r)
    case Binary(op, l, r) => op in {Plus, Minus, Mult, Div} && JoinsOn(l) && JoinsOn(r)
    case _ => false
  }

  lemma {:induction false} JoinsOnExactly(e: Expr, right: string)
    ensures JoinOn(e, right).Success? <==> JoinsOn(e)
    decreases e
  {
    if e.Compare? || e.And? || e.Or? || e.Binary? {
      JoinsOnExactly(e.l, right);
      JoinsOnExactly(e.r, right);
    }
  }

  /** A join has its stages exactly if it equates two columns or its ON is one of those. */
  lemma {:induction false} LookupExactly(on: Expr, main: string, right: SourceRef, outer: bool)
    ensures PlanJoin(Some(on), main, right, outer).Success?
    ensures LookupStage(PlanJoin(Some(on), main, right, outer).value, main).Success?
            <==> (on.Compare? && on.cop == Eq && on.l.Col? && on.r.Col?) || JoinsOn(on)
  {
    JoinsOnExactly(on, right.alias);
  }
}
