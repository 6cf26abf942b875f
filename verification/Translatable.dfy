/** Which statements are translated at all: the failures of every step, put together. */
module Translatable {
  import opened Wrappers
  import opened Sql
  import opened Compiler
  import opened Source
  import opened Select
  import opened Render
  import opened Accepted
  import opened Listing
  import opened InsertSelect
  import opened FindTheorem
  import C = ConstFold
  import W = Where
  import M = Mongo

  // ----- arithmetic on constants -----

  /** Numbers are combined by every known operator, but DIV takes integers only. */
  predicate Combines(op: BinOp, a: GoVal, b: GoVal) {
    op != OtherBinary && (op == IntDiv ==> !a.GFloat? && !b.GFloat?)
  }

  /** Literals, signs and operators over numbers; a division by zero inside leaves no number to go on with. */
  predicate Folds(e: Expr) {
    match e
    case Binary(op, l, r) =>
      Folds(l) && Folds(r) && C.EvalConst(l).Success? && C.EvalConst(r).Success?
      && IsNumber(C.EvalConst(l).value) && IsNumber(C.EvalConst(r).value) && Combines(op, C.EvalConst(l).value, C.EvalConst(r).value)
    case Unary(op, x) =>
      Folds(x) && op != OtherUnary && C.EvalConst(x).Success? && (op == UMinus ==> IsNumber(C.EvalConst(x).value))
    case _ => true
  }

  /** A number, or NULL after a division by zero. */
  predicate NumberOrNull(g: GoVal) {
    IsNumber(g) || g.GNil?
  }

  lemma {:induction false} CombinesExactly(op: BinOp, a: GoVal, b: GoVal)
    requires NumberOrNull(a) && NumberOrNull(b)
    ensures C.ApplyArith(op, a, b).Success? <==> IsNumber(a) && IsNumber(b) && Combines(op, a, b)
    ensures C.ApplyArith(op, a, b).Success? ==> NumberOrNull(C.ApplyArith(op, a, b).value)
  {
  }

  lemma {:induction false} FoldsExactly(e: Expr)
    requires C.Numeric(e)
    ensures C.EvalConst(e).Success? <==> Folds(e)
    ensures C.EvalConst(e).Success? ==> NumberOrNull(C.EvalConst(e).value)
    decreases e
  {
    match e
    case Binary(op, l, r) =>
      FoldsExactly(l);
      FoldsExactly(r);
      if C.EvalConst(l).Success? && C.EvalConst(r).Success? {
        CombinesExactly(op, C.EvalConst(l).value, C.EvalConst(r).value);
      }
    case Unary(op, x) =>
      FoldsExactly(x);
      if C.EvalConst(x).Success? {
        CombinesExactly(Mult, GInt(-1), C.EvalConst(x).value);
      }
    case Lit(_) =>
  }

  // ----- columns for columns and aggregates -----

  /** The expression with one column for all columns, and for aggregates if `aggs`. */
  function Shape(e: Expr, aggs: bool): Expr {
    match e
    case Col(_, _) => Col("", "")
    case Lit(_) => e
    case BoolLit(_) => e
    case NullLit => e
    case Tuple(es) => Tuple(ShapeOf(es, aggs))
    case Unary(op, x) => Unary(op, Shape(x, aggs))
    case Binary(op, l, r) => Binary(op, Shape(l, aggs), Shape(r, aggs))
    case Compare(op, l, r) => Compare(op, Shape(l, aggs), Shape(r, aggs))
    case And(l, r) => And(Shape(l, aggs), Shape(r, aggs))
    case Or(l, r) => Or(Shape(l, aggs), Shape(r, aggs))
    case Not(x) => Not(Shape(x, aggs))
    case Is(x, op) => Is(Shape(x, aggs), op)
    case Between(b, x, f, t) => Between(b, Shape(x, aggs), Shape(f, aggs), Shape(t, aggs))
    case Case(b, ws) => Case(if b.Some? then Some(Shape(b.value, aggs)) else None, WhenShape(ws, aggs))
    case Func(f, es) => Func(f, ShapeOf(es, aggs))
    case Agg(_) => if aggs then Col("", "") else e
  }

  function ShapeOf(es: Exprs, aggs: bool): Exprs {
    match es
    case ENil => ENil
    case ECons(h, t) => ECons(Shape(h, aggs), ShapeOf(t, aggs))
  }

  function WhenShape(ws: Whens, aggs: bool): Whens {
    match ws
    case NoElse => NoElse
    case Else(x) => Else(Shape(x, aggs))
    case When(c, v, rest) => When(Shape(c, aggs), Shape(v, aggs), WhenShape(rest, aggs))
  }

  /** Constants have no columns to replace. */
  lemma {:induction false} StaticShape(e: Expr, aggs: bool)
    requires StaticAccepts(e) || StaticAccepts(Shape(e, aggs))
    ensures Shape(e, aggs) == e
    decreases e
  {
    match e
    case Tuple(es) => StaticShapes(es, aggs);
    case Unary(_, x) => StaticShape(x, aggs);
    case Func(_, es) => StaticShapes(es, aggs);
    case Compare(_, l, r) => StaticShape(l, aggs); StaticShape(r, aggs);
    case _ =>
  }

  lemma {:induction false} StaticShapes(es: Exprs, aggs: bool)
    requires AllStatic(es) || AllStatic(ShapeOf(es, aggs))
    ensures ShapeOf(es, aggs) == es
    decreases es
  {
    if es.ECons? {
      StaticShape(es.head, aggs);
      StaticShapes(es.tail, aggs);
    }
  }

  lemma {:induction false} StaticAlike(e: Expr, aggs: bool)
    ensures StaticAccepts(Shape(e, aggs)) <==> StaticAccepts(e)
  {
    if StaticAccepts(e) || StaticAccepts(Shape(e, aggs)) {
      StaticShape(e, aggs);
    }
  }

  lemma {:induction false} ColsAlike(e: Expr, aggs: bool)
    requires aggs ==> !HoldsAgg(e)
    ensures Cols(Shape(e, aggs)) == {} <==> Cols(e) == {}
    decreases e
  {
    match e
    case Tuple(es) => ColsOfAlike(es, aggs);
    case Unary(_, x) => ColsAlike(x, aggs);
    case Binary(_, l, r) => ColsAlike(l, aggs); ColsAlike(r, aggs);
    case Compare(_, l, r) => ColsAlike(l, aggs); ColsAlike(r, aggs);
    case And(l, r) => ColsAlike(l, aggs); ColsAlike(r, aggs);
    case Or(l, r) => ColsAlike(l, aggs); ColsAlike(r, aggs);
    case Not(x) => ColsAlike(x, aggs);
    case Is(x, _) => ColsAlike(x, aggs);
    case Between(_, x, f, t) => ColsAlike(x, aggs); ColsAlike(f, aggs); ColsAlike(t, aggs);
    case Case(b, ws) =>
      if b.Some? { ColsAlike(b.value, aggs); }
      WhenColsAlike(ws, aggs);
    case Func(_, es) => ColsOfAlike(es, aggs);
    case _ =>
  }

  lemma {:induction false} ColsOfAlike(es: Exprs, aggs: bool)
    requires aggs ==> !AnyHoldsAgg(es)
    ensures ColsOf(ShapeOf(es, aggs)) == {} <==> ColsOf(es) == {}
    decreases es
  {
    if es.ECons? {
      ColsAlike(es.head, aggs);
      ColsOfAlike(es.tail, aggs);
    }
  }

  lemma {:induction false} WhenColsAlike(ws: Whens, aggs: bool)
    requires aggs ==> !WhensHoldAgg(ws)
    ensures WhenCols(WhenShape(ws, aggs)) == {} <==> WhenCols(ws) == {}
    decreases ws
  {
    match ws
    case NoElse =>
    case Else(x) => ColsAlike(x, aggs);
    case When(c, v, rest) =>
      ColsAlike(c, aggs);
      ColsAlike(v, aggs);
      WhenColsAlike(rest, aggs);
  }

  lemma {:induction false} CompilesAlike(e: Expr, aggs: bool)
    requires aggs ==> !HoldsAgg(e)
    ensures Compiles(Shape(e, aggs)) <==> Compiles(e)
    decreases e, 1
  {
    match e
    case Tuple(es) => AllCompileAlike(es, aggs);
    case Unary(_, x) => CompilesAlike(x, aggs);
    case Binary(_, _, _) => TwoCompileAlike(e, aggs);
    case Compare(_, _, _) => TwoCompileAlike(e, aggs);
    case And(_, _) => TwoCompileAlike(e, aggs);
    case Or(_, _) => TwoCompileAlike(e, aggs);
    case Not(x) => CompilesAlike(x, aggs);
    case Is(x, _) => CompilesAlike(x, aggs);
    case Between(_, x, f, t) => CompilesAlike(x, aggs); CompilesAlike(f, aggs); CompilesAlike(t, aggs);
    case Case(_, _) => CaseCompilesAlike(e, aggs);
    case Func(_, _) => CallCompilesAlike(e, aggs);
    case _ =>
  }

  lemma {:induction false} TwoCompileAlike(e: Expr, aggs: bool)
    requires (e.Binary? || e.Compare? || e.And? || e.Or?) && (aggs ==> !HoldsAgg(e))
    ensures Compiles(Shape(e, aggs)) <==> Compiles(e)
    decreases e, 0
  {
    CompilesAlike(e.l, aggs);
    CompilesAlike(e.r, aggs);
  }

  lemma {:induction false} CaseCompilesAlike(e: Expr, aggs: bool)
    requires e.Case? && (aggs ==> !HoldsAgg(e))
    ensures Compiles(Shape(e, aggs)) <==> Compiles(e)
    decreases e, 0
  {
    if e.base.Some? {
      CompilesAlike(e.base.value, aggs);
    }
    WhensCompileAlike(e.whens, aggs);
  }

  lemma {:induction false} CallCompilesAlike(e: Expr, aggs: bool)
    requires e.Func? && (aggs ==> !HoldsAgg(e))
    ensures Compiles(Shape(e, aggs)) <==> Compiles(e)
    decreases e, 0
  {
    ColsOfAlike(e.args, aggs);
    StaticAlike(e, aggs);
    AllCompileAlike(e.args, aggs);
  }

  lemma {:induction false} AllCompileAlike(es: Exprs, aggs: bool)
    requires aggs ==> !AnyHoldsAgg(es)
    ensures (AllCompile(ShapeOf(es, aggs)) <==> AllCompile(es)) && CountOf(ShapeOf(es, aggs)) == CountOf(es)
    decreases es
  {
    if es.ECons? {
      CompilesAlike(es.head, aggs);
      AllCompileAlike(es.tail, aggs);
    }
  }

  lemma {:induction false} WhensCompileAlike(ws: Whens, aggs: bool)
    requires aggs ==> !WhensHoldAgg(ws)
    ensures WhensCompile(WhenShape(ws, aggs)) <==> WhensCompile(ws)
    decreases ws
  {
    match ws
    case NoElse =>
    case Else(x) => CompilesAlike(x, aggs);
    case When(c, v, rest) =>
      CompilesAlike(c, aggs);
      CompilesAlike(v, aggs);
      WhensCompileAlike(rest, aggs);
  }

  /** Whether a predicate becomes a filter does not depend on its columns' names. */
  lemma {:induction false} FiltersAlike(e: Expr, aggs: bool)
    requires aggs ==> !HoldsAgg(e)
    ensures Filters(Shape(e, aggs)) <==> Filters(e)
    decreases e
  {
    match e
    case And(l, r) => FiltersAlike(l, aggs); FiltersAlike(r, aggs);
    case Or(l, r) => FiltersAlike(l, aggs); FiltersAlike(r, aggs);
    case Not(x) => FiltersAlike(x, aggs);
    case Compare(op, l, r) =>
      CompilesAlike(l, aggs);
      CompilesAlike(r, aggs);
      StaticAlike(r, aggs);
    case Between(_, _, f, t) => StaticAlike(f, aggs); StaticAlike(t, aggs);
    case _ =>
  }

  // ----- WHERE -----

  lemma {:induction false} UnqualifyShape(e: Expr, main: string)
    ensures Shape(W.Unqualify(e, main), false) == Shape(e, false)
    decreases e
  {
    match e
    case Tuple(es) => UnqualifyShapes(es, main);
    case Unary(_, x) => UnqualifyShape(x, main);
    case Binary(_, l, r) => UnqualifyShape(l, main); UnqualifyShape(r, main);
    case Compare(_, l, r) => UnqualifyShape(l, main); UnqualifyShape(r, main);
    case And(l, r) => UnqualifyShape(l, main); UnqualifyShape(r, main);
    case Or(l, r) => UnqualifyShape(l, main); UnqualifyShape(r, main);
    case Not(x) => UnqualifyShape(x, main);
    case Is(x, _) => UnqualifyShape(x, main);
    case Between(_, x, f, t) => UnqualifyShape(x, main); UnqualifyShape(f, main); UnqualifyShape(t, main);
    case Case(b, ws) =>
      if b.Some? { UnqualifyShape(b.value, main); }
      UnqualifyWhenShape(ws, main);
    case Func(_, es) => UnqualifyShapes(es, main);
    case _ =>
  }

  lemma {:induction false} UnqualifyShapes(es: Exprs, main: string)
    ensures ShapeOf(W.UnqualifyAll(es, main), false) == ShapeOf(es, false)
    decreases es
  {
    if es.ECons? {
      UnqualifyShape(es.head, main);
      UnqualifyShapes(es.tail, main);
    }
  }

  lemma {:induction false} UnqualifyWhenShape(ws: Whens, main: string)
    ensures WhenShape(W.UnqualifyWhens(ws, main), false) == WhenShape(ws, false)
    decreases ws
  {
    match ws
    case NoElse =>
    case Else(x) => UnqualifyShape(x, main);
    case When(c, v, rest) =>
      UnqualifyShape(c, main);
      UnqualifyShape(v, main);
      UnqualifyWhenShape(rest, main);
  }

  /** WHERE as a filter of the pipeline is accepted exactly where it is as it stands. */
  lemma {:induction false} UnqualifiedFilters(e: Expr, main: string)
    ensures W.TranslateWhere(W.Unqualify(e, main)).Success? <==> Filters(e)
  {
    UnqualifyShape(e, main);
    FiltersAlike(e, false);
    FiltersAlike(W.Unqualify(e, main), false);
    FiltersExactly(W.Unqualify(e, main));
  }

  // ----- HAVING -----

  predicate Accumulates(spec: AggSpec) {
    spec.CountStar? || Compiles(spec.arg)
  }

  /** The aggregates of an expression have arguments that compile. */
  predicate AggsCompile(e: Expr) {
    match e
    case Col(_, _) => true
    case Lit(_) => true
    case BoolLit(_) => true
    case NullLit => true
    case Tuple(es) => AllAggsCompile(es)
    case Unary(_, x) => AggsCompile(x)
    case Binary(_, l, r) => AggsCompile(l) && AggsCompile(r)
    case Compare(_, l, r) => AggsCompile(l) && AggsCompile(r)
    case And(l, r) => AggsCompile(l) && AggsCompile(r)
    case Or(l, r) => AggsCompile(l) && AggsCompile(r)
    case Not(x) => AggsCompile(x)
    case Is(x, _) => AggsCompile(x)
    case Between(_, x, f, t) => AggsCompile(x) && AggsCompile(f) && AggsCompile(t)
    case Case(b, ws) => (b.Some? ==> AggsCompile(b.value)) && WhenAggsCompile(ws)
    case Func(_, es) => AllAggsCompile(es)
    case Agg(spec) => Accumulates(spec)
  }

  predicate AllAggsCompile(es: Exprs) {
    match es
    case ENil => true
    case ECons(h, t) => AggsCompile(h) && AllAggsCompile(t)
  }

  predicate WhenAggsCompile(ws: Whens) {
    match ws
    case NoElse => true
    case Else(x) => AggsCompile(x)
    case When(c, v, rest) => AggsCompile(c) && AggsCompile(v) && WhenAggsCompile(rest)
  }

  /** Every aggregate known so far can be accumulated. */
  predicate Known(st: GroupState) {
    (forall spec :: spec in st.names ==> Accumulates(spec)) && forall n :: n in st.outputs ==> Accumulates(st.outputs[n])
  }

  lemma {:induction false} KnownAdded(st: GroupState, spec: AggSpec)
    requires Known(st) && Accumulates(spec)
    ensures Known(AddHidden(st, spec))
  {
  }

  lemma {:induction false} RewritesAgg(spec: AggSpec, st: GroupState, main: string)
    requires Known(st)
    ensures var r := RewriteHaving(Agg(spec), st, main);
            (r.Success? <==> Accumulates(spec)) && (r.Success? ==> Known(r.value.st) && r.value.e.Col?)
  {
    AccumulatesExactly(spec, main);
    if spec !in st.names && Accumulates(spec) {
      KnownAdded(st, spec);
    }
  }

  /** Rewriting succeeds exactly if the aggregates accumulate; nothing but aggregates changes, and none is left. */
  predicate RewritesAs(r: Result<Rewritten<Expr>>, e: Expr) {
    (r.Success? <==> AggsCompile(e)) && (r.Success? ==> Known(r.value.st) && Shape(r.value.e, true) == Shape(e, true) && !HoldsAgg(r.value.e))
  }

  lemma {:induction false} RewritesExactly(e: Expr, st: GroupState, main: string)
    requires Known(st)
    ensures RewritesAs(RewriteHaving(e, st, main), e)
    decreases e, 1
  {
    match e
    case Tuple(es) => RewritesAll(es, st, main);
    case Unary(_, x) => RewritesExactly(x, st, main);
    case Binary(_, l, r) => RewritesTwo(e, st, main);
    case Compare(_, l, r) => RewritesTwo(e, st, main);
    case And(l, r) => RewritesTwo(e, st, main);
    case Or(l, r) => RewritesTwo(e, st, main);
    case Not(x) => RewritesExactly(x, st, main);
    case Is(x, _) => RewritesExactly(x, st, main);
    case Between(_, _, _, _) => RewritesBetween(e, st, main);
    case Case(_, _) => RewritesCase(e, st, main);
    case Func(_, es) => RewritesAll(es, st, main);
    case Agg(spec) => RewritesAgg(spec, st, main);
    case _ =>
  }

  lemma {:induction false} RewritesTwo(e: Expr, st: GroupState, main: string)
    requires (e.Binary? || e.Compare? || e.And? || e.Or?) && Known(st)
    ensures RewritesAs(RewriteHaving(e, st, main), e)
    decreases e, 0
  {
    RewritesExactly(e.l, st, main);
    if AggsCompile(e.l) {
      RewritesExactly(e.r, RewriteHaving(e.l, st, main).value.st, main);
    }
  }

  lemma {:induction false} RewritesBetween(e: Expr, st: GroupState, main: string)
    requires e.Between? && Known(st)
    ensures RewritesAs(RewriteHaving(e, st, main), e)
    decreases e, 0
  {
    RewritesExactly(e.arg, st, main);
    if AggsCompile(e.arg) {
      var v := RewriteHaving(e.arg, st, main).value.st;
      RewritesExactly(e.from, v, main);
      if AggsCompile(e.from) {
        RewritesExactly(e.to, RewriteHaving(e.from, v, main).value.st, main);
      }
    }
  }

  lemma {:induction false} RewritesCase(e: Expr, st: GroupState, main: string)
    requires e.Case? && Known(st)
    ensures RewritesAs(RewriteHaving(e, st, main), e)
    decreases e, 0
  {
    if e.base.Some? {
      RewritesExactly(e.base.value, st, main);
      if AggsCompile(e.base.value) {
        RewritesWhens(e.whens, RewriteHaving(e.base.value, st, main).value.st, main);
      }
    } else {
      RewritesWhens(e.whens, st, main);
    }
  }

  lemma {:induction false} RewritesAll(es: Exprs, st: GroupState, main: string)
    requires Known(st)
    ensures var r := RewriteAll(es, st, main);
            (r.Success? <==> AllAggsCompile(es))
            && (r.Success? ==> Known(r.value.st) && ShapeOf(r.value.e, true) == ShapeOf(es, true) && !AnyHoldsAgg(r.value.e))
    decreases es
  {
    if es.ECons? {
      RewritesExactly(es.head, st, main);
      if AggsCompile(es.head) {
        RewritesAll(es.tail, RewriteHaving(es.head, st, main).value.st, main);
      }
    }
  }

  lemma {:induction false} RewritesWhens(ws: Whens, st: GroupState, main: string)
    requires Known(st)
    ensures var r := RewriteWhens(ws, st, main);
            (r.Success? <==> WhenAggsCompile(ws))
            && (r.Success? ==> Known(r.value.st) && WhenShape(r.value.e, true) == WhenShape(ws, true) && !WhensHoldAgg(r.value.e))
    decreases ws
  {
    match ws
    case NoElse =>
    case Else(x) => RewritesExactly(x, st, main);
    case When(c, v, rest) =>
      RewritesExactly(c, st, main);
      if AggsCompile(c) {
        var a := RewriteHaving(c, st, main).value.st;
        RewritesExactly(v, a, main);
        if AggsCompile(v) {
          RewritesWhens(rest, RewriteHaving(v, a, main).value.st, main);
        }
      }
  }

  // ----- the select list, GROUP BY and ORDER BY -----

  lemma {:induction false} SelectedExactly(items: seq<SelectItem>, main: string)
    ensures var r := SelectedState(items, main);
            (r.Success? <==> forall item :: item in items && item.AggItem? ==> Accumulates(item.spec))
            && (r.Success? ==> Known(r.value))
  {
    if items != [] {
      var n := |items| - 1;
      SelectedExactly(items[..n], main);
      assert forall item :: item in items <==> item in items[..n] || item == items[n];
      if items[n].AggItem? {
        AccumulatesExactly(items[n].spec, main);
      }
    }
  }

  lemma {:induction false} KnownAccumulate(st: GroupState, main: string)
    requires Known(st)
    ensures AllAccumulate(st.outputs, main)
  {
    forall n | n in st.outputs
      ensures AccumulatorFor(st.outputs[n], main).Success?
    {
      AccumulatesExactly(st.outputs[n], main);
    }
  }

  /** HAVING is made of aggregates that accumulate, and with columns in their place it is a filter. */
  predicate HavingAccepted(having: Expr) {
    AggsCompile(having) && Filters(Shape(having, true))
  }

  lemma {:induction false} HavingExactly(having: Option<Expr>, st: GroupState, main: string)
    requires Known(st)
    ensures var h := PlanHaving(having, st, main);
            (h.Success? && HavingStages(h.value).Success? <==> having.Some? ==> HavingAccepted(having.value))
            && (h.Success? ==> AllAccumulate(h.value.st.outputs, main))
  {
    if having.None? {
      KnownAccumulate(st, main);
    } else {
      RewritesExactly(having.value, st, main);
      if AggsCompile(having.value) {
        var r := RewriteHaving(having.value, st, main).value;
        KnownAccumulate(r.st, main);
        FiltersAlike(r.e, true);
        FiltersExactly(r.e);
      }
    }
  }

  lemma {:induction false} GroupsExactly(groupBy: seq<Expr>, items: seq<SelectItem>, having: Option<Expr>, main: string)
    ensures GroupedStages(groupBy, items, having, main).Success?
            <==> AllCols(groupBy) && (forall item :: item in items && item.AggItem? ==> Accumulates(item.spec))
                 && (having.Some? ==> HavingAccepted(having.value))
  {
    SelectedExactly(items, main);
    if SelectedState(items, main).Success? {
      HavingExactly(having, SelectedState(items, main).value, main);
    }
  }

  lemma {:induction false} FinalExactly(items: seq<SelectItem>, main: string, print_: Expr -> string)
    ensures FinalOf(items, main, print_).Success?
            <==> forall item :: item in items ==> !item.AggItem? && (item.ExprItem? ==> Compiles(item.e))
  {
    if items != [] {
      var n := |items| - 1;
      FinalExactly(items[..n], main, print_);
      assert forall item :: item in items <==> item in items[..n] || item == items[n];
      if FinalOf(items[..n], main, print_).Success? {
        FinalStepExactly(FinalOf(items[..n], main, print_).value, items[n], main, print_);
      }
    }
  }

  lemma {:induction false} FinalStepExactly(f: Final, item: SelectItem, main: string, print_: Expr -> string)
    ensures FinalStep(f, item, main, print_).Success? <==> !item.AggItem? && (item.ExprItem? ==> Compiles(item.e))
  {
    if item.ExprItem? {
      CompilesExactly(item.e, main);
    }
  }

  lemma {:induction false} OrderExactly(orders: seq<Order>, items: seq<SelectItem>, main: string)
    requires forall o :: o in orders ==> o.e.Col?
    ensures OrderKeys(orders, items, main).Success?
  {
    if orders != [] {
      OrderExactly(orders[..|orders| - 1], items, main);
    }
  }

  // ----- FROM -----

  /** Each join equates two columns, or its ON can be rendered. */
  predicate JoinsRendered(t: TableExpr) {
    match t
    case Table(_, _) => true
    case Derived => true
    case Join(_, l, _, on) =>
      JoinsRendered(l)
      && (on.Some? ==> (on.value.Compare? && on.value.cop == Eq && on.value.l.Col? && on.value.r.Col?) || JoinsOn(on.value))
  }

  lemma {:induction false} StagesSnoc(joins: seq<JoinPlan>, j: JoinPlan, main: string)
    ensures JoinStages(joins + [j], main).Success? <==> JoinStages(joins, main).Success? && LookupStage(j, main).Success?
  {
    assert (joins + [j])[..|joins|] == joins;
  }

  lemma {:induction false} RenderedExactly(t: TableExpr, main: string)
    requires Plans(t) && ExtractFromPlan(t).Success?
    ensures JoinStages(ExtractFromPlan(t).value.joins, main).Success? <==> JoinsRendered(t)
    decreases t
  {
    if t.Join? {
      PlansExactly(t.left);
      RenderedExactly(t.left, main);
      var before := ExtractFromPlan(t.left).value;
      var right := SourceOf(t.right).value;
      if t.kind == RightJoin {
        LookupExactly(t.on.value, right.alias, before.main, true);
        LookupIndependent(t.on.value, right.alias, before.main, true, main);
        StagesSnoc([], PlanJoin(t.on, right.alias, before.main, true).value, main);
        assert JoinStages([], main).Success?;
      } else {
        LookupExactly(t.on.value, before.main.alias, right, t.kind == LeftJoin);
        LookupIndependent(t.on.value, before.main.alias, right, t.kind == LeftJoin, main);
        StagesSnoc(before.joins, PlanJoin(t.on, before.main.alias, right, t.kind == LeftJoin).value, main);
      }
    }
  }

  lemma {:induction false} LookupIndependent(on: Expr, planned: string, right: SourceRef, outer: bool, main: string)
    ensures var j := PlanJoin(Some(on), planned, right, outer).value;
            LookupStage(j, main).Success? <==> LookupStage(j, planned).Success?
  {
  }

  // ----- the statement -----

  /** An aggregate is listed, or GROUP BY names a column. */
  predicate Grouping(q: Query) {
    (exists x :: x in Listed(q.exprs) && x.e.Agg?) || GroupExprs(q) != []
  }

  /** What a pipeline needs beyond a Find: joins, groups and a last projection that can be rendered. */
  predicate PipelineRendered(q: Query) {
    JoinsRendered(q.from)
    && if Grouping(q) then
         AllCols(GroupExprs(q)) && (forall x :: x in Listed(q.exprs) && x.e.Agg? ==> Accumulates(x.e.spec))
         && (q.having.Some? ==> HavingAccepted(q.having.value))
       else
         Star in q.exprs || forall x :: x in Listed(q.exprs) && !x.e.Col? ==> Compiles(x.e)
  }

  /** One table, its columns or *, no grouping, DISTINCT of at most one column. */
  predicate ReadsOneTable(q: Query) {
    q.from.Table? && q.groupBy.None? && q.having.None? && (forall x :: x in Listed(q.exprs) ==> x.e.Col?)
    && !(q.distinct && |Listed(q.exprs)| > 1)
  }

  lemma {:induction false} ItemListed(q: Query, item: SelectItem) returns (x: SelectExpr)
    requires item in PlanItemsOf(q.exprs).items
    ensures x in Listed(q.exprs) && StandsFor(item, x)
  {
    PlansListed(q.exprs);
    var items := PlanItemsOf(q.exprs).items;
    var i :| 0 <= i < |items| && items[i] == item;
    x := Listed(q.exprs)[i];
  }

  lemma {:induction false} ListedItem(q: Query, x: SelectExpr) returns (item: SelectItem)
    requires x in Listed(q.exprs)
    ensures item in PlanItemsOf(q.exprs).items && StandsFor(item, x)
  {
    PlansListed(q.exprs);
    var xs := Listed(q.exprs);
    var i :| 0 <= i < |xs| && xs[i] == x;
    item := PlanItemsOf(q.exprs).items[i];
  }

  lemma {:induction false} AggregatesListed(q: Query)
    ensures (forall item :: item in PlanItemsOf(q.exprs).items && item.AggItem? ==> Accumulates(item.spec))
            <==> forall x :: x in Listed(q.exprs) && x.e.Agg? ==> Accumulates(x.e.spec)
  {
    var items := PlanItemsOf(q.exprs).items;
    if forall item :: item in items && item.AggItem? ==> Accumulates(item.spec) {
      forall x | x in Listed(q.exprs) && x.e.Agg?
        ensures Accumulates(x.e.spec)
      {
        var item := ListedItem(q, x);
      }
    }
    if forall x :: x in Listed(q.exprs) && x.e.Agg? ==> Accumulates(x.e.spec) {
      forall item | item in items && item.AggItem?
        ensures Accumulates(item.spec)
      {
        var x := ItemListed(q, item);
      }
    }
  }

  lemma {:induction false} ExpressionsListed(q: Query)
    requires !(exists x :: x in Listed(q.exprs) && x.e.Agg?)
    ensures (forall item :: item in PlanItemsOf(q.exprs).items ==> !item.AggItem? && (item.ExprItem? ==> Compiles(item.e)))
            <==> forall x :: x in Listed(q.exprs) && !x.e.Col? ==> Compiles(x.e)
  {
    var items := PlanItemsOf(q.exprs).items;
    if forall item :: item in items ==> !item.AggItem? && (item.ExprItem? ==> Compiles(item.e)) {
      forall x | x in Listed(q.exprs) && !x.e.Col?
        ensures Compiles(x.e)
      {
        var item := ListedItem(q, x);
      }
    }
    if forall x :: x in Listed(q.exprs) && !x.e.Col? ==> Compiles(x.e) {
      forall item | item in items
        ensures !item.AggItem? && (item.ExprItem? ==> Compiles(item.e))
      {
        var x := ItemListed(q, item);
      }
    }
  }

  lemma {:induction false} GroupingPlanned(q: Query)
    ensures Grouping(q) <==> PlanItemsOf(q.exprs).hasAgg || GroupExprs(q) != []
    ensures PlanItemsOf(q.exprs).hasStar <==> Star in q.exprs
    ensures PlanItemsOf(q.exprs).items == [] ==> Listed(q.exprs) == []
  {
    PlansListed(q.exprs);
  }

  lemma {:induction false} WhereRenders(q: Query, main: string)
    requires q.where_.Some? ==> Filters(q.where_.value)
    ensures WhereStages(q.where_, main).Success?
  {
    if q.where_.Some? {
      UnqualifiedFilters(q.where_.value, main);
    }
  }

  lemma {:induction false} RowsExactly(q: Query)
    requires Plans(q.from) && ExtractFromPlan(q.from).Success? && (q.where_.Some? ==> Filters(q.where_.value))
    ensures RowsPipeline(q).Success?
            <==> JoinsRendered(q.from)
                 && (Grouping(q) ==> AllCols(GroupExprs(q)) && (forall x :: x in Listed(q.exprs) && x.e.Agg? ==> Accumulates(x.e.spec))
                                     && (q.having.Some? ==> HavingAccepted(q.having.value)))
  {
    var main := ExtractFromPlan(q.from).value.main.alias;
    RenderedExactly(q.from, main);
    WhereRenders(q, main);
    GroupingPlanned(q);
    GroupsExactly(GroupExprs(q), PlanItemsOf(q.exprs).items, q.having, main);
    AggregatesListed(q);
  }

  lemma {:induction false} LastExactly(q: Query, main: string, print_: Expr -> string)
    ensures LastStages(q, main, print_).Success?
            <==> Grouping(q) || Star in q.exprs || forall x :: x in Listed(q.exprs) && !x.e.Col? ==> Compiles(x.e)
  {
    GroupingPlanned(q);
    FinalExactly(PlanItemsOf(q.exprs).items, main, print_);
    if !Grouping(q) {
      ExpressionsListed(q);
    }
  }

  lemma {:induction false} AggregateExactly(q: Query, print_: Expr -> string)
    requires Plans(q.from) && (q.where_.Some? ==> Filters(q.where_.value)) && forall o :: o in q.orderBy ==> o.e.Col?
    ensures BuildAggregate(q, print_).Success? <==> IsLimitZero(q) || PipelineRendered(q)
  {
    PlansExactly(q.from);
    var main := ExtractFromPlan(q.from).value.main.alias;
    RowsExactly(q);
    OrderExactly(q.orderBy, PlanItemsOf(q.exprs).items, main);
    LastExactly(q, main, print_);
  }

  lemma {:induction false} FindExactly(q: Query, main: SourceRef)
    requires ReadsOneTable(q) && (q.where_.Some? ==> Filters(q.where_.value)) && forall o :: o in q.orderBy ==> o.e.Col?
    ensures BuildFind(q, main).Success?
  {
    if q.where_.Some? {
      FiltersExactly(q.where_.value);
    }
    FindSortExactly(q.orderBy);
    forall item | item in PlanItemsOf(q.exprs).items
      ensures item.FieldItem?
    {
      var x := ItemListed(q, item);
    }
    PathsSucceed(PlanItemsOf(q.exprs).items);
  }

  lemma {:induction false} PathsSucceed(items: seq<SelectItem>)
    requires forall item :: item in items ==> item.FieldItem?
    ensures ItemPaths(items).Success?
  {
    if items != [] {
      PathsSucceed(items[..|items| - 1]);
    }
  }

  lemma {:induction false} RoutesExactly(q: Query, joins: seq<JoinPlan>)
    requires joins == [] <==> q.from.Table?
    ensures UsesAggregation(q, joins) <==> !ReadsOneTable(q)
  {
    PlansListed(q.exprs);
  }

  /** A SELECT is translated exactly if its FROM is planned, its WHERE is a filter, it orders by columns,
      and it reads one table, or has LIMIT 0, or can be rendered as a pipeline. */
  lemma {:induction false} TranslatesExactly(q: Query, print_: Expr -> string)
    ensures Translate(q, print_).Success?
            <==> Plans(q.from) && (q.where_.Some? ==> Filters(q.where_.value)) && (forall o :: o in q.orderBy ==> o.e.Col?)
                 && (ReadsOneTable(q) || IsLimitZero(q) || PipelineRendered(q))
  {
    PlansExactly(q.from);
    FindSortExactly(q.orderBy);
    if q.where_.Some? {
      FiltersExactly(q.where_.value);
    }
    if Plans(q.from) && (q.where_.Some? ==> Filters(q.where_.value)) && forall o :: o in q.orderBy ==> o.e.Col? {
      var p := ExtractFromPlan(q.from).value;
      RoutesExactly(q, p.joins);
      AggregateExactly(q, print_);
      if ReadsOneTable(q) {
        FindExactly(q, p.main);
      }
    }
  }
}
