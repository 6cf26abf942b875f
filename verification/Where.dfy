/** WHERE and HAVING predicates become filter documents (expr.go). */
module Where {
  import opened Wrappers
  import opened Bson
  import opened Sql
  import opened Compiler
  import M = Mongo
  import Like

  // ----- the translator -----

  function NegateOp(op: CmpOp): Option<CmpOp> {
    match op
    case Eq => Some(Ne)
    case Ne => Some(Eq)
    case Lt => Some(Ge)
    case Le => Some(Gt)
    case Gt => Some(Le)
    case Ge => Some(Lt)
    case In => Some(NotIn)
    case NotIn => Some(In)
    case LikeOp => Some(NotLike)
    case NotLike => Some(LikeOp)
    case Regexp => Some(NotRegexp)
    case NotRegexp => Some(Regexp)
    case NullSafeEq => None
  }

  function NegateIs(op: IsOp): IsOp {
    match op
    case IsNull => IsNotNull
    case IsNotNull => IsNull
    case IsTrue => IsNotTrue
    case IsNotTrue => IsTrue
    case IsFalse => IsNotFalse
    case IsNotFalse => IsFalse
  }

  /** The number of nodes that the translator's recursion counts. */
  function Size(e: Expr): nat {
    match e
    case And(l, r) => 1 + Size(l) + Size(r)
    case Or(l, r) => 1 + Size(l) + Size(r)
    case Not(x) => 1 + Size(x)
    case _ => 0
  }

  function TranslateWhere(e: Expr): Result<M.Filter>
    decreases Size(e), 0
  {
    match e
    case And(l, r) =>
      var a :- TranslateWhere(l);
      var b :- TranslateWhere(r);
      Success(M.FAnd(a, b))
    case Or(l, r) =>
      var a :- TranslateWhere(l);
      var b :- TranslateWhere(r);
      Success(M.FOr(a, b))
    case Not(x) => NegateWhere(x)
    case Compare(op, l, r) => TranslateComparison(op, l, r)
    case Between(isBetween, x, f, t) =>
      if !x.Col? then Failure("BETWEEN left side must be a column")
      else
        var from :- StaticValue(f);
        var to :- StaticValue(t);
        Success(RangeFilter(isBetween, FieldOf(x), ToBson(from), ToBson(to)))
    case Is(x, op) =>
      if !x.Col? then Failure("IS expression left side must be a column")
      else Success(M.Field(FieldOf(x), IsTestOf(op)))
    case _ => Failure("unsupported WHERE expression")
  }

  /** NOT e, with the negation pushed down to the leaves. */
  function NegateWhere(e: Expr): Result<M.Filter>
    decreases Size(e), 1
  {
    match e
    case Not(x) => TranslateWhere(x)
    case And(l, r) =>
      var a :- NegateWhere(l);
      var b :- NegateWhere(r);
      Success(M.FOr(a, b))
    case Or(l, r) =>
      var a :- NegateWhere(l);
      var b :- NegateWhere(r);
      Success(M.FAnd(a, b))
    case Is(x, op) => TranslateWhere(Is(x, NegateIs(op)))
    case Between(isBetween, x, f, t) => TranslateWhere(Between(!isBetween, x, f, t))
    case Compare(op, l, r) =>
      if NegateOp(op).Some? then TranslateComparison(NegateOp(op).value, l, r)
      else Nor(TranslateWhere(e))
    case _ => Nor(TranslateWhere(e))
  }

  /** The fallback for shapes without a negation of their own. */
  function Nor(inner: Result<M.Filter>): Result<M.Filter> {
    var f :- inner;
    Success(M.FNor(f))
  }

  function FieldOf(col: Expr): string
    requires col.Col?
  {
    PathOf(col.qual, col.name, "")
  }

  function RangeFilter(isBetween: bool, field: string, from: Value, to: Value): M.Filter {
    if isBetween then M.Field(field, M.TRange(from, to))
    else M.FOr(M.Field(field, M.TLt(from)), M.Field(field, M.TGt(to)))
  }

  function IsTestOf(op: IsOp): M.FieldTest {
    match op
    case IsNull => M.TEq(Null)
    case IsNotNull => M.TNe(Null)
    case IsTrue => M.TEq(Bool(true))
    case IsNotTrue => M.TNe(Bool(true))
    case IsFalse => M.TEq(Bool(false))
    case IsNotFalse => M.TNe(Bool(false))
  }

  function ExprOp(op: CmpOp): Option<M.CompareOp> {
    match op
    case Eq => Some(M.CEq)
    case NullSafeEq => Some(M.CEq)
    case Ne => Some(M.CNe)
    case Lt => Some(M.CLt)
    case Le => Some(M.CLte)
    case Gt => Some(M.CGt)
    case Ge => Some(M.CGte)
    case _ => None
  }

  predicate IsConstant(e: Expr) {
    e.Lit? || e.BoolLit? || e.NullLit?
  }

  function TranslateComparison(op: CmpOp, l: Expr, r: Expr): Result<M.Filter> {
    if ExprOp(op).Some? && !(l.Col? && IsConstant(r)) then
      var a :- ToAgg(l, "");
      var b :- ToAgg(r, "");
      Success(M.FExpr(ExprOp(op).value, a, b))
    else if !l.Col? then Failure("comparison left side must be a column")
    else if IsPattern(op) then
      var p :- PatternOf(r);
      Success(M.Field(FieldOf(l), PatternTest(op, p)))
    else
      var v :- StaticValue(r);
      Success(FieldComparison(op, FieldOf(l), ToBson(v)))
  }

  predicate IsPattern(op: CmpOp) {
    op == LikeOp || op == NotLike || op == Regexp || op == NotRegexp
  }

  /** LIKE ignores case; REGEXP is passed on as it is. */
  function PatternTest(op: CmpOp, p: string): M.FieldTest
    requires IsPattern(op)
  {
    match op
    case LikeOp => M.TRegex(Like.RegexFor(p), true)
    case NotLike => M.TNotRegex(Like.RegexFor(p), true)
    case Regexp => M.TRegex(p, false)
    case NotRegexp => M.TNotRegex(p, false)
  }

  function PatternOf(r: Expr): Result<string> {
    if r.Lit? && r.lit.StrVal? then Success(r.lit.s) else Failure("right side must be a string literal")
  }

  /** A column compared with a constant. `!=` also asks for a value, as NULL differs from nothing. */
  function FieldComparison(op: CmpOp, field: string, v: Value): M.Filter {
    match op
    case Ne =>
      if v == Null then M.Field(field, M.TNe(Null))
      else M.FAnd(M.Field(field, M.TNe(v)), M.Field(field, M.TNe(Null)))
    case Lt => M.Field(field, M.TLt(v))
    case Le => M.Field(field, M.TLte(v))
    case Gt => M.Field(field, M.TGt(v))
    case Ge => M.Field(field, M.TGte(v))
    case In => M.Field(field, M.TIn(v))
    case NotIn => M.Field(field, M.TNin(v))
    case _ => M.Field(field, M.TEq(v))
  }

  // ----- the translator is closed under NOT -----

  lemma {:induction false} NegationSucceeds(e: Expr)
    ensures NegateWhere(e).Success? <==> TranslateWhere(e).Success?
    decreases Size(e)
  {
    match e
    case And(l, r) =>
      NegationSucceeds(l);
      NegationSucceeds(r);
    case Or(l, r) =>
      NegationSucceeds(l);
      NegationSucceeds(r);
    case Not(x) => NegationSucceeds(x);
    case Compare(op, l, r) => ComparisonSucceeds(op, l, r);
    case _ =>
  }

  /** Which comparisons are accepted. */
  predicate Accepts(op: CmpOp, l: Expr, r: Expr) {
    if ExprOp(op).Some? && !(l.Col? && IsConstant(r)) then ToAgg(l, "").Success? && ToAgg(r, "").Success?
    else l.Col? && if IsPattern(op) then PatternOf(r).Success? else StaticValue(r).Success?
  }

  lemma {:induction false} AcceptedExactly(op: CmpOp, l: Expr, r: Expr)
    ensures TranslateComparison(op, l, r).Success? <==> Accepts(op, l, r)
  {
  }

  lemma {:induction false} NegationAlike(op: CmpOp)
    requires NegateOp(op).Some?
    ensures ExprOp(NegateOp(op).value).Some? <==> ExprOp(op).Some?
    ensures IsPattern(NegateOp(op).value) <==> IsPattern(op)
  {
  }

  lemma {:induction false} AcceptsNegation(op: CmpOp, l: Expr, r: Expr)
    requires NegateOp(op).Some?
    ensures Accepts(NegateOp(op).value, l, r) <==> Accepts(op, l, r)
  {
    NegationAlike(op);
  }

  lemma {:induction false} ComparisonSucceeds(op: CmpOp, l: Expr, r: Expr)
    ensures NegateWhere(Compare(op, l, r)).Success? <==> TranslateComparison(op, l, r).Success?
  {
    if NegateOp(op).Some? {
      AcceptedExactly(op, l, r);
      AcceptedExactly(NegateOp(op).value, l, r);
      AcceptsNegation(op, l, r);
    }
  }

  // ----- removing the main table's qualifier -----

  function Unqualify(e: Expr, main: string): Expr {
    match e
    case Col(q, n) => if q == main then Col("", n) else e
    case Lit(_) => e
    case BoolLit(_) => e
    case NullLit => e
    case Tuple(es) => Tuple(UnqualifyAll(es, main))
    case Unary(op, x) => Unary(op, Unqualify(x, main))
    case Binary(op, l, r) => Binary(op, Unqualify(l, main), Unqualify(r, main))
    case Compare(op, l, r) => Compare(op, Unqualify(l, main), Unqualify(r, main))
    case And(l, r) => And(Unqualify(l, main), Unqualify(r, main))
    case Or(l, r) => Or(Unqualify(l, main), Unqualify(r, main))
    case Not(x) => Not(Unqualify(x, main))
    case Is(x, op) => Is(Unqualify(x, main), op)
    case Between(b, x, f, t) => Between(b, Unqualify(x, main), Unqualify(f, main), Unqualify(t, main))
    case Case(b, ws) =>
      Case(if b.Some? then Some(Unqualify(b.value, main)) else None, UnqualifyWhens(ws, main))
    case Func(f, es) => Func(f, UnqualifyAll(es, main))
    case Agg(_) => e
  }

  function UnqualifyAll(es: Exprs, main: string): Exprs {
    match es
    case ENil => ENil
    case ECons(h, t) => ECons(Unqualify(h, main), UnqualifyAll(t, main))
  }

  function UnqualifyWhens(ws: Whens, main: string): Whens {
    match ws
    case NoElse => NoElse
    case Else(x) => Else(Unqualify(x, main))
    case When(c, v, rest) => When(Unqualify(c, main), Unqualify(v, main), UnqualifyWhens(rest, main))
  }
}
