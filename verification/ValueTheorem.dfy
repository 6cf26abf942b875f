/** Compiled value expressions mean what SQL says. */
module ValueTheorem {
  import opened Wrappers
  import opened Bson
  import opened Sql
  import opened Compiler
  import M = Mongo
  import Like
  import Rounding

  // ----- the conditions -----

  /** Columns the path reading agrees on: absent or NULL in the document is NULL in SQL. */
  ghost predicate Represents(doc: Document, env: Env, main: string, cols: set<(string, string)>) {
    forall c :: c in cols ==> ColumnAgrees(doc, env, main, c)
  }

  predicate ColumnAgrees(doc: Document, env: Env, main: string, c: (string, string)) {
    NullOf(Get(doc, PathOf(c.0, c.1, main))) == env.col(c.0, c.1) && IsScalar(env.col(c.0, c.1))
  }

  predicate AllPresent(cols: set<(string, string)>, doc: Document, main: string) {
    forall c :: c in cols ==> Get(doc, PathOf(c.0, c.1, main)) != Missing
  }

  predicate PlainColumn(q: string, n: string) {
    GoodName(n) && (q == "" || GoodName(q))
  }

  predicate PlainLiteral(l: Literal) {
    match l
    case StrVal(s) => s == [] || s[0] != '$'
    case IntVal(i, _) => InInt64(i)
    case DecVal(_) => true
  }

  /** Names are usable, strings do not begin with `$`, integers fit, constant calls are sound. */
  predicate Plain(e: Expr) {
    match e
    case Col(q, n) => PlainColumn(q, n)
    case Lit(l) => PlainLiteral(l)
    case BoolLit(_) => true
    case NullLit => true
    case Tuple(es) => PlainAll(es)
    case Unary(_, x) => Plain(x)
    case Binary(_, l, r) => Plain(l) && Plain(r)
    case Compare(_, l, r) => Plain(l) && Plain(r)
    case And(l, r) => Plain(l) && Plain(r)
    case Or(l, r) => Plain(l) && Plain(r)
    case Not(x) => Plain(x)
    case Is(x, _) => Plain(x)
    case Between(_, x, f, t) => Plain(x) && Plain(f) && Plain(t)
    case Case(b, ws) => (b.Some? ==> Plain(b.value)) && PlainWhens(ws)
    case Func(_, es) => PlainAll(es)
    case Agg(_) => true
  }

  predicate PlainAll(es: Exprs) {
    match es
    case ENil => true
    case ECons(h, t) => Plain(h) && PlainAll(t)
  }

  predicate PlainWhens(ws: Whens) {
    match ws
    case NoElse => true
    case Else(x) => Plain(x)
    case When(c, v, rest) => Plain(c) && Plain(v) && PlainWhens(rest)
  }

  predicate NonNull(r: Outcome) {
    r.Ok? && r.v != Null
  }

  predicate SafeDivision(op: BinOp, a: Outcome, b: Outcome) {
    (op == Div || op == IntDiv || op == Mod ==> b != Ok(Num(0.0)))
    && (op == IntDiv && a.Ok? && b.Ok? && a.v.Num? && b.v.Num? && b.v.n != 0.0 ==>
          InInt64(Trunc(Over(a.v.n, b.v.n))))
  }

  /** IS TRUE and its kind look for booleans: numbers are right where they are not the one asked for. */
  predicate TruthTestFits(op: IsOp, v: Value) {
    v.Num? ==> (v.n != 0.0 <==> op == IsFalse || op == IsNotFalse)
  }

  /** An expression that cannot come out as an absent field: a column must be there. */
  predicate Settled(e: Expr, doc: Document, main: string) {
    match e
    case Col(q, n) => Get(doc, PathOf(q, n, main)) != Missing
    case Unary(_, x) => Settled(x, doc, main)
    case Case(_, _) => AllPresent(Cols(e), doc, main)
    case Func(_, _) => AllPresent(Cols(e), doc, main)
    case _ => true
  }

  /** SQL knows whether the value is a member: no NULL on either side leaves it open. */
  predicate MemberKnown(v: Value, list: seq<Value>) {
    (v != Null || list == []) && (Null in list ==> v in list)
  }

  /** No NULL operand; `<=>` takes them, unless both are NULL and one may be absent, and IN if they leave nothing open. */
  predicate SafeOperands(op: CmpOp, a: Outcome, b: Outcome, settled: bool) {
    a.Ok? && b.Ok?
    && match op
       case NullSafeEq => settled || !(a.v.Null? && b.v.Null?)
       case In => b.v.Arr? && MemberKnown(a.v, b.v.items)
       case NotIn => b.v.Arr? && MemberKnown(a.v, b.v.items)
       case LikeOp => NonNull(a) && NonNull(b) && (a.v.Str? ==> '\n' !in a.v.s)
       case NotLike => NonNull(a) && NonNull(b) && (a.v.Str? ==> '\n' !in a.v.s)
       case _ => NonNull(a) && NonNull(b)
  }

  /** Which operands a comparison tests rightly when only TRUE counts; between two NULLs it matters that neither is an absent field. */
  predicate OperandsFit(op: CmpOp, a: Outcome, b: Outcome, settled: bool) {
    a.Ok? && b.Ok?
    && match op
       case Eq => !(a.v.Null? && b.v.Null?)
       case NullSafeEq => settled || !(a.v.Null? && b.v.Null?)
       case Ne => (!a.v.Null? && !b.v.Null?) || (a.v.Null? && b.v.Null? && settled)
       case Lt => a.v.Null? ==> b.v.Null? && settled
       case Le => !a.v.Null?
       case Gt => b.v.Null? ==> a.v.Null? && settled
       case _ => !b.v.Null?
  }

  predicate TestOperands(op: CmpOp, a: Outcome, b: Outcome, settled: bool) {
    match op
    case In => SafeOperands(op, a, b, settled)
    case NotIn => SafeOperands(op, a, b, settled)
    case LikeOp => SafeOperands(op, a, b, settled)
    case NotLike => SafeOperands(op, a, b, settled)
    case Regexp => false
    case NotRegexp => false
    case _ => OperandsFit(op, a, b, settled)
  }

  /** A condition of CASE or IF, of which it only matters whether it is TRUE. */
  predicate SafeTest(e: Expr, env: Env, doc: Document, main: string)
    decreases e, 1
  {
    match e
    case Compare(op, l, r) =>
      Safe(l, env, doc, main) && Safe(r, env, doc, main)
      && TestOperands(op, Eval(l, env), Eval(r, env), Settled(l, doc, main) && Settled(r, doc, main))
    case And(l, r) => SafeTest(l, env, doc, main) && (TruthOutcome(Eval(l, env)) == Some(T) ==> SafeTest(r, env, doc, main))
    case Or(l, r) => SafeTest(l, env, doc, main) && (TruthOutcome(Eval(l, env)) != Some(T) ==> SafeTest(r, env, doc, main))
    case _ => Safe(e, env, doc, main)
  }

  /** No evaluated comparison has a NULL operand, no AND, OR, NOT or BETWEEN comes out NULL, no operand of IS NULL is absent,
      no evaluated divisor zero; but conditions of CASE and IF need only be TRUE when they should. */
  predicate Safe(e: Expr, env: Env, doc: Document, main: string)
    decreases e, 0
  {
    match e
    case Col(_, _) => true
    case Lit(_) => true
    case BoolLit(_) => true
    case NullLit => true
    case Tuple(es) => SafeAll(es, env, doc, main)
    case Unary(_, x) => Safe(x, env, doc, main)
    case Binary(op, l, r) =>
      Safe(l, env, doc, main) && Safe(r, env, doc, main) && SafeDivision(op, Eval(l, env), Eval(r, env))
    case Compare(op, l, r) =>
      Safe(l, env, doc, main) && Safe(r, env, doc, main)
      && SafeOperands(op, Eval(l, env), Eval(r, env), Settled(l, doc, main) && Settled(r, doc, main))
    case And(l, r) =>
      Safe(l, env, doc, main) && NonNull(Eval(e, env)) && (TruthOutcome(Eval(l, env)) == Some(T) ==> Safe(r, env, doc, main))
    case Or(l, r) =>
      Safe(l, env, doc, main) && NonNull(Eval(e, env)) && (TruthOutcome(Eval(l, env)) != Some(T) ==> Safe(r, env, doc, main))
    case Not(x) => Safe(x, env, doc, main) && NonNull(Eval(x, env))
    case Is(x, op) =>
      Safe(x, env, doc, main)
      && (if op == IsNull || op == IsNotNull then Settled(x, doc, main)
          else Eval(x, env).Ok? && TruthTestFits(op, Eval(x, env).v))
    case Between(_, x, f, t) =>
      Safe(x, env, doc, main) && Safe(f, env, doc, main) && Safe(t, env, doc, main) && NonNull(Eval(e, env))
    case Case(b, ws) =>
      if b.Some? then
        Safe(b.value, env, doc, main) && Eval(b.value, env).Ok?
        && SafeSimple(Eval(b.value, env), ws, env, doc, main)
      else SafeSearched(ws, env, doc, main)
    case Func(f, es) => if MentionsAny(es) then SafeCall(f, es, env, doc, main) else StaticSafe(e)
    case Agg(_) => false
  }

  predicate SafeAll(es: Exprs, env: Env, doc: Document, main: string)
    decreases es, 0
  {
    match es
    case ENil => true
    case ECons(h, t) => Safe(h, env, doc, main) && SafeAll(t, env, doc, main)
  }

  predicate SafeSimple(base: Outcome, ws: Whens, env: Env, doc: Document, main: string)
    decreases ws, 0
  {
    match ws
    case NoElse => true
    case Else(x) => Safe(x, env, doc, main)
    case When(c, v, rest) =>
      Safe(c, env, doc, main) && Eval(c, env).Ok? && !(base == Ok(Null) && Eval(c, env) == Ok(Null))
      && if TruthOutcome(Comparison(Eq, base, Eval(c, env))) == Some(T) then Safe(v, env, doc, main)
         else SafeSimple(base, rest, env, doc, main)
  }

  predicate SafeSearched(ws: Whens, env: Env, doc: Document, main: string)
    decreases ws, 0
  {
    match ws
    case NoElse => true
    case Else(x) => Safe(x, env, doc, main)
    case When(c, v, rest) =>
      SafeTest(c, env, doc, main)
      && if TruthOutcome(Eval(c, env)) == Some(T) then Safe(v, env, doc, main)
         else SafeSearched(rest, env, doc, main)
  }

  predicate SafeCall(f: FuncName, es: Exprs, env: Env, doc: Document, main: string)
    decreases es, 1
  {
    match (f, es)
    case (FnIf, ECons(c, ECons(a, ECons(b, _)))) =>
      SafeTest(c, env, doc, main)
      && if TruthOutcome(Eval(c, env)) == Some(T) then Safe(a, env, doc, main) else Safe(b, env, doc, main)
    case (FnNullIf, ECons(a, ECons(b, _))) =>
      Safe(a, env, doc, main) && Safe(b, env, doc, main)
    case (FnMod, ECons(a, ECons(b, _))) =>
      Safe(a, env, doc, main) && Safe(b, env, doc, main) && SafeDivision(Mod, Eval(a, env), Eval(b, env))
    case (FnRound, _) => SafeAll(es, env, doc, main)
    case (FnCoalesce, ECons(_, ENil)) => false
    case _ => SafeFirst(es, env, doc, main)
  }

  predicate SafeFirst(es: Exprs, env: Env, doc: Document, main: string)
    decreases es, 0
  {
    match es
    case ENil => true
    case ECons(h, t) =>
      Safe(h, env, doc, main) && (NonNull(Eval(h, env)) || SafeFirst(t, env, doc, main))
  }

  // ----- constant calls -----

  /** A constant call uses comparisons only as IF's condition, on numbers, and divides by no zero. */
  predicate StaticSafe(e: Expr)
    decreases e, 1
  {
    match e
    case Lit(_) => true
    case BoolLit(_) => true
    case NullLit => true
    case Unary(_, x) => StaticSafe(x)
    case Func(f, es) => StaticSafeCall(f, es)
    case _ => false
  }

  predicate StaticSafeAll(es: Exprs)
    decreases es, 0
  {
    match es
    case ENil => true
    case ECons(h, t) => StaticSafe(h) && StaticSafeAll(t)
  }

  predicate StaticSafeCall(f: FuncName, es: Exprs)
    decreases es, 1
  {
    match f
    case FnIf =>
      es.ECons? && StaticSafeAll(es.tail)
      && (if es.head.Compare? then
            StaticSafe(es.head.l) && StaticSafe(es.head.r)
            && StaticNumber(es.head.l) && StaticNumber(es.head.r)
          else StaticSafe(es.head))
    case FnNullIf =>
      StaticSafeAll(es) && es.ECons? && es.tail.ECons?
      && StaticNumber(es.head) && StaticNumber(es.tail.head)
    case FnRound =>
      StaticSafeAll(es) && es.ECons?
      && var x, d := StaticValue(es.head), if es.tail.ECons? then StaticValue(es.tail.head) else Success(GInt(0));
         x.Success? && d.Success? && IsNumber(x.value) && d.value.GInt?
         && Rounding.StaticRight(ToFloat(x.value).value, d.value.i)
    case FnMod =>
      StaticSafeAll(es) && es.ECons? && es.tail.ECons?
      && StaticNumber(es.head) && StaticNumber(es.tail.head)
    case _ => StaticSafeAll(es)
  }

  predicate StaticNumber(e: Expr) {
    var v := StaticValue(e);
    v.Success? && IsNumber(v.value)
  }

  // ----- static evaluation agrees with SQL -----

  /** Constant evaluation gives the SQL value. */
  lemma {:induction false} StaticCorrect(e: Expr, env: Env)
    requires StaticValue(e).Success? && StaticSafe(e) && Plain(e)
    requires Eval(e, env).Ok?
    ensures Eval(e, env) == Ok(ToBson(StaticValue(e).value))
    decreases e, 1
  {
    match e
    case Lit(_) =>
    case BoolLit(_) =>
    case NullLit =>
    case Unary(_, x) => StaticCorrect(x, env);
    case Func(f, es) => StaticCallCorrect(f, es, env);
  }

  lemma {:induction false} StaticCallCorrect(f: FuncName, es: Exprs, env: Env)
    requires StaticValue(Func(f, es)).Success? && StaticSafeCall(f, es) && PlainAll(es)
    requires Call(f, es, env).Ok?
    ensures Call(f, es, env) == Ok(ToBson(StaticValue(Func(f, es)).value))
    decreases es, 1
  {
    var vs := StaticValues(es).value;
    if f.FnNullIf? || f.FnMod? || (f.FnRound? && es.tail.ECons?) {
      assert PlainAll(es.tail) && StaticSafeAll(es.tail);
    }
    match f
    case FnIf => StaticIf(es, vs, env);
    case FnIfNull => FirstAgrees(es, vs, env);
    case FnCoalesce => FirstAgrees(es, vs, env);
    case FnNullIf =>
      StaticCorrect(es.head, env);
      StaticCorrect(es.tail.head, env);
      TwoValues(es);
    case FnRound =>
      StaticCorrect(es.head, env);
      if es.tail.ECons? {
        StaticCorrect(es.tail.head, env);
        TwoValues(es);
      }
      StaticRoundCorrect(es, env);
    case FnMod =>
      StaticCorrect(es.head, env);
      StaticCorrect(es.tail.head, env);
      TwoValues(es);
      StaticModCorrect(StaticValue(es.head).value, StaticValue(es.tail.head).value, vs);
  }

  lemma {:induction false} TwoValues(es: Exprs)
    requires StaticValues(es).Success? && es.ECons? && es.tail.ECons?
    ensures StaticValue(es.head).Success? && StaticValue(es.tail.head).Success?
    ensures var vs := StaticValues(es).value;
            |vs| >= 2 && vs[0] == StaticValue(es.head).value && vs[1] == StaticValue(es.tail.head).value
  {
  }

  lemma {:induction false} StaticRoundCorrect(es: Exprs, env: Env)
    requires StaticValues(es).Success? && StaticSafeCall(FnRound, es)
    requires Eval(es.head, env) == Ok(ToBson(StaticValue(es.head).value))
    requires es.tail.ECons? ==> Eval(es.tail.head, env) == Ok(ToBson(StaticValue(es.tail.head).value))
    requires Call(FnRound, es, env).Ok?
    ensures EvalFunc(FnRound, StaticValues(es).value).Success?
    ensures Call(FnRound, es, env) == Ok(ToBson(EvalFunc(FnRound, StaticValues(es).value).value))
  {
    var x := StaticValue(es.head).value;
    if es.tail.ECons? {
      TwoValues(es);
      RoundOnValues(x, StaticValue(es.tail.head).value);
      assert Call(FnRound, es, env) == RoundTo(Eval(es.head, env), Eval(es.tail.head, env));
    } else {
      assert StaticValues(es).value == [x] + StaticValues(ENil).value;
      RoundOnValues(x, GInt(0));
      assert Call(FnRound, es, env) == RoundTo(Eval(es.head, env), Ok(Num(0.0)));
    }
  }

  lemma {:induction false} RoundOnValues(x: GoVal, d: GoVal)
    requires IsNumber(x) && d.GInt? && Rounding.StaticRight(ToFloat(x).value, d.i)
    ensures RoundTo(Ok(ToBson(x)), Ok(ToBson(d))) == Ok(Num(Rounding.StaticRoundOf(ToFloat(x).value, d.i)))
  {
    Rounding.StaticExactly(ToFloat(x).value, d.i);
    assert (d.i as real).Floor == d.i;
  }

  lemma {:induction false} StaticModCorrect(a: GoVal, b: GoVal, vs: seq<GoVal>)
    requires IsNumber(a) && IsNumber(b) && |vs| >= 2 && vs[0] == a && vs[1] == b
    ensures EvalFunc(FnMod, vs).Success?
    ensures Arith(Mod, Ok(ToBson(a)), Ok(ToBson(b))) == Ok(ToBson(EvalFunc(FnMod, vs).value))
  {
    if a.GInt? && b.GInt? && b.i != 0 {
      ModInts(a.i, b.i);
    }
  }

  lemma {:induction false} ThreeValues(es: Exprs, vs: seq<GoVal>)
    requires StaticValues(es) == Success(vs) && es.ECons? && es.tail.ECons? && es.tail.tail.ECons?
    ensures StaticValue(es.head).Success? && StaticValue(es.tail.head).Success? && StaticValue(es.tail.tail.head).Success?
    ensures |vs| >= 3 && vs[0] == StaticValue(es.head).value && vs[1] == StaticValue(es.tail.head).value
            && vs[2] == StaticValue(es.tail.tail.head).value
  {
    TwoValues(es);
    TwoValues(es.tail);
    assert vs[1..] == StaticValues(es.tail).value;
    assert vs[2] == vs[1..][1];
  }

  /** A static condition chooses as the SQL one does. */
  lemma {:induction false} StaticTest(c: Expr, env: Env)
    requires StaticValue(c).Success? && Plain(c) && TruthOutcome(Eval(c, env)).Some?
    requires if c.Compare? then StaticSafe(c.l) && StaticSafe(c.r) && StaticNumber(c.l) && StaticNumber(c.r) else StaticSafe(c)
    ensures IsTruthy(StaticValue(c).value) == Success(TruthOutcome(Eval(c, env)) == Some(T))
    decreases c, 2
  {
    if c.Compare? {
      StaticComparison(c, env);
    } else {
      StaticCorrect(c, env);
    }
  }

  lemma {:induction false} StaticComparison(c: Expr, env: Env)
    requires c.Compare? && StaticValue(c).Success? && Plain(c) && TruthOutcome(Eval(c, env)).Some?
    requires StaticSafe(c.l) && StaticSafe(c.r) && StaticNumber(c.l) && StaticNumber(c.r)
    ensures IsTruthy(StaticValue(c).value) == Success(TruthOutcome(Eval(c, env)) == Some(T))
    decreases c, 1
  {
    StaticCorrect(c.l, env);
    StaticCorrect(c.r, env);
  }

  lemma {:induction false} StaticIf(es: Exprs, vs: seq<GoVal>, env: Env)
    requires StaticValues(es) == Success(vs) && EvalFunc(FnIf, vs).Success?
    requires StaticSafeCall(FnIf, es) && PlainAll(es)
    requires Call(FnIf, es, env).Ok?
    ensures Call(FnIf, es, env) == Ok(ToBson(EvalFunc(FnIf, vs).value))
    decreases es, 0
  {
    var c, a, b := es.head, es.tail.head, es.tail.tail.head;
    assert Call(FnIf, es, env) == Choose(Eval(c, env), Eval(a, env), Eval(b, env));
    ThreeValues(es, vs);
    StaticTest(c, env);
    assert StaticSafeAll(es.tail.tail) && PlainAll(es.tail.tail);
    if TruthOutcome(Eval(c, env)) == Some(T) {
      StaticCorrect(a, env);
    } else {
      StaticCorrect(b, env);
    }
  }

  lemma {:induction false} FirstAgrees(es: Exprs, vs: seq<GoVal>, env: Env)
    requires StaticValues(es) == Success(vs)
    requires StaticSafeAll(es) && PlainAll(es)
    requires FirstNonNull(es, env).Ok?
    ensures FirstNonNull(es, env) == Ok(ToBson(FirstNotNil(vs)))
    decreases es, 0
  {
    match es
    case ENil =>
    case ECons(h, t) =>
      StaticCorrect(h, env);
      assert vs[0] == StaticValue(h).value && vs[1..] == StaticValues(t).value;
      if vs[0] == GNil {
        FirstAgrees(t, vs[1..], env);
      }
  }

  lemma {:induction false} ModInts(a: int, b: int)
    requires b != 0
    ensures TruncMod(a, b) as real == Remainder(a as real, b as real)
  {
    TruncDivIsTrunc(a, b);
    TimesInts(b, TruncDiv(a, b));
  }

  lemma {:induction false} TimesInts(a: int, b: int)
    ensures Times(a as real, b as real) == (a * b) as real
  {
  }

  lemma {:induction false} FloorQuotient(a: nat, b: nat)
    requires b > 0
    ensures Over(a as real, b as real).Floor == a / b
  {
    var q := a / b;
    assert b * q <= a < b * q + b;
    TimesInts(b, q);
    QuotientBounds(a as real, b as real, q as real);
    Rounding.FloorIs(Over(a as real, b as real), q);
  }

  lemma {:induction false} ProductSign(u: real, b: real)
    requires b > 0.0
    ensures u > 0.0 ==> u * b > 0.0
    ensures u >= 0.0 ==> u * b >= 0.0
  {
  }

  lemma {:induction false} QuotientBounds(a: real, b: real, q: real)
    requires b > 0.0 && Times(b, q) <= a < Times(b, q) + b
    ensures q <= Over(a, b) < q + 1.0
  {
    var x := Over(a, b);
    assert x * b == a;
    ProductSign(q - x, b);
    ProductSign(x - q - 1.0, b);
    assert (q - x) * b == b * q - x * b;
    assert (x - q - 1.0) * b == x * b - b * q - b;
  }

  lemma {:induction false} OverSigns(a: real, b: real)
    requires b != 0.0
    ensures Over(-a, b) == -Over(a, b) && Over(a, -b) == -Over(a, b)
    ensures a >= 0.0 && b > 0.0 ==> Over(a, b) >= 0.0
  {
    var x := a / b;
    assert x * b == a;
    assert (-x) * b == -a;
    assert (-x) * (-b) == a;
    if b > 0.0 {
      ProductSign(-x, b);
    }
  }

  lemma {:induction false} TruncDivIsTrunc(a: int, b: int)
    requires b != 0
    ensures Trunc(Over(a as real, b as real)) == TruncDiv(a, b)
  {
    var p, q := AbsInt(a), AbsInt(b);
    FloorQuotient(p, q);
    OverSigns(p as real, q as real);
    OverSigns(-(p as real), q as real);
  }

  // ----- operators agree on agreeing operands -----

  /** What the compiled operator computes from its operands. */
  function ArithOn(op: BinOp, a: Outcome, b: Outcome): Outcome {
    match op
    case Plus => M.Arith(M.Add, a, b)
    case Minus => M.Arith(M.Subtract, a, b)
    case Mult => M.Arith(M.Multiply, a, b)
    case Div => M.Arith(M.Divide, a, b)
    case Mod => M.Arith(M.MMod, a, b)
    case IntDiv => M.Truncated(M.Arith(M.Divide, a, b))
    case OtherBinary => Err
  }

  lemma {:induction false} ArithAgrees(op: BinOp, p: Outcome, q: Outcome)
    requires Arith(op, NullOfOutcome(p), NullOfOutcome(q)).Ok?
    requires SafeDivision(op, NullOfOutcome(p), NullOfOutcome(q))
    ensures NullOfOutcome(ArithOn(op, p, q)) == Arith(op, NullOfOutcome(p), NullOfOutcome(q))
  {
  }

  function CompareOn(op: CmpOp, a: Outcome, b: Outcome): Outcome {
    match op
    case Eq => M.Compare(M.CEq, a, b)
    case NullSafeEq => M.Compare(M.CEq, a, b)
    case Ne => M.Compare(M.CNe, a, b)
    case Lt => M.Compare(M.CLt, a, b)
    case Le => M.Compare(M.CLte, a, b)
    case Gt => M.Compare(M.CGt, a, b)
    case Ge => M.Compare(M.CGte, a, b)
    case In => M.Contains(a, b)
    case NotIn => M.Choose(M.Contains(a, b), Ok(Bool(false)), Ok(Bool(true)))
    case LikeOp => LikeOn(a, b)
    case NotLike => M.Choose(LikeOn(a, b), Ok(Bool(false)), Ok(Bool(true)))
    case Regexp => Err
    case NotRegexp => Err
  }

  function LikeOn(a: Outcome, b: Outcome): Outcome {
    if b.Ok? && b.v.Str? then M.TestRegex(a, Like.RegexFor(b.v.s)) else Err
  }

  lemma {:induction false} CompareAgrees(op: CmpOp, p: Outcome, q: Outcome)
    requires Comparison(op, NullOfOutcome(p), NullOfOutcome(q)).Ok?
    requires SafeOperands(op, NullOfOutcome(p), NullOfOutcome(q), p != Ok(Missing) && q != Ok(Missing))
    ensures CompareOn(op, p, q) == Comparison(op, NullOfOutcome(p), NullOfOutcome(q))
  {
    if op == LikeOp || op == NotLike {
      Like.LikeAgrees(q.v.s, p.v.s);
    }
  }

  lemma {:induction false} MoreFit(op: CmpOp, a: Outcome, b: Outcome, s: bool, t: bool)
    requires OperandsFit(op, a, b, s) && (s ==> t)
    ensures OperandsFit(op, a, b, t)
  {
  }

  lemma {:induction false} MoreTest(op: CmpOp, a: Outcome, b: Outcome, s: bool, t: bool)
    requires TestOperands(op, a, b, s) && (s ==> t)
    ensures TestOperands(op, a, b, t)
  {
  }

  /** The outcome of a test is TRUE when SQL's is, and never an error. */
  predicate Tests(t: Outcome, r: Outcome) {
    t.Ok? && (M.Truthy(t.v) <==> TruthOutcome(r) == Some(T))
  }

  lemma {:induction false} CompareTests(op: CmpOp, p: Outcome, q: Outcome)
    requires Comparison(op, NullOfOutcome(p), NullOfOutcome(q)).Ok?
    requires TestOperands(op, NullOfOutcome(p), NullOfOutcome(q), p != Ok(Missing) && q != Ok(Missing))
    ensures Tests(CompareOn(op, p, q), Comparison(op, NullOfOutcome(p), NullOfOutcome(q)))
  {
    if op == In || op == NotIn || op == LikeOp || op == NotLike {
      CompareAgrees(op, p, q);
    }
  }

  lemma {:induction false} AndTests(p: Outcome, q: Outcome, a: Outcome, b: Outcome)
    requires Connect(true, a, b).Ok? && Tests(p, a) && (TruthOutcome(a) == Some(T) ==> Tests(q, b))
    ensures Tests(M.Choose(p, M.AsBool(q), Ok(Bool(false))), Connect(true, a, b))
  {
  }

  lemma {:induction false} OrTests(p: Outcome, q: Outcome, a: Outcome, b: Outcome)
    requires Connect(false, a, b).Ok? && Tests(p, a) && (TruthOutcome(a) != Some(T) ==> Tests(q, b))
    ensures Tests(M.Choose(p, Ok(Bool(true)), M.AsBool(q)), Connect(false, a, b))
  {
  }

  lemma {:induction false} TestChooses(t: Outcome, r: Outcome, yes: Outcome, no: Outcome, yes': Outcome, no': Outcome)
    requires Tests(t, r) && Choose(r, yes, no).Ok?
    requires TruthOutcome(r) == Some(T) ==> NullOfOutcome(yes') == yes
    requires TruthOutcome(r) != Some(T) ==> NullOfOutcome(no') == no
    ensures NullOfOutcome(M.Choose(t, yes', no')) == Choose(r, yes, no)
  {
  }

  lemma {:induction false} AgreeingTests(t: Outcome)
    requires TruthOutcome(NullOfOutcome(t)).Some?
    ensures Tests(t, NullOfOutcome(t))
  {
  }

  function IsOn(op: IsOp, a: Outcome): Outcome {
    match op
    case IsNull => M.Compare(M.CEq, a, Ok(Null))
    case IsNotNull => M.Compare(M.CNe, a, Ok(Null))
    case IsTrue => M.Compare(M.CEq, a, Ok(Bool(true)))
    case IsNotTrue => M.Compare(M.CNe, a, Ok(Bool(true)))
    case IsFalse => M.Compare(M.CEq, a, Ok(Bool(false)))
    case IsNotFalse => M.Compare(M.CNe, a, Ok(Bool(false)))
  }

  lemma {:induction false} IsAgrees(op: IsOp, p: Outcome)
    requires IsTest(op, NullOfOutcome(p)).Ok?
    requires op == IsNull || op == IsNotNull ==> p != Ok(Missing)
    requires op != IsNull && op != IsNotNull ==> TruthTestFits(op, NullOf(p.v))
    ensures IsOn(op, p) == IsTest(op, NullOfOutcome(p))
  {
  }

  /** An equality that only chooses may have one NULL operand. */
  lemma {:induction false} EqualityChooses(p: Outcome, q: Outcome, yes: Outcome, no: Outcome, yes': Outcome, no': Outcome)
    requires var t := Comparison(Eq, NullOfOutcome(p), NullOfOutcome(q));
             t.Ok? && Choose(t, yes, no).Ok?
             && (TruthOutcome(t) == Some(T) ==> NullOfOutcome(yes') == yes)
             && (TruthOutcome(t) != Some(T) ==> NullOfOutcome(no') == no)
    requires NullOfOutcome(p) == Ok(Null) == NullOfOutcome(q) ==> NullOfOutcome(yes') == no
    ensures NullOfOutcome(M.Choose(M.Compare(M.CEq, p, q), yes', no'))
            == Choose(Comparison(Eq, NullOfOutcome(p), NullOfOutcome(q)), yes, no)
  {
  }

  lemma {:induction false} AndAgrees(p: Outcome, q: Outcome, b: Outcome)
    requires NonNull(Connect(true, NullOfOutcome(p), b))
    requires TruthOutcome(NullOfOutcome(p)) == Some(T) ==> NullOfOutcome(q) == b
    ensures NullOfOutcome(M.Choose(p, M.AsBool(q), Ok(Bool(false)))) == Connect(true, NullOfOutcome(p), b)
  {
  }

  lemma {:induction false} OrAgrees(p: Outcome, q: Outcome, b: Outcome)
    requires NonNull(Connect(false, NullOfOutcome(p), b))
    requires TruthOutcome(NullOfOutcome(p)) != Some(T) ==> NullOfOutcome(q) == b
    ensures NullOfOutcome(M.Choose(p, Ok(Bool(true)), M.AsBool(q))) == Connect(false, NullOfOutcome(p), b)
  {
  }

  /** $and and $or give SQL's value exactly if that is not NULL. */
  lemma {:induction false} ConnectiveExactly(conj: bool, p: Outcome, q: Outcome)
    requires Connect(conj, NullOfOutcome(p), NullOfOutcome(q)).Ok?
    ensures NullOfOutcome(if conj then M.Choose(p, M.AsBool(q), Ok(Bool(false))) else M.Choose(p, Ok(Bool(true)), M.AsBool(q)))
            == Connect(conj, NullOfOutcome(p), NullOfOutcome(q))
            <==> Connect(conj, NullOfOutcome(p), NullOfOutcome(q)) != Ok(Null)
  {
  }

  /** $not gives SQL's value exactly if its operand is not NULL. */
  lemma {:induction false} NotExactly(p: Outcome)
    requires TruthOutcome(NullOfOutcome(p)).Some?
    ensures M.Choose(p, Ok(Bool(false)), Ok(Bool(true))) == Lift(TruthOutcome(NullOfOutcome(p)), t => Not3(t))
            <==> NullOfOutcome(p) != Ok(Null)
  {
  }

  /** Which operands each operator compares rightly, as a value: the NULLs that do no harm. */
  predicate ComparesRightly(op: CmpOp, p: Outcome, q: Outcome) {
    p.Ok? && q.Ok?
    && match op
       case NullSafeEq => p == q || !(NullOf(p.v) == Null == NullOf(q.v))
       case In => q.v.Arr? && MemberKnown(NullOf(p.v), q.v.items)
       case NotIn => q.v.Arr? && MemberKnown(NullOf(p.v), q.v.items)
       case LikeOp => NullOf(p.v) != Null
       case NotLike => NullOf(p.v) != Null
       case _ => NullOf(p.v) != Null && NullOf(q.v) != Null
  }

  /** A comparison operator gives SQL's value exactly for those. */
  lemma {:induction false} ComparedExactly(op: CmpOp, p: Outcome, q: Outcome)
    requires Comparison(op, NullOfOutcome(p), NullOfOutcome(q)).Ok? && op != Regexp && op != NotRegexp
    requires op == LikeOp || op == NotLike ==> q.Ok? && q.v.Str? && (p.Ok? && p.v.Str? ==> '\n' !in p.v.s)
    ensures CompareOn(op, p, q) == Comparison(op, NullOfOutcome(p), NullOfOutcome(q)) <==> ComparesRightly(op, p, q)
  {
    if (op == LikeOp || op == NotLike) && p.v.Str? {
      Like.LikeAgrees(q.v.s, p.v.s);
    }
  }

  /** The $eq of a simple CASE picks its branch rightly exactly if it does not compare NULL with NULL, or absent with absent. */
  lemma {:induction false} WhenExactly(p: Outcome, q: Outcome)
    requires Comparison(Eq, NullOfOutcome(p), NullOfOutcome(q)).Ok?
    ensures Tests(M.Compare(M.CEq, p, q), Comparison(Eq, NullOfOutcome(p), NullOfOutcome(q)))
            <==> !(p == q && NullOfOutcome(p) == Ok(Null))
  {
  }

  /** IS TRUE, IS FALSE and their negations give SQL's value exactly then. */
  lemma {:induction false} TruthTestExactly(op: IsOp, p: Outcome)
    requires op != IsNull && op != IsNotNull && IsTest(op, NullOfOutcome(p)).Ok?
    ensures IsOn(op, p) == IsTest(op, NullOfOutcome(p)) <==> TruthTestFits(op, NullOf(p.v))
  {
  }

  /** COALESCE of one argument, which SQL allows, is refused by the server. */
  lemma {:induction false} CoalesceOfOneFails(a: M.MExpr, doc: Document, vars: map<string, Value>)
    ensures M.Eval(CallAgg(FnCoalesce, M.MCons(a, M.MNil)).value, doc, vars) == Err
  {
  }

  function RoundOn(x: Outcome, d: Outcome): Outcome {
    var mult := M.Power(Ok(Num(10.0)), d);
    var scaled := M.Arith(M.Add, M.Arith(M.Multiply, M.Absolute(x), mult), Ok(Num(0.5)));
    var sign := M.Choose(M.Compare(M.CLt, x, Ok(Num(0.0))), Ok(Num(-1.0)), Ok(Num(1.0)));
    M.Arith(M.Divide, M.Arith(M.Multiply, sign, M.Floored(scaled)), mult)
  }

  lemma {:induction false} RoundAgrees(p: Outcome, q: Outcome)
    requires RoundTo(NullOfOutcome(p), NullOfOutcome(q)).Ok?
    ensures NullOfOutcome(RoundOn(p, q)) == RoundTo(NullOfOutcome(p), NullOfOutcome(q))
  {
    if p.v.Num? && q.v.Num? {
      RoundNumbers(p.v.n, q.v.n, q.v.n.Floor);
    }
  }

  lemma {:induction false} RoundNumbers(x: real, d: real, n: int)
    requires d.Floor == n && n as real == d
    ensures RoundOn(Ok(Num(x)), Ok(Num(d))) == Ok(Num(Rounding.HalfAway(x, n)))
  {
    var f := (Times(AbsReal(x), Tens(n)) + 0.5).Floor;
    var mult := M.Power(Ok(Num(10.0)), Ok(Num(d)));
    assert mult == Ok(Num(Tens(n)));
    SignTimes(f as real);
    Rounding.FormulaAgrees(x, n);
  }

  lemma {:induction false} SignTimes(f: real)
    ensures Times(-1.0, f) == -f && Times(1.0, f) == f
  {
  }

  // ----- what the emitted expressions compute -----

  lemma {:induction false} BinaryEval(op: BinOp, a: M.MExpr, b: M.MExpr, doc: Document, vars: map<string, Value>)
    requires BinaryAgg(op, a, b).Success?
    ensures M.Eval(BinaryAgg(op, a, b).value, doc, vars) == ArithOn(op, M.Eval(a, doc, vars), M.Eval(b, doc, vars))
  {
    match op
    case Plus => ArithEval(M.Add, a, b, doc, vars);
    case Minus => ArithEval(M.Subtract, a, b, doc, vars);
    case Mult => ArithEval(M.Multiply, a, b, doc, vars);
    case Div => ArithEval(M.Divide, a, b, doc, vars);
    case Mod => ArithEval(M.MMod, a, b, doc, vars);
    case IntDiv =>
      ArithEval(M.Divide, a, b, doc, vars);
      LongEval(M.MArith(M.Divide, a, b), doc, vars);
  }

  lemma {:induction false} ArithEval(op: M.ArithOp, a: M.MExpr, b: M.MExpr, doc: Document, vars: map<string, Value>)
    ensures M.Eval(M.MArith(op, a, b), doc, vars) == M.Arith(op, M.Eval(a, doc, vars), M.Eval(b, doc, vars))
  {
  }

  lemma {:induction false} LongEval(a: M.MExpr, doc: Document, vars: map<string, Value>)
    ensures M.Eval(M.ToLong(a), doc, vars) == M.Truncated(M.Eval(a, doc, vars))
  {
  }

  lemma {:induction false} ComparisonEval(op: CmpOp, a: M.MExpr, b: M.MExpr, r: Expr, doc: Document, vars: map<string, Value>)
    requires ComparisonAgg(op, a, b, r).Success?
    requires op == LikeOp || op == NotLike ==> b == M.Const(ToBson(LiteralValue(r.lit))) && Plain(r)
    ensures M.Eval(ComparisonAgg(op, a, b, r).value, doc, vars)
            == CompareOn(op, M.Eval(a, doc, vars), M.Eval(b, doc, vars))
  {
    match op
    case LikeOp => PatternEval(op, a, b, r, doc, vars);
    case NotLike => PatternEval(op, a, b, r, doc, vars);
    case In => MembershipEval(op, a, b, r, doc, vars);
    case NotIn => MembershipEval(op, a, b, r, doc, vars);
    case _ => OrderEval(op, a, b, r, doc, vars);
  }

  lemma {:induction false} OrderEval(op: CmpOp, a: M.MExpr, b: M.MExpr, r: Expr, doc: Document, vars: map<string, Value>)
    requires op != LikeOp && op != NotLike && op != In && op != NotIn && ComparisonAgg(op, a, b, r).Success?
    ensures M.Eval(ComparisonAgg(op, a, b, r).value, doc, vars) == CompareOn(op, M.Eval(a, doc, vars), M.Eval(b, doc, vars))
  {
  }

  lemma {:induction false} MembershipEval(op: CmpOp, a: M.MExpr, b: M.MExpr, r: Expr, doc: Document, vars: map<string, Value>)
    requires (op == In || op == NotIn) && ComparisonAgg(op, a, b, r).Success?
    ensures M.Eval(ComparisonAgg(op, a, b, r).value, doc, vars) == CompareOn(op, M.Eval(a, doc, vars), M.Eval(b, doc, vars))
  {
  }

  lemma {:induction false} PatternEval(op: CmpOp, a: M.MExpr, b: M.MExpr, r: Expr, doc: Document, vars: map<string, Value>)
    requires (op == LikeOp || op == NotLike) && ComparisonAgg(op, a, b, r).Success?
    requires b == M.Const(ToBson(LiteralValue(r.lit))) && Plain(r)
    ensures M.Eval(ComparisonAgg(op, a, b, r).value, doc, vars)
            == CompareOn(op, M.Eval(a, doc, vars), M.Eval(b, doc, vars))
  {
  }

  lemma {:induction false} IsEval(op: IsOp, a: M.MExpr, doc: Document, vars: map<string, Value>)
    ensures M.Eval(IsAgg(op, a), doc, vars) == IsOn(op, M.Eval(a, doc, vars))
  {
    var v := IsOperand(op);
    assert M.Eval(M.Const(v), doc, vars) == Ok(v);
    CompareEval(M.CEq, a, M.Const(v), doc, vars);
    CompareEval(M.CNe, a, M.Const(v), doc, vars);
  }

  function IsOperand(op: IsOp): Value {
    match op
    case IsNull => Null
    case IsNotNull => Null
    case IsTrue => Bool(true)
    case IsNotTrue => Bool(true)
    case IsFalse => Bool(false)
    case IsNotFalse => Bool(false)
  }

  lemma {:induction false} ScaledEval(a: M.MExpr, b: M.MExpr, doc: Document, vars: map<string, Value>)
    ensures M.Eval(M.FloorOf(M.MArith(M.Add, M.MArith(M.Multiply, M.AbsOf(a), M.Pow(IntConst(10), b)), M.Const(Num(0.5)))), doc, vars)
            == M.Floored(M.Arith(M.Add, M.Arith(M.Multiply, M.Absolute(M.Eval(a, doc, vars)),
                                                M.Power(Ok(Num(10.0)), M.Eval(b, doc, vars))), Ok(Num(0.5))))
  {
    var product := M.MArith(M.Multiply, M.AbsOf(a), M.Pow(IntConst(10), b));
    assert M.Eval(IntConst(10), doc, vars) == Ok(Num(10.0));
    assert M.Eval(product, doc, vars)
        == M.Arith(M.Multiply, M.Absolute(M.Eval(a, doc, vars)), M.Power(Ok(Num(10.0)), M.Eval(b, doc, vars)));
    var sum := M.MArith(M.Add, product, M.Const(Num(0.5)));
    assert M.Eval(sum, doc, vars) == M.Arith(M.Add, M.Eval(product, doc, vars), Ok(Num(0.5)));
    assert M.Eval(M.FloorOf(sum), doc, vars) == M.Floored(M.Eval(sum, doc, vars));
  }

  lemma {:induction false} SignEval(a: M.MExpr, doc: Document, vars: map<string, Value>)
    ensures M.Eval(M.Cond(M.MCompare(M.CLt, a, IntConst(0)), IntConst(-1), IntConst(1)), doc, vars)
            == M.Choose(M.Compare(M.CLt, M.Eval(a, doc, vars), Ok(Num(0.0))), Ok(Num(-1.0)), Ok(Num(1.0)))
  {
    assert M.Eval(M.MCompare(M.CLt, a, IntConst(0)), doc, vars) == M.Compare(M.CLt, M.Eval(a, doc, vars), Ok(Num(0.0)));
    assert M.Eval(IntConst(-1), doc, vars) == Ok(Num(-1.0));
  }

  lemma {:induction false} QuotientEval(sign: M.MExpr, floored: M.MExpr, b: M.MExpr, doc: Document, vars: map<string, Value>)
    ensures M.Eval(M.MArith(M.Divide, M.MArith(M.Multiply, sign, floored), M.Pow(IntConst(10), b)), doc, vars)
            == M.Arith(M.Divide, M.Arith(M.Multiply, M.Eval(sign, doc, vars), M.Eval(floored, doc, vars)),
                       M.Power(Ok(Num(10.0)), M.Eval(b, doc, vars)))
  {
    assert M.Eval(IntConst(10), doc, vars) == Ok(Num(10.0));
    assert M.Eval(M.Pow(IntConst(10), b), doc, vars) == M.Power(Ok(Num(10.0)), M.Eval(b, doc, vars));
  }

  lemma {:induction false} RoundEval(a: M.MExpr, b: M.MExpr, doc: Document, vars: map<string, Value>)
    ensures M.Eval(RoundAgg(a, b), doc, vars) == RoundOn(M.Eval(a, doc, vars), M.Eval(b, doc, vars))
  {
    var sign := M.Cond(M.MCompare(M.CLt, a, IntConst(0)), IntConst(-1), IntConst(1));
    var floored := M.FloorOf(M.MArith(M.Add, M.MArith(M.Multiply, M.AbsOf(a), M.Pow(IntConst(10), b)), M.Const(Num(0.5))));
    ScaledEval(a, b, doc, vars);
    SignEval(a, doc, vars);
    QuotientEval(sign, floored, b, doc, vars);
    assert RoundAgg(a, b) == M.MArith(M.Divide, M.MArith(M.Multiply, sign, floored), M.Pow(IntConst(10), b));
  }

  lemma {:induction false} RefReads(q: string, n: string, doc: Document, main: string, vars: map<string, Value>)
    requires PlainColumn(q, n)
    ensures M.Eval(Ref(PathOf(q, n, main)), doc, vars) == Ok(Get(doc, PathOf(q, n, main)))
  {
    var path := PathOf(q, n, main);
    assert path[0] == n[0] || path[0] == q[0];
    assert ("$" + path)[1..] == path;
  }

  /** A single searched branch with an ELSE means the same as the $switch it replaces. */
  lemma {:induction false} CondIsSwitch(ws: Whens, main: string, doc: Document, vars: map<string, Value>)
    requires CaseAgg(ws, main).Success?
    ensures SwitchAgg(None, ws, main).Success?
    ensures M.Eval(CaseAgg(ws, main).value, doc, vars) == M.Eval(SwitchAgg(None, ws, main).value, doc, vars)
  {
    if ws.When? && ws.rest.Else? {
      var c, t, f := ToAgg(ws.cond, main).value, ToAgg(ws.val, main).value, ToAgg(ws.rest.els, main).value;
      assert BranchesAgg(None, ws.rest, main) == Success(M.BNil);
      assert DefaultAgg(ws, main) == DefaultAgg(ws.rest, main) == Success(f);
      assert SwitchAgg(None, ws, main) == Success(M.Switch(M.Branch(c, t, M.BNil), f));
      CondEval(c, t, f, doc, vars);
    }
  }

  lemma {:induction false} CondEval(c: M.MExpr, t: M.MExpr, f: M.MExpr, doc: Document, vars: map<string, Value>)
    ensures M.Eval(M.Cond(c, t, f), doc, vars) == M.Eval(M.Switch(M.Branch(c, t, M.BNil), f), doc, vars)
  {
    var d := M.Eval(f, doc, vars);
    assert M.EvalSwitch(M.BNil, d, doc, vars) == d;
  }

  // ----- absent fields -----

  /** With every column present, a compiled expression never reads as an absent field. */
  lemma {:induction false} NeverMissing(e: Expr, doc: Document, main: string, vars: map<string, Value>)
    requires ToAgg(e, main).Success? && Plain(e) && AllPresent(Cols(e), doc, main)
    ensures M.Eval(ToAgg(e, main).value, doc, vars) != Ok(Missing)
    decreases e, 1
  {
    if e.Unary? {
      NeverMissing(e.arg, doc, main, vars);
    } else if e.Case? {
      CaseNeverMissing(e, doc, main, vars);
    } else if e.Func? && MentionsAny(e.args) {
      ArgsNeverMissing(e.args, doc, main, vars);
      CallNeverMissing(e.fn, ToAggAll(e.args, main).value, doc, vars);
    } else if e.Binary? || e.Compare? || e.Is? || e.Between? {
      OperatorNeverMissing(e, doc, main, vars);
    } else {
      LeafNeverMissing(e, doc, main, vars);
    }
  }

  lemma {:induction false} SettledNeverMissing(e: Expr, doc: Document, main: string, vars: map<string, Value>)
    requires ToAgg(e, main).Success? && Plain(e) && Settled(e, doc, main)
    ensures M.Eval(ToAgg(e, main).value, doc, vars) != Ok(Missing)
    decreases e, 2
  {
    if e.Unary? {
      SettledNeverMissing(e.arg, doc, main, vars);
    } else if e.Case? || e.Func? {
      NeverMissing(e, doc, main, vars);
    } else if e.Binary? || e.Compare? || e.Is? || e.Between? {
      OperatorNeverMissing(e, doc, main, vars);
    } else if e.Col? {
      RefReads(e.qual, e.name, doc, main, vars);
    }
  }

  lemma {:induction false} SettledOperand(e: Expr, doc: Document, main: string, vars: map<string, Value>)
    requires ToAgg(e, main).Success? && Plain(e)
    ensures Settled(e, doc, main) ==> M.Eval(ToAgg(e, main).value, doc, vars) != Ok(Missing)
  {
    if Settled(e, doc, main) {
      SettledNeverMissing(e, doc, main, vars);
    }
  }

  /** IS NULL and IS NOT NULL are right exactly for operands that are not absent fields. */
  lemma {:induction false} IsNullExactly(op: IsOp, p: Outcome)
    requires op == IsNull || op == IsNotNull
    requires p.Ok?
    ensures IsOn(op, p) == IsTest(op, NullOfOutcome(p)) <==> p.v != Missing
  {
  }

  /** For a column: exactly when the field is there. */
  lemma {:induction false} ColumnIsNullExactly(op: IsOp, q: string, n: string, doc: Document, main: string, vars: map<string, Value>)
    requires op == IsNull || op == IsNotNull
    requires PlainColumn(q, n)
    ensures var v := Get(doc, PathOf(q, n, main));
            M.Eval(IsAgg(op, Ref(PathOf(q, n, main))), doc, vars) == IsTest(op, Ok(NullOf(v))) <==> v != Missing
  {
    RefReads(q, n, doc, main, vars);
    IsEval(op, Ref(PathOf(q, n, main)), doc, vars);
    IsNullExactly(op, Ok(Get(doc, PathOf(q, n, main))));
  }

  /** On a document without the field, `a IS NULL` comes out false. */
  lemma {:induction false} AbsentIsNotNull()
    ensures M.Eval(ToAgg(Is(Col("", "a"), IsNull), "").value, map[], map[]) == Ok(Bool(false))
  {
    assert "a"[0] == 'a' && PlainColumn("", "a");
    RefReads("", "a", map[], "", map[]);
    GetName(map[], "a");
    IsEval(IsNull, Ref("a"), map[], map[]);
  }

  lemma {:induction false} LeafNeverMissing(e: Expr, doc: Document, main: string, vars: map<string, Value>)
    requires ToAgg(e, main).Success? && Plain(e) && AllPresent(Cols(e), doc, main)
    requires e.Col? || e.Lit? || e.BoolLit? || e.NullLit? || e.Tuple? || e.And? || e.Or? || e.Not?
             || (e.Func? && !MentionsAny(e.args))
    ensures M.Eval(ToAgg(e, main).value, doc, vars) != Ok(Missing)
  {
    if e.Col? {
      RefReads(e.qual, e.name, doc, main, vars);
      assert (e.qual, e.name) in Cols(e);
    } else if e.Func? {
      StaticUndollared(e);
    }
  }

  lemma {:induction false} OperatorNeverMissing(e: Expr, doc: Document, main: string, vars: map<string, Value>)
    requires ToAgg(e, main).Success?
    requires e.Binary? || e.Compare? || e.Is? || e.Between?
    ensures M.Eval(ToAgg(e, main).value, doc, vars) != Ok(Missing)
  {
  }

  lemma {:induction false} CaseNeverMissing(e: Expr, doc: Document, main: string, vars: map<string, Value>)
    requires e.Case? && ToAgg(e, main).Success? && Plain(e) && AllPresent(Cols(e), doc, main)
    ensures M.Eval(ToAgg(e, main).value, doc, vars) != Ok(Missing)
    decreases e, 0
  {
    if e.base.Some? {
      WhensNeverMissing(Some(ToAgg(e.base.value, main).value), e.whens, doc, main, vars);
    } else {
      CondIsSwitch(e.whens, main, doc, vars);
      WhensNeverMissing(None, e.whens, doc, main, vars);
    }
  }

  predicate NoneMissing(ms: M.MExprs, doc: Document, vars: map<string, Value>) {
    ms.MCons? ==> M.Eval(ms.head, doc, vars) != Ok(Missing) && NoneMissing(ms.tail, doc, vars)
  }

  lemma {:induction false} ArgsNeverMissing(es: Exprs, doc: Document, main: string, vars: map<string, Value>)
    requires ToAggAll(es, main).Success? && PlainAll(es) && AllPresent(ColsOf(es), doc, main)
    ensures NoneMissing(ToAggAll(es, main).value, doc, vars)
    decreases es, 0
  {
    match es
    case ENil =>
    case ECons(h, t) =>
      NeverMissing(h, doc, main, vars);
      ArgsNeverMissing(t, doc, main, vars);
  }

  lemma {:induction false} IfNullNeverMissing(ms: M.MExprs, doc: Document, vars: map<string, Value>)
    requires NoneMissing(ms, doc, vars)
    ensures M.EvalIfNull(ms, doc, vars) != Ok(Missing)
    decreases ms
  {
    if ms.MCons? {
      IfNullNeverMissing(ms.tail, doc, vars);
    }
  }

  lemma {:induction false} CallNeverMissing(f: FuncName, ms: M.MExprs, doc: Document, vars: map<string, Value>)
    requires CallAgg(f, ms).Success? && NoneMissing(ms, doc, vars)
    ensures M.Eval(CallAgg(f, ms).value, doc, vars) != Ok(Missing)
  {
    match f
    case FnCoalesce => IfNullNeverMissing(ms, doc, vars);
    case FnIfNull =>
      assert NoneMissing(ms.tail, doc, vars);
      IfNullNeverMissing(M.MCons(ms.head, M.MCons(ms.tail.head, M.MNil)), doc, vars);
    case FnIf =>
      assert NoneMissing(ms.tail, doc, vars);
      assert NoneMissing(ms.tail.tail, doc, vars);
    case FnRound => RoundEval(ms.head, if ms.tail.MNil? then IntConst(0) else ms.tail.head, doc, vars);
    case _ =>
  }

  lemma {:induction false} WhensNeverMissing(
      base: Option<M.MExpr>, ws: Whens, doc: Document, main: string, vars: map<string, Value>)
    requires SwitchAgg(base, ws, main).Success? && PlainWhens(ws) && AllPresent(WhenCols(ws), doc, main)
    ensures M.Eval(SwitchAgg(base, ws, main).value, doc, vars) != Ok(Missing)
    decreases ws, 0
  {
    match ws
    case NoElse =>
    case Else(x) => NeverMissing(x, doc, main, vars);
    case When(c, v, rest) =>
      NeverMissing(v, doc, main, vars);
      WhensNeverMissing(base, rest, doc, main, vars);
      SwitchStep(base, ws, main, doc, vars);
  }

  lemma {:induction false} BranchEval(c: M.MExpr, t: M.MExpr, bs: M.Branches, d: M.MExpr, doc: Document, vars: map<string, Value>)
    ensures M.Eval(M.Switch(M.Branch(c, t, bs), d), doc, vars)
            == M.Choose(M.Eval(c, doc, vars), M.Eval(t, doc, vars), M.Eval(M.Switch(bs, d), doc, vars))
  {
    var dv := M.Eval(d, doc, vars);
    SwitchEval(M.Branch(c, t, bs), d, doc, vars);
    SwitchEval(bs, d, doc, vars);
    assert M.EvalSwitch(M.Branch(c, t, bs), dv, doc, vars)
        == M.Choose(M.Eval(c, doc, vars), M.Eval(t, doc, vars), M.EvalSwitch(bs, dv, doc, vars));
  }

  lemma {:induction false} SwitchEval(bs: M.Branches, d: M.MExpr, doc: Document, vars: map<string, Value>)
    ensures M.Eval(M.Switch(bs, d), doc, vars) == M.EvalSwitch(bs, M.Eval(d, doc, vars), doc, vars)
  {
  }

  /** A $switch looks at its first branch, then behaves as the $switch of the others. */
  lemma {:induction false} SwitchStep(base: Option<M.MExpr>, ws: Whens, main: string, doc: Document, vars: map<string, Value>)
    requires ws.When? && SwitchAgg(base, ws, main).Success?
    ensures SwitchAgg(base, ws.rest, main).Success?
    ensures ToAgg(ws.cond, main).Success? && ToAgg(ws.val, main).Success?
    ensures var c := ToAgg(ws.cond, main).value;
            M.Eval(SwitchAgg(base, ws, main).value, doc, vars)
            == M.Choose(if base.Some? then M.Compare(M.CEq, M.Eval(base.value, doc, vars), M.Eval(c, doc, vars))
                        else M.Eval(c, doc, vars),
                        M.Eval(ToAgg(ws.val, main).value, doc, vars),
                        M.Eval(SwitchAgg(base, ws.rest, main).value, doc, vars))
  {
    var d := DefaultAgg(ws, main).value;
    assert DefaultAgg(ws.rest, main).value == d;
    var a := ToAgg(ws.cond, main).value;
    var c := if base.Some? then M.MCompare(M.CEq, base.value, a) else a;
    var bs := BranchesAgg(base, ws.rest, main).value;
    var t := ToAgg(ws.val, main).value;
    assert BranchesAgg(base, ws, main).value == M.Branch(c, t, bs);
    BranchEval(c, t, bs, d, doc, vars);
  }

  // ----- the theorem -----

  /** The emitted expression evaluates to the SQL value. */
  lemma {:induction false} ValueCorrect(e: Expr, env: Env, doc: Document, main: string, vars: map<string, Value>)
    requires ToAgg(e, main).Success? && Plain(e)
    requires Represents(doc, env, main, Cols(e))
    requires Safe(e, env, doc, main) && Eval(e, env).Ok?
    ensures NullOfOutcome(M.Eval(ToAgg(e, main).value, doc, vars)) == Eval(e, env)
    decreases e, 2
  {
    match e
    case Col(_, _) => LeafCorrect(e, env, doc, main, vars);
    case Lit(_) => LeafCorrect(e, env, doc, main, vars);
    case BoolLit(_) => LeafCorrect(e, env, doc, main, vars);
    case NullLit => LeafCorrect(e, env, doc, main, vars);
    case Tuple(es) => TupleCorrect(es, env, doc, main, vars);
    case Unary(_, _) => UnaryCorrect(e, env, doc, main, vars);
    case Binary(_, _, _) => BinaryCorrect(e, env, doc, main, vars);
    case Compare(_, _, _) => ComparisonCorrect(e, env, doc, main, vars);
    case And(_, _) => AndCorrect(e, env, doc, main, vars);
    case Or(_, _) => OrCorrect(e, env, doc, main, vars);
    case Not(_) => NotCorrect(e, env, doc, main, vars);
    case Is(_, _) => IsCorrect(e, env, doc, main, vars);
    case Between(_, _, _, _) => BetweenCorrect(e, env, doc, main, vars);
    case Case(_, _) => CaseCorrect(e, env, doc, main, vars);
    case Func(_, _) => FuncCorrect(e, env, doc, main, vars);
  }

  /** Where a condition must only be TRUE when SQL's is, NULL operands do less harm. */
  lemma {:induction false} TestCorrect(e: Expr, env: Env, doc: Document, main: string, vars: map<string, Value>)
    requires ToAgg(e, main).Success? && Plain(e)
    requires Represents(doc, env, main, Cols(e))
    requires SafeTest(e, env, doc, main) && TruthOutcome(Eval(e, env)).Some?
    ensures Tests(M.Eval(ToAgg(e, main).value, doc, vars), Eval(e, env))
    decreases e, 3
  {
    if e.Compare? {
      ValueCorrect(e.l, env, doc, main, vars);
      ValueCorrect(e.r, env, doc, main, vars);
      ComparisonTest(e.cop, e.l, e.r, env, doc, main, vars);
    } else if e.And? || e.Or? {
      TestCorrect(e.l, env, doc, main, vars);
      if (TruthOutcome(Eval(e.l, env)) == Some(T)) == e.And? {
        TestCorrect(e.r, env, doc, main, vars);
      }
      LogicTest(e, env, doc, main, vars);
    } else {
      ValueCorrect(e, env, doc, main, vars);
      AgreeingTests(M.Eval(ToAgg(e, main).value, doc, vars));
    }
  }

  lemma {:induction false} LogicTest(e: Expr, env: Env, doc: Document, main: string, vars: map<string, Value>)
    requires (e.And? || e.Or?) && ToAgg(e, main).Success? && Eval(e, env).Ok?
    requires Tests(M.Eval(ToAgg(e.l, main).value, doc, vars), Eval(e.l, env))
    requires (TruthOutcome(Eval(e.l, env)) == Some(T)) == e.And? ==> Tests(M.Eval(ToAgg(e.r, main).value, doc, vars), Eval(e.r, env))
    ensures Tests(M.Eval(ToAgg(e, main).value, doc, vars), Eval(e, env))
  {
    var p, q := M.Eval(ToAgg(e.l, main).value, doc, vars), M.Eval(ToAgg(e.r, main).value, doc, vars);
    assert Eval(e, env) == Connect(e.And?, Eval(e.l, env), Eval(e.r, env));
    if e.And? {
      AndEval(ToAgg(e.l, main).value, ToAgg(e.r, main).value, doc, vars);
      AndTests(p, q, Eval(e.l, env), Eval(e.r, env));
    } else {
      OrEval(ToAgg(e.l, main).value, ToAgg(e.r, main).value, doc, vars);
      OrTests(p, q, Eval(e.l, env), Eval(e.r, env));
    }
  }

  lemma {:induction false} ComparisonTest(op: CmpOp, l: Expr, r: Expr, env: Env, doc: Document, main: string, vars: map<string, Value>)
    requires ToAgg(Compare(op, l, r), main).Success? && Plain(l) && Plain(r)
    requires NullOfOutcome(M.Eval(ToAgg(l, main).value, doc, vars)) == Eval(l, env)
    requires NullOfOutcome(M.Eval(ToAgg(r, main).value, doc, vars)) == Eval(r, env)
    requires Comparison(op, Eval(l, env), Eval(r, env)).Ok?
    requires TestOperands(op, Eval(l, env), Eval(r, env), Settled(l, doc, main) && Settled(r, doc, main))
    ensures Tests(M.Eval(ToAgg(Compare(op, l, r), main).value, doc, vars), Comparison(op, Eval(l, env), Eval(r, env)))
  {
    var p, q := M.Eval(ToAgg(l, main).value, doc, vars), M.Eval(ToAgg(r, main).value, doc, vars);
    SettledOperand(l, doc, main, vars);
    SettledOperand(r, doc, main, vars);
    MoreTest(op, Eval(l, env), Eval(r, env), Settled(l, doc, main) && Settled(r, doc, main), p != Ok(Missing) && q != Ok(Missing));
    CompareTests(op, p, q);
    ComparisonIs(op, l, r, doc, main, vars);
  }

  lemma {:induction false} ComparisonIs(op: CmpOp, l: Expr, r: Expr, doc: Document, main: string, vars: map<string, Value>)
    requires ToAgg(Compare(op, l, r), main).Success? && Plain(l) && Plain(r)
    ensures M.Eval(ToAgg(Compare(op, l, r), main).value, doc, vars)
            == CompareOn(op, M.Eval(ToAgg(l, main).value, doc, vars), M.Eval(ToAgg(r, main).value, doc, vars))
  {
    ComparisonEval(op, ToAgg(l, main).value, ToAgg(r, main).value, r, doc, vars);
  }

  lemma {:induction false} LeafCorrect(e: Expr, env: Env, doc: Document, main: string, vars: map<string, Value>)
    requires e.Col? || e.Lit? || e.BoolLit? || e.NullLit?
    requires Plain(e) && Represents(doc, env, main, Cols(e))
    ensures NullOfOutcome(M.Eval(ToAgg(e, main).value, doc, vars)) == Eval(e, env)
  {
    if e.Col? {
      RefReads(e.qual, e.name, doc, main, vars);
      assert ColumnAgrees(doc, env, main, (e.qual, e.name));
    }
  }

  lemma {:induction false} NotCorrect(e: Expr, env: Env, doc: Document, main: string, vars: map<string, Value>)
    requires e.Not? && ToAgg(e, main).Success? && Plain(e)
    requires Represents(doc, env, main, Cols(e))
    requires Safe(e, env, doc, main) && Eval(e, env).Ok?
    ensures NullOfOutcome(M.Eval(ToAgg(e, main).value, doc, vars)) == Eval(e, env)
    decreases e, 1
  {
    ValueCorrect(e.arg, env, doc, main, vars);
  }

  lemma {:induction false} FuncCorrect(e: Expr, env: Env, doc: Document, main: string, vars: map<string, Value>)
    requires e.Func? && ToAgg(e, main).Success? && Plain(e)
    requires Represents(doc, env, main, Cols(e))
    requires Safe(e, env, doc, main) && Eval(e, env).Ok?
    ensures NullOfOutcome(M.Eval(ToAgg(e, main).value, doc, vars)) == Eval(e, env)
    decreases e, 1
  {
    if MentionsAny(e.args) {
      CallCorrect(e.fn, e.args, env, doc, main, vars);
    } else {
      StaticCorrect(e, env);
      StaticUndollared(e);
    }
  }

  predicate Undollared(g: GoVal) {
    g.GStr? ==> g.s == [] || g.s[0] != '$'
  }

  /** No string that constant evaluation returns begins with `$`. */
  lemma {:induction false} StaticUndollared(e: Expr)
    requires StaticValue(e).Success? && Plain(e)
    ensures Undollared(StaticValue(e).value)
    decreases e
  {
    if e.Func? {
      ArgsUndollared(e.args);
      var vs := StaticValues(e.args).value;
      FirstUndollared(vs);
      assert EvalFunc(e.fn, vs) == StaticValue(e);
    }
  }

  lemma {:induction false} ArgsUndollared(es: Exprs)
    requires StaticValues(es).Success? && PlainAll(es)
    ensures forall v :: v in StaticValues(es).value ==> Undollared(v)
    decreases es
  {
    if es.ECons? {
      StaticUndollared(es.head);
      ArgsUndollared(es.tail);
    }
  }

  lemma {:induction false} FirstUndollared(vs: seq<GoVal>)
    requires forall v :: v in vs ==> Undollared(v)
    ensures Undollared(FirstNotNil(vs))
  {
    if vs != [] {
      assert vs[0] in vs;
      FirstUndollared(vs[1..]);
    }
  }

  lemma {:induction false} UnaryCorrect(e: Expr, env: Env, doc: Document, main: string, vars: map<string, Value>)
    requires e.Unary? && ToAgg(e, main).Success? && Plain(e)
    requires Represents(doc, env, main, Cols(e))
    requires Safe(e, env, doc, main) && Eval(e, env).Ok?
    ensures NullOfOutcome(M.Eval(ToAgg(e, main).value, doc, vars)) == Eval(e, env)
    decreases e, 1
  {
    ValueCorrect(e.arg, env, doc, main, vars);
    var r := Eval(e.arg, env);
    if e.uop == UMinus {
      var v := ToAgg(e.arg, main).value;
      assert M.Eval(M.MArith(M.Multiply, IntConst(-1), v), doc, vars)
          == M.Arith(M.Multiply, Ok(Num(-1.0)), M.Eval(v, doc, vars));
      if r.v.Num? {
        SignTimes(r.v.n);
      }
    }
  }

  lemma {:induction false} BinaryCorrect(e: Expr, env: Env, doc: Document, main: string, vars: map<string, Value>)
    requires e.Binary? && ToAgg(e, main).Success? && Plain(e)
    requires Represents(doc, env, main, Cols(e))
    requires Safe(e, env, doc, main) && Eval(e, env).Ok?
    ensures NullOfOutcome(M.Eval(ToAgg(e, main).value, doc, vars)) == Eval(e, env)
    decreases e, 1
  {
    ValueCorrect(e.l, env, doc, main, vars);
    ValueCorrect(e.r, env, doc, main, vars);
    var a, b := ToAgg(e.l, main).value, ToAgg(e.r, main).value;
    BinaryEval(e.bop, a, b, doc, vars);
    ArithAgrees(e.bop, M.Eval(a, doc, vars), M.Eval(b, doc, vars));
  }

  lemma {:induction false} ComparisonCorrect(e: Expr, env: Env, doc: Document, main: string, vars: map<string, Value>)
    requires e.Compare? && ToAgg(e, main).Success? && Plain(e)
    requires Represents(doc, env, main, Cols(e))
    requires Safe(e, env, doc, main) && Eval(e, env).Ok?
    ensures NullOfOutcome(M.Eval(ToAgg(e, main).value, doc, vars)) == Eval(e, env)
    decreases e, 1
  {
    CompareParts(e.cop, e.l, e.r, env, doc, main);
    ValueCorrect(e.l, env, doc, main, vars);
    ValueCorrect(e.r, env, doc, main, vars);
    ComparisonStep(e.cop, e.l, e.r, env, doc, main, vars);
  }

  lemma {:induction false} CompareParts(op: CmpOp, l: Expr, r: Expr, env: Env, doc: Document, main: string)
    requires Safe(Compare(op, l, r), env, doc, main) && Eval(Compare(op, l, r), env).Ok?
    ensures Safe(l, env, doc, main) && Safe(r, env, doc, main) && Eval(l, env).Ok? && Eval(r, env).Ok?
    ensures Comparison(op, Eval(l, env), Eval(r, env)).Ok?
    ensures SafeOperands(op, Eval(l, env), Eval(r, env), Settled(l, doc, main) && Settled(r, doc, main))
  {
  }

  lemma {:induction false} ComparisonStep(op: CmpOp, l: Expr, r: Expr, env: Env, doc: Document, main: string, vars: map<string, Value>)
    requires ToAgg(Compare(op, l, r), main).Success? && Plain(l) && Plain(r)
    requires NullOfOutcome(M.Eval(ToAgg(l, main).value, doc, vars)) == Eval(l, env)
    requires NullOfOutcome(M.Eval(ToAgg(r, main).value, doc, vars)) == Eval(r, env)
    requires Comparison(op, Eval(l, env), Eval(r, env)).Ok?
    requires SafeOperands(op, Eval(l, env), Eval(r, env), Settled(l, doc, main) && Settled(r, doc, main))
    ensures NullOfOutcome(M.Eval(ToAgg(Compare(op, l, r), main).value, doc, vars)) == Comparison(op, Eval(l, env), Eval(r, env))
  {
    var p, q := M.Eval(ToAgg(l, main).value, doc, vars), M.Eval(ToAgg(r, main).value, doc, vars);
    SettledOperand(l, doc, main, vars);
    SettledOperand(r, doc, main, vars);
    CompareValues(op, p, q, Eval(l, env), Eval(r, env), Settled(l, doc, main) && Settled(r, doc, main));
    ComparisonIs(op, l, r, doc, main, vars);
  }

  lemma {:induction false} CompareValues(op: CmpOp, p: Outcome, q: Outcome, a: Outcome, b: Outcome, settled: bool)
    requires NullOfOutcome(p) == a && NullOfOutcome(q) == b && Comparison(op, a, b).Ok? && SafeOperands(op, a, b, settled)
    requires settled ==> p != Ok(Missing) && q != Ok(Missing)
    ensures CompareOn(op, p, q) == Comparison(op, a, b)
  {
    SafeMore(op, a, b, settled, p != Ok(Missing) && q != Ok(Missing));
    CompareAgrees(op, p, q);
  }

  lemma {:induction false} SafeMore(op: CmpOp, a: Outcome, b: Outcome, s: bool, t: bool)
    requires SafeOperands(op, a, b, s) && (s ==> t)
    ensures SafeOperands(op, a, b, t)
  {
  }

  lemma {:induction false} AndCorrect(e: Expr, env: Env, doc: Document, main: string, vars: map<string, Value>)
    requires e.And? && ToAgg(e, main).Success? && Plain(e)
    requires Represents(doc, env, main, Cols(e))
    requires Safe(e, env, doc, main) && Eval(e, env).Ok?
    ensures NullOfOutcome(M.Eval(ToAgg(e, main).value, doc, vars)) == Eval(e, env)
    decreases e, 1
  {
    ValueCorrect(e.l, env, doc, main, vars);
    if TruthOutcome(Eval(e.l, env)) == Some(T) {
      ValueCorrect(e.r, env, doc, main, vars);
    }
    AndAgrees(M.Eval(ToAgg(e.l, main).value, doc, vars), M.Eval(ToAgg(e.r, main).value, doc, vars), Eval(e.r, env));
  }

  lemma {:induction false} OrCorrect(e: Expr, env: Env, doc: Document, main: string, vars: map<string, Value>)
    requires e.Or? && ToAgg(e, main).Success? && Plain(e)
    requires Represents(doc, env, main, Cols(e))
    requires Safe(e, env, doc, main) && Eval(e, env).Ok?
    ensures NullOfOutcome(M.Eval(ToAgg(e, main).value, doc, vars)) == Eval(e, env)
    decreases e, 1
  {
    ValueCorrect(e.l, env, doc, main, vars);
    if TruthOutcome(Eval(e.l, env)) != Some(T) {
      ValueCorrect(e.r, env, doc, main, vars);
    }
    OrAgrees(M.Eval(ToAgg(e.l, main).value, doc, vars), M.Eval(ToAgg(e.r, main).value, doc, vars), Eval(e.r, env));
  }

  lemma {:induction false} IsCorrect(e: Expr, env: Env, doc: Document, main: string, vars: map<string, Value>)
    requires e.Is? && ToAgg(e, main).Success? && Plain(e)
    requires Represents(doc, env, main, Cols(e))
    requires Safe(e, env, doc, main) && Eval(e, env).Ok?
    ensures NullOfOutcome(M.Eval(ToAgg(e, main).value, doc, vars)) == Eval(e, env)
    decreases e, 1
  {
    ValueCorrect(e.arg, env, doc, main, vars);
    var v := ToAgg(e.arg, main).value;
    if e.iop == IsNull || e.iop == IsNotNull {
      SettledNeverMissing(e.arg, doc, main, vars);
    }
    IsEval(e.iop, v, doc, vars);
    IsAgrees(e.iop, M.Eval(v, doc, vars));
  }

  lemma {:induction false} BetweenCorrect(e: Expr, env: Env, doc: Document, main: string, vars: map<string, Value>)
    requires e.Between? && ToAgg(e, main).Success? && Plain(e)
    requires Represents(doc, env, main, Cols(e))
    requires Safe(e, env, doc, main) && Eval(e, env).Ok?
    ensures NullOfOutcome(M.Eval(ToAgg(e, main).value, doc, vars)) == Eval(e, env)
    decreases e, 1
  {
    ValueCorrect(e.arg, env, doc, main, vars);
    ValueCorrect(e.from, env, doc, main, vars);
    ValueCorrect(e.to, env, doc, main, vars);
    var v, lo, hi := ToAgg(e.arg, main).value, ToAgg(e.from, main).value, ToAgg(e.to, main).value;
    assert e == Between(e.isBetween, e.arg, e.from, e.to);
    assert ToAgg(e, main) == Success(BetweenAgg(e.isBetween, v, lo, hi));
    BetweenEval(e.isBetween, v, lo, hi, doc, vars);
    RangeOnExactly(e.isBetween, M.Eval(v, doc, vars), M.Eval(lo, doc, vars), M.Eval(hi, doc, vars));
  }

  function RangeOn(isBetween: bool, x: Outcome, from: Outcome, to: Outcome): Outcome {
    if isBetween then M.Choose(M.Compare(M.CGte, x, from), M.AsBool(M.Compare(M.CLte, x, to)), Ok(Bool(false)))
    else M.Choose(M.Compare(M.CLt, x, from), Ok(Bool(true)), M.AsBool(M.Compare(M.CGt, x, to)))
  }

  lemma {:induction false} BetweenEval(b: bool, v: M.MExpr, lo: M.MExpr, hi: M.MExpr, doc: Document, vars: map<string, Value>)
    ensures M.Eval(BetweenAgg(b, v, lo, hi), doc, vars)
            == RangeOn(b, M.Eval(v, doc, vars), M.Eval(lo, doc, vars), M.Eval(hi, doc, vars))
  {
    if b {
      CompareEval(M.CGte, v, lo, doc, vars);
      CompareEval(M.CLte, v, hi, doc, vars);
      AndEval(M.MCompare(M.CGte, v, lo), M.MCompare(M.CLte, v, hi), doc, vars);
    } else {
      CompareEval(M.CLt, v, lo, doc, vars);
      CompareEval(M.CGt, v, hi, doc, vars);
      OrEval(M.MCompare(M.CLt, v, lo), M.MCompare(M.CGt, v, hi), doc, vars);
    }
  }

  lemma {:induction false} CompareEval(op: M.CompareOp, a: M.MExpr, b: M.MExpr, doc: Document, vars: map<string, Value>)
    ensures M.Eval(M.MCompare(op, a, b), doc, vars) == M.Compare(op, M.Eval(a, doc, vars), M.Eval(b, doc, vars))
  {
  }

  lemma {:induction false} AndEval(a: M.MExpr, b: M.MExpr, doc: Document, vars: map<string, Value>)
    ensures M.Eval(M.MAnd(a, b), doc, vars)
            == M.Choose(M.Eval(a, doc, vars), M.AsBool(M.Eval(b, doc, vars)), Ok(Bool(false)))
  {
  }

  lemma {:induction false} OrEval(a: M.MExpr, b: M.MExpr, doc: Document, vars: map<string, Value>)
    ensures M.Eval(M.MOr(a, b), doc, vars)
            == M.Choose(M.Eval(a, doc, vars), Ok(Bool(true)), M.AsBool(M.Eval(b, doc, vars)))
  {
  }

  /** BETWEEN gives SQL's value exactly if that is not NULL. */
  lemma {:induction false} RangeOnExactly(isBetween: bool, p: Outcome, lo: Outcome, hi: Outcome)
    requires Range(isBetween, NullOfOutcome(p), NullOfOutcome(lo), NullOfOutcome(hi)).Ok?
    ensures RangeOn(isBetween, p, lo, hi) == Range(isBetween, NullOfOutcome(p), NullOfOutcome(lo), NullOfOutcome(hi))
            <==> Range(isBetween, NullOfOutcome(p), NullOfOutcome(lo), NullOfOutcome(hi)) != Ok(Null)
  {
    if isBetween {
      InsideExactly(p, lo, hi);
    } else {
      OutsideExactly(p, lo, hi);
    }
  }

  lemma {:induction false} InsideExactly(p: Outcome, lo: Outcome, hi: Outcome)
    requires Range(true, NullOfOutcome(p), NullOfOutcome(lo), NullOfOutcome(hi)).Ok?
    ensures RangeOn(true, p, lo, hi) == Range(true, NullOfOutcome(p), NullOfOutcome(lo), NullOfOutcome(hi))
            <==> Range(true, NullOfOutcome(p), NullOfOutcome(lo), NullOfOutcome(hi)) != Ok(Null)
  {
    Trichotomies(NullOf(p.v), NullOf(lo.v), NullOf(hi.v));
  }

  lemma {:induction false} OutsideExactly(p: Outcome, lo: Outcome, hi: Outcome)
    requires Range(false, NullOfOutcome(p), NullOfOutcome(lo), NullOfOutcome(hi)).Ok?
    ensures RangeOn(false, p, lo, hi) == Range(false, NullOfOutcome(p), NullOfOutcome(lo), NullOfOutcome(hi))
            <==> Range(false, NullOfOutcome(p), NullOfOutcome(lo), NullOfOutcome(hi)) != Ok(Null)
  {
    Trichotomies(NullOf(p.v), NullOf(lo.v), NullOf(hi.v));
  }

  lemma {:induction false} Trichotomies(x: Value, a: Value, b: Value)
    ensures IsScalar(x) && IsScalar(a) ==> (Less(x, a) || x == a || Less(a, x)) && !(Less(x, a) && Less(a, x)) && (x == a ==> !Less(x, a))
    ensures IsScalar(x) && IsScalar(b) ==> (Less(x, b) || x == b || Less(b, x)) && !(Less(x, b) && Less(b, x)) && (x == b ==> !Less(x, b))
  {
    if IsScalar(x) && IsScalar(a) { LessTrichotomy(x, a); }
    if IsScalar(x) && IsScalar(b) { LessTrichotomy(x, b); }
  }

  lemma {:induction false} CaseCorrect(e: Expr, env: Env, doc: Document, main: string, vars: map<string, Value>)
    requires e.Case? && ToAgg(e, main).Success? && Plain(e)
    requires Represents(doc, env, main, Cols(e))
    requires Safe(e, env, doc, main) && Eval(e, env).Ok?
    ensures NullOfOutcome(M.Eval(ToAgg(e, main).value, doc, vars)) == Eval(e, env)
    decreases e, 1
  {
    if e.base.Some? {
      ValueCorrect(e.base.value, env, doc, main, vars);
      SimpleCorrect(e.base.value, e.whens, env, doc, main, vars);
    } else {
      CondIsSwitch(e.whens, main, doc, vars);
      SearchedCorrect(e.whens, env, doc, main, vars);
    }
  }

  lemma {:induction false} TupleCorrect(es: Exprs, env: Env, doc: Document, main: string, vars: map<string, Value>)
    requires ToAggAll(es, main).Success? && PlainAll(es)
    requires Represents(doc, env, main, ColsOf(es))
    requires SafeAll(es, env, doc, main) && EvalTuple(es, env).Ok?
    ensures M.EvalArray(ToAggAll(es, main).value, doc, vars) == EvalTuple(es, env)
    decreases es, 0
  {
    match es
    case ENil =>
    case ECons(h, t) =>
      ValueCorrect(h, env, doc, main, vars);
      TupleCorrect(t, env, doc, main, vars);
  }

  lemma {:induction false} SimpleCorrect(
      base: Expr, ws: Whens, env: Env, doc: Document, main: string, vars: map<string, Value>)
    requires ToAgg(base, main).Success?
    requires NullOfOutcome(M.Eval(ToAgg(base, main).value, doc, vars)) == Eval(base, env)
    requires SwitchAgg(Some(ToAgg(base, main).value), ws, main).Success? && PlainWhens(ws)
    requires Represents(doc, env, main, WhenCols(ws))
    requires SafeSimple(Eval(base, env), ws, env, doc, main)
    requires SimpleCase(Eval(base, env), ws, env).Ok?
    ensures NullOfOutcome(M.Eval(SwitchAgg(Some(ToAgg(base, main).value), ws, main).value, doc, vars))
            == SimpleCase(Eval(base, env), ws, env)
    decreases ws, 0
  {
    match ws
    case NoElse =>
    case Else(x) => ValueCorrect(x, env, doc, main, vars);
    case When(c, v, rest) =>
      SimpleParts(Eval(base, env), ws, env, doc, main);
      SwitchStep(Some(ToAgg(base, main).value), ws, main, doc, vars);
      ValueCorrect(c, env, doc, main, vars);
      if TruthOutcome(Comparison(Eq, Eval(base, env), Eval(c, env))) == Some(T) {
        ValueCorrect(v, env, doc, main, vars);
      } else {
        SimpleCorrect(base, rest, env, doc, main, vars);
      }
      SimpleStep(base, ws, env, doc, main, vars);
  }

  lemma {:induction false} SimpleParts(base: Outcome, ws: Whens, env: Env, doc: Document, main: string)
    requires ws.When? && SafeSimple(base, ws, env, doc, main) && SimpleCase(base, ws, env).Ok?
    ensures Safe(ws.cond, env, doc, main) && Eval(ws.cond, env).Ok? && !(base == Ok(Null) && Eval(ws.cond, env) == Ok(Null))
    ensures if TruthOutcome(Comparison(Eq, base, Eval(ws.cond, env))) == Some(T)
            then Safe(ws.val, env, doc, main) && Eval(ws.val, env).Ok?
            else SafeSimple(base, ws.rest, env, doc, main) && SimpleCase(base, ws.rest, env).Ok?
  {
  }

  /** One WHEN: its equality chooses as SQL's does. */
  lemma {:induction false} SimpleStep(
      base: Expr, ws: Whens, env: Env, doc: Document, main: string, vars: map<string, Value>)
    requires ws.When? && ToAgg(base, main).Success? && SwitchAgg(Some(ToAgg(base, main).value), ws, main).Success?
    requires NullOfOutcome(M.Eval(ToAgg(base, main).value, doc, vars)) == Eval(base, env)
    requires ToAgg(ws.cond, main).Success? && NullOfOutcome(M.Eval(ToAgg(ws.cond, main).value, doc, vars)) == Eval(ws.cond, env)
    requires ToAgg(ws.val, main).Success? && SwitchAgg(Some(ToAgg(base, main).value), ws.rest, main).Success?
    requires !(Eval(base, env) == Ok(Null) && Eval(ws.cond, env) == Ok(Null)) && SimpleCase(Eval(base, env), ws, env).Ok?
    requires if TruthOutcome(Comparison(Eq, Eval(base, env), Eval(ws.cond, env))) == Some(T)
             then NullOfOutcome(M.Eval(ToAgg(ws.val, main).value, doc, vars)) == Eval(ws.val, env)
             else NullOfOutcome(M.Eval(SwitchAgg(Some(ToAgg(base, main).value), ws.rest, main).value, doc, vars))
                  == SimpleCase(Eval(base, env), ws.rest, env)
    ensures NullOfOutcome(M.Eval(SwitchAgg(Some(ToAgg(base, main).value), ws, main).value, doc, vars))
            == SimpleCase(Eval(base, env), ws, env)
  {
    var b := ToAgg(base, main).value;
    SwitchStep(Some(b), ws, main, doc, vars);
    EqualityChooses(M.Eval(b, doc, vars), M.Eval(ToAgg(ws.cond, main).value, doc, vars),
                    Eval(ws.val, env), SimpleCase(Eval(base, env), ws.rest, env),
                    M.Eval(ToAgg(ws.val, main).value, doc, vars), M.Eval(SwitchAgg(Some(b), ws.rest, main).value, doc, vars));
  }

  lemma {:induction false} SearchedCorrect(ws: Whens, env: Env, doc: Document, main: string, vars: map<string, Value>)
    requires SwitchAgg(None, ws, main).Success? && PlainWhens(ws)
    requires Represents(doc, env, main, WhenCols(ws))
    requires SafeSearched(ws, env, doc, main) && SearchedCase(ws, env).Ok?
    ensures NullOfOutcome(M.Eval(SwitchAgg(None, ws, main).value, doc, vars)) == SearchedCase(ws, env)
    decreases ws, 0
  {
    match ws
    case NoElse =>
    case Else(x) => ValueCorrect(x, env, doc, main, vars);
    case When(c, v, rest) =>
      SwitchStep(None, ws, main, doc, vars);
      TestCorrect(c, env, doc, main, vars);
      if TruthOutcome(Eval(c, env)) == Some(T) {
        ValueCorrect(v, env, doc, main, vars);
      } else {
        SearchedCorrect(rest, env, doc, main, vars);
      }
      TestChooses(M.Eval(ToAgg(c, main).value, doc, vars), Eval(c, env), Eval(v, env), SearchedCase(rest, env),
                   M.Eval(ToAgg(v, main).value, doc, vars),
                   M.Eval(SwitchAgg(None, rest, main).value, doc, vars));
  }

  lemma {:induction false} FirstCorrect(es: Exprs, env: Env, doc: Document, main: string, vars: map<string, Value>)
    requires ToAggAll(es, main).Success? && PlainAll(es)
    requires Represents(doc, env, main, ColsOf(es))
    requires SafeFirst(es, env, doc, main) && FirstNonNull(es, env).Ok?
    ensures NullOfOutcome(M.EvalIfNull(ToAggAll(es, main).value, doc, vars)) == FirstNonNull(es, env)
    decreases es, 0
  {
    match es
    case ENil =>
    case ECons(h, t) =>
      ValueCorrect(h, env, doc, main, vars);
      if Eval(h, env) == Ok(Null) {
        FirstCorrect(t, env, doc, main, vars);
      }
  }

  lemma {:induction false} CallCorrect(
      f: FuncName, es: Exprs, env: Env, doc: Document, main: string, vars: map<string, Value>)
    requires ToAggAll(es, main).Success? && CallAgg(f, ToAggAll(es, main).value).Success? && PlainAll(es)
    requires Represents(doc, env, main, ColsOf(es))
    requires SafeCall(f, es, env, doc, main) && Call(f, es, env).Ok?
    ensures NullOfOutcome(M.Eval(CallAgg(f, ToAggAll(es, main).value).value, doc, vars)) == Call(f, es, env)
    decreases es, 1
  {
    match f
    case FnIf => IfCorrect(es, env, doc, main, vars);
    case FnIfNull =>
      FirstCorrect(es, env, doc, main, vars);
      assert ToAggAll(es.tail, main).value == M.MCons(ToAgg(es.tail.head, main).value, M.MNil);
    case FnCoalesce => FirstCorrect(es, env, doc, main, vars);
    case FnNullIf => NullIfCorrect(es, env, doc, main, vars);
    case FnRound => RoundCorrect(es, env, doc, main, vars);
    case FnMod => ModCorrect(es, env, doc, main, vars);
  }

  lemma {:induction false} ModCorrect(es: Exprs, env: Env, doc: Document, main: string, vars: map<string, Value>)
    requires ToAggAll(es, main).Success? && CallAgg(FnMod, ToAggAll(es, main).value).Success? && PlainAll(es)
    requires Represents(doc, env, main, ColsOf(es))
    requires SafeCall(FnMod, es, env, doc, main) && Call(FnMod, es, env).Ok?
    ensures NullOfOutcome(M.Eval(CallAgg(FnMod, ToAggAll(es, main).value).value, doc, vars)) == Call(FnMod, es, env)
    decreases es, 0
  {
    TwoArgs(es, doc, env, main);
    var a, b := ToAgg(es.head, main).value, ToAgg(es.tail.head, main).value;
    ValueCorrect(es.head, env, doc, main, vars);
    ValueCorrect(es.tail.head, env, doc, main, vars);
    ArithAgrees(Mod, M.Eval(a, doc, vars), M.Eval(b, doc, vars));
  }

  lemma {:induction false} TwoArgs(es: Exprs, doc: Document, env: Env, main: string)
    requires es.ECons? && es.tail.ECons?
    requires ToAggAll(es, main).Success? && PlainAll(es) && Represents(doc, env, main, ColsOf(es))
    ensures ToAgg(es.head, main).Success? && ToAgg(es.tail.head, main).Success?
    ensures Plain(es.head) && Plain(es.tail.head) && PlainAll(es.tail.tail)
    ensures Represents(doc, env, main, Cols(es.head)) && Represents(doc, env, main, Cols(es.tail.head))
    ensures Represents(doc, env, main, ColsOf(es.tail.tail)) && ToAggAll(es.tail.tail, main).Success?
    ensures ToAggAll(es, main).value
            == M.MCons(ToAgg(es.head, main).value,
                       M.MCons(ToAgg(es.tail.head, main).value, ToAggAll(es.tail.tail, main).value))
  {
    assert ToAggAll(es.tail, main).Success?;
    assert ColsOf(es) == Cols(es.head) + (Cols(es.tail.head) + ColsOf(es.tail.tail));
  }

  lemma {:induction false} IfCorrect(es: Exprs, env: Env, doc: Document, main: string, vars: map<string, Value>)
    requires ToAggAll(es, main).Success? && CallAgg(FnIf, ToAggAll(es, main).value).Success? && PlainAll(es)
    requires Represents(doc, env, main, ColsOf(es))
    requires SafeCall(FnIf, es, env, doc, main) && Call(FnIf, es, env).Ok?
    ensures NullOfOutcome(M.Eval(CallAgg(FnIf, ToAggAll(es, main).value).value, doc, vars)) == Call(FnIf, es, env)
    decreases es, 0
  {
    TwoArgs(es, doc, env, main);
    var c, a, b := es.head, es.tail.head, es.tail.tail.head;
    TestCorrect(c, env, doc, main, vars);
    if TruthOutcome(Eval(c, env)) == Some(T) {
      ValueCorrect(a, env, doc, main, vars);
    } else {
      ValueCorrect(b, env, doc, main, vars);
    }
    TestChooses(M.Eval(ToAgg(c, main).value, doc, vars), Eval(c, env), Eval(a, env), Eval(b, env),
                 M.Eval(ToAgg(a, main).value, doc, vars), M.Eval(ToAgg(b, main).value, doc, vars));
  }

  lemma {:induction false} NullIfCorrect(es: Exprs, env: Env, doc: Document, main: string, vars: map<string, Value>)
    requires ToAggAll(es, main).Success? && CallAgg(FnNullIf, ToAggAll(es, main).value).Success? && PlainAll(es)
    requires Represents(doc, env, main, ColsOf(es))
    requires SafeCall(FnNullIf, es, env, doc, main) && Call(FnNullIf, es, env).Ok?
    ensures NullOfOutcome(M.Eval(CallAgg(FnNullIf, ToAggAll(es, main).value).value, doc, vars))
            == Call(FnNullIf, es, env)
    decreases es, 0
  {
    TwoArgs(es, doc, env, main);
    var a, b := ToAgg(es.head, main).value, ToAgg(es.tail.head, main).value;
    ValueCorrect(es.head, env, doc, main, vars);
    ValueCorrect(es.tail.head, env, doc, main, vars);
    NullIfEval(a, b, doc, vars);
    EqualityChooses(M.Eval(a, doc, vars), M.Eval(b, doc, vars), Ok(Null), Eval(es.head, env), Ok(Null), M.Eval(a, doc, vars));
  }

  lemma {:induction false} NullIfEval(a: M.MExpr, b: M.MExpr, doc: Document, vars: map<string, Value>)
    ensures M.Eval(M.Cond(M.MCompare(M.CEq, a, b), M.Const(Null), a), doc, vars)
            == M.Choose(M.Compare(M.CEq, M.Eval(a, doc, vars), M.Eval(b, doc, vars)), Ok(Null), M.Eval(a, doc, vars))
  {
  }

  lemma {:induction false} RoundCorrect(es: Exprs, env: Env, doc: Document, main: string, vars: map<string, Value>)
    requires ToAggAll(es, main).Success? && CallAgg(FnRound, ToAggAll(es, main).value).Success? && PlainAll(es)
    requires Represents(doc, env, main, ColsOf(es))
    requires SafeCall(FnRound, es, env, doc, main) && Call(FnRound, es, env).Ok?
    ensures NullOfOutcome(M.Eval(CallAgg(FnRound, ToAggAll(es, main).value).value, doc, vars))
            == Call(FnRound, es, env)
    decreases es, 0
  {
    var a := ToAgg(es.head, main).value;
    ValueCorrect(es.head, env, doc, main, vars);
    var b := IntConst(0);
    if es.tail.ECons? {
      TwoArgs(es, doc, env, main);
      assert SafeAll(es.tail, env, doc, main);
      b := ToAgg(es.tail.head, main).value;
      ValueCorrect(es.tail.head, env, doc, main, vars);
    } else {
      assert ToAggAll(es, main).value == M.MCons(a, M.MNil);
      assert M.Eval(b, doc, vars) == Ok(Num(0.0));
    }
    assert CallAgg(FnRound, ToAggAll(es, main).value) == Success(RoundAgg(a, b));
    RoundEval(a, b, doc, vars);
    RoundAgrees(M.Eval(a, doc, vars), M.Eval(b, doc, vars));
  }
}
