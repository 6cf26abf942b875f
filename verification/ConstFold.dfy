/** Constant folding (evalConstExpr, applyArith) against run-time evaluation (agg_expr.go). */
module ConstFold {
  import opened Wrappers
  import opened Bson
  import opened Sql
  import opened Compiler
  import opened ValueTheorem
  import Rounding
  import M = Mongo

  // ----- folding -----

  /** Go's int64 arithmetic wraps around. */
  function Wrap64(i: int): int {
    (i + 0x8000_0000_0000_0000) % 0x1_0000_0000_0000_0000 - 0x8000_0000_0000_0000
  }

  function ApplyFloats(op: BinOp, a: real, b: real): Result<GoVal> {
    match op
    case Plus => Success(GFloat(a + b))
    case Minus => Success(GFloat(a - b))
    case Mult => Success(GFloat(Times(a, b)))
    case Div => Success(if b == 0.0 then GNil else GFloat(Over(a, b)))
    case Mod => Success(if b == 0.0 then GNil else GFloat(a - Times(Rounding.ToInt64(Over(a, b)) as real, b)))
    case _ => Failure("unsupported arith operator")
  }

  function ApplyInts(op: BinOp, a: int, b: int): Result<GoVal> {
    match op
    case Plus => Success(GInt(Wrap64(a + b)))
    case Minus => Success(GInt(Wrap64(a - b)))
    case Mult => Success(GInt(Wrap64(a * b)))
    case IntDiv => Success(if b == 0 then GNil else GInt(Wrap64(TruncDiv(a, b))))
    case Mod => Success(if b == 0 then GNil else GInt(TruncMod(a, b)))
    case _ => Failure("unsupported arith operator")
  }

  predicate AsFloats(op: BinOp, a: GoVal, b: GoVal) {
    a.GFloat? || b.GFloat? || op == Div
  }

  function ApplyArith(op: BinOp, a: GoVal, b: GoVal): Result<GoVal> {
    if AsFloats(op, a, b) then
      var x :- ToFloat(a);
      var y :- ToFloat(b);
      ApplyFloats(op, x, y)
    else
      var i :- ToInt(a);
      var j :- ToInt(b);
      ApplyInts(op, i, j)
  }

  function EvalConst(e: Expr): Result<GoVal> {
    match e
    case Binary(op, l, r) =>
      var a :- EvalConst(l);
      var b :- EvalConst(r);
      ApplyArith(op, a, b)
    case Unary(op, x) =>
      var v :- EvalConst(x);
      (match op
       case UPlus => Success(v)
       case UMinus => ApplyArith(Mult, GInt(-1), v)
       case OtherUnary => Failure("unsupported unary operator"))
    case _ => StaticValue(e)
  }

  // ----- overflow -----

  lemma {:induction false} WrapExactly(i: int)
    ensures Wrap64(i) == i <==> InInt64(i)
    ensures InInt64(Wrap64(i))
  {
  }

  function ExactInt(op: BinOp, a: int, b: int): int {
    match op
    case Plus => a + b
    case Minus => a - b
    case Mult => a * b
    case IntDiv => if b == 0 then 0 else TruncDiv(a, b)
    case _ => 0
  }

  /** No integer result leaves int64, nor the quotient that a float remainder converts. */
  predicate InRange(op: BinOp, a: GoVal, b: GoVal) {
    if a.GInt? && b.GInt? && op != Div then InInt64(ExactInt(op, a.i, b.i))
    else if op == Mod && IsNumber(a) && IsNumber(b) then
      var y := ToFloat(b).value; y != 0.0 ==> InInt64(Trunc(Over(ToFloat(a).value, y)))
    else true
  }

  predicate NoOverflow(e: Expr) {
    match e
    case Binary(op, l, r) =>
      NoOverflow(l) && NoOverflow(r)
      && (EvalConst(l).Success? && EvalConst(r).Success? ==> InRange(op, EvalConst(l).value, EvalConst(r).value))
    case Unary(op, x) =>
      NoOverflow(x) && (EvalConst(x).Success? ==> InRange(Mult, GInt(-1), EvalConst(x).value))
    case _ => true
  }

  /** Numeric literals, signs and arithmetic. */
  predicate Numeric(e: Expr) {
    match e
    case Lit(l) => PlainLiteral(l) && !l.StrVal?
    case Unary(_, x) => Numeric(x)
    case Binary(_, l, r) => Numeric(l) && Numeric(r)
    case _ => false
  }

  // ----- one operation -----

  lemma {:induction false} TimesCommutes(x: real, y: real)
    ensures Times(x, y) == Times(y, x)
  {
  }

  lemma {:induction false} FloatsAgree(op: BinOp, a: real, b: real)
    requires ApplyFloats(op, a, b).Success?
    requires op == Mod && b != 0.0 ==> InInt64(Trunc(Over(a, b)))
    ensures ArithOn(op, Ok(Num(a)), Ok(Num(b)))
            == if ApplyFloats(op, a, b).value == GNil then Err else Ok(ToBson(ApplyFloats(op, a, b).value))
  {
    if op == Mod && b != 0.0 {
      TimesCommutes(Rounding.ToInt64(Over(a, b)) as real, b);
    }
  }

  lemma {:induction false} IntsAgree(op: BinOp, a: int, b: int)
    requires op != Div && ApplyInts(op, a, b).Success? && InInt64(ExactInt(op, a, b))
    ensures ArithOn(op, Ok(Num(a as real)), Ok(Num(b as real)))
            == if ApplyInts(op, a, b).value == GNil then Err else Ok(ToBson(ApplyInts(op, a, b).value))
  {
    WrapExactly(ExactInt(op, a, b));
    match op
    case Mult => TimesInts(a, b);
    case IntDiv => if b != 0 { TruncDivIsTrunc(a, b); }
    case Mod => if b != 0 { ModInts(a, b); }
    case _ =>
  }

  /** A NULL result, which a zero divisor gives, is an error at run time; any other result is the same. */
  lemma {:induction false} ArithFolds(op: BinOp, a: GoVal, b: GoVal)
    requires IsNumber(a) && IsNumber(b) && ApplyArith(op, a, b).Success? && InRange(op, a, b)
    ensures ArithOn(op, Ok(ToBson(a)), Ok(ToBson(b)))
            == if ApplyArith(op, a, b).value == GNil then Err else Ok(ToBson(ApplyArith(op, a, b).value))
  {
    if AsFloats(op, a, b) {
      FloatsAgree(op, ToFloat(a).value, ToFloat(b).value);
    } else {
      IntsAgree(op, a.i, b.i);
    }
  }

  /** Wrap-around is the only way that folding integers goes wrong. */
  lemma {:induction false} OverflowExactly(op: BinOp, a: int, b: int)
    requires op == Plus || op == Minus || op == Mult || (op == IntDiv && b != 0)
    ensures Ok(ToBson(ApplyArith(op, GInt(a), GInt(b)).value)) == Arith(op, Ok(Num(a as real)), Ok(Num(b as real)))
            <==> InInt64(ExactInt(op, a, b))
  {
    WrapExactly(ExactInt(op, a, b));
    TimesInts(a, b);
    if op == IntDiv {
      TruncDivIsTrunc(a, b);
    }
  }

  // ----- whole expressions -----

  lemma {:induction false} NumbersOrNil(op: BinOp, a: GoVal, b: GoVal)
    requires a.GNil? || IsNumber(a)
    requires b.GNil? || IsNumber(b)
    requires ApplyArith(op, a, b).Success?
    ensures IsNumber(a) && IsNumber(b)
    ensures var r := ApplyArith(op, a, b).value; r.GNil? || IsNumber(r)
  {
  }

  /** Folding gives the number that the compiled expression gives on every document. */
  lemma {:induction false} FoldAgrees(e: Expr, main: string, doc: Document, vars: map<string, Value>)
    requires Numeric(e) && EvalConst(e).Success? && NoOverflow(e) && ToAgg(e, main).Success?
    ensures EvalConst(e).value.GNil? || IsNumber(EvalConst(e).value)
    ensures M.Eval(ToAgg(e, main).value, doc, vars)
            == if EvalConst(e).value == GNil then Err else Ok(ToBson(EvalConst(e).value))
  {
    match e
    case Lit(_) =>
    case Binary(op, l, r) =>
      FoldAgrees(l, main, doc, vars);
      FoldAgrees(r, main, doc, vars);
      var a, b := EvalConst(l).value, EvalConst(r).value;
      NumbersOrNil(op, a, b);
      ArithFolds(op, a, b);
      BinaryEval(op, ToAgg(l, main).value, ToAgg(r, main).value, doc, vars);
    case Unary(op, x) =>
      FoldAgrees(x, main, doc, vars);
      if op == UMinus {
        NumbersOrNil(Mult, GInt(-1), EvalConst(x).value);
        ArithFolds(Mult, GInt(-1), EvalConst(x).value);
        BinaryEval(Mult, IntConst(-1), ToAgg(x, main).value, doc, vars);
      }
  }

  /** What folds also compiles. */
  lemma {:induction false} FoldCompiles(e: Expr, main: string)
    requires Numeric(e) && EvalConst(e).Success?
    ensures ToAgg(e, main).Success?
  {
    match e
    case Lit(_) =>
    case Unary(_, x) => FoldCompiles(x, main);
    case Binary(_, l, r) => FoldCompiles(l, main); FoldCompiles(r, main);
  }

  // ----- expressions without columns -----

  /** No reference, to a field or a variable, anywhere. */
  predicate Closed(e: M.MExpr) {
    match e
    case Const(v) => !v.Str? || v.s == [] || v.s[0] != '$'
    case MArith(_, l, r) => Closed(l) && Closed(r)
    case ToLong(x) => Closed(x)
    case AbsOf(x) => Closed(x)
    case FloorOf(x) => Closed(x)
    case Pow(l, r) => Closed(l) && Closed(r)
    case MCompare(_, l, r) => Closed(l) && Closed(r)
    case MAnd(l, r) => Closed(l) && Closed(r)
    case MOr(l, r) => Closed(l) && Closed(r)
    case MNot(x) => Closed(x)
    case Cond(c, y, n) => Closed(c) && Closed(y) && Closed(n)
    case Switch(bs, d) => ClosedBranches(bs) && Closed(d)
    case IfNull(es) => ClosedAll(es)
    case InList(x, l) => Closed(x) && Closed(l)
    case ArrayLit(es) => ClosedAll(es)
    case RegexTest(x, _) => Closed(x)
    case FilterList(_, _, _) => false
    case Reduce(_, x) => Closed(x)
    case ElemAt(x, _) => Closed(x)
  }

  predicate ClosedAll(es: M.MExprs) {
    match es
    case MNil => true
    case MCons(h, t) => Closed(h) && ClosedAll(t)
  }

  predicate ClosedBranches(bs: M.Branches) {
    match bs
    case BNil => true
    case Branch(w, t, rest) => Closed(w) && Closed(t) && ClosedBranches(rest)
  }

  /** A closed expression has one value, whatever the document. */
  lemma {:induction false} ClosedSame(e: M.MExpr, d1: Document, d2: Document, vars: map<string, Value>)
    requires Closed(e)
    ensures M.Eval(e, d1, vars) == M.Eval(e, d2, vars)
    decreases e, 0
  {
    match e
    case Const(_) =>
    case MArith(_, l, r) => ClosedTwo(l, r, e, d1, d2, vars);
    case ToLong(x) => ClosedSame(x, d1, d2, vars);
    case AbsOf(x) => ClosedSame(x, d1, d2, vars);
    case FloorOf(x) => ClosedSame(x, d1, d2, vars);
    case Pow(l, r) => ClosedTwo(l, r, e, d1, d2, vars);
    case MCompare(_, l, r) => ClosedTwo(l, r, e, d1, d2, vars);
    case MAnd(l, r) => ClosedTwo(l, r, e, d1, d2, vars);
    case MOr(l, r) => ClosedTwo(l, r, e, d1, d2, vars);
    case MNot(x) => ClosedSame(x, d1, d2, vars);
    case Cond(c, y, n) => ClosedSame(c, d1, d2, vars); ClosedSame(y, d1, d2, vars); ClosedSame(n, d1, d2, vars);
    case Switch(bs, d) =>
      ClosedSame(d, d1, d2, vars);
      ClosedBranchesSame(bs, M.Eval(d, d1, vars), d1, d2, vars);
    case IfNull(es) => ClosedAllSame(es, d1, d2, vars);
    case InList(x, l) => ClosedSame(x, d1, d2, vars); ClosedSame(l, d1, d2, vars);
    case ArrayLit(es) => ClosedAllSame(es, d1, d2, vars);
    case RegexTest(x, _) => ClosedSame(x, d1, d2, vars);
    case Reduce(_, x) => ClosedSame(x, d1, d2, vars);
    case ElemAt(x, _) => ClosedSame(x, d1, d2, vars);
  }

  lemma {:induction false} ClosedTwo(l: M.MExpr, r: M.MExpr, e: M.MExpr, d1: Document, d2: Document, vars: map<string, Value>)
    requires l < e && r < e && Closed(l) && Closed(r)
    ensures M.Eval(l, d1, vars) == M.Eval(l, d2, vars)
    ensures M.Eval(r, d1, vars) == M.Eval(r, d2, vars)
    decreases e, 0, 0
  {
    ClosedSame(l, d1, d2, vars);
    ClosedSame(r, d1, d2, vars);
  }

  lemma {:induction false} ClosedAllSame(es: M.MExprs, d1: Document, d2: Document, vars: map<string, Value>)
    requires ClosedAll(es)
    ensures M.EvalIfNull(es, d1, vars) == M.EvalIfNull(es, d2, vars)
    ensures M.EvalArray(es, d1, vars) == M.EvalArray(es, d2, vars)
    decreases es, 1
  {
    if es.MCons? {
      ClosedSame(es.head, d1, d2, vars);
      ClosedAllSame(es.tail, d1, d2, vars);
    }
  }

  lemma {:induction false} ClosedBranchesSame(bs: M.Branches, d: Outcome, d1: Document, d2: Document, vars: map<string, Value>)
    requires ClosedBranches(bs)
    ensures M.EvalSwitch(bs, d, d1, vars) == M.EvalSwitch(bs, d, d2, vars)
    decreases bs, 1
  {
    if bs.Branch? {
      ClosedSame(bs.when, d1, d2, vars);
      ClosedSame(bs.then_, d1, d2, vars);
      ClosedBranchesSame(bs.rest, d, d1, d2, vars);
    }
  }

  /** Without columns, and without literals that look like references, the compiled form is closed. */
  lemma {:induction false} CompiledClosed(e: Expr, main: string)
    requires !Mentions(e) && Plain(e) && ToAgg(e, main).Success?
    ensures Closed(ToAgg(e, main).value)
    decreases e, 1
  {
    match e
    case Lit(_) =>
    case BoolLit(_) =>
    case NullLit =>
    case Tuple(es) => CompiledAllClosed(es, main);
    case Unary(_, x) => CompiledClosed(x, main);
    case Binary(_, l, r) => CompiledClosed(l, main); CompiledClosed(r, main);
    case Compare(op, l, r) =>
      CompiledClosed(l, main);
      CompiledClosed(r, main);
      ComparisonClosed(op, ToAgg(l, main).value, ToAgg(r, main).value, r);
    case And(l, r) => CompiledClosed(l, main); CompiledClosed(r, main);
    case Or(l, r) => CompiledClosed(l, main); CompiledClosed(r, main);
    case Not(x) => CompiledClosed(x, main);
    case Is(x, op) =>
      CompiledClosed(x, main);
      IsClosed(op, ToAgg(x, main).value);
    case Between(_, x, f, t) =>
      CompiledClosed(x, main);
      CompiledClosed(f, main);
      CompiledClosed(t, main);
    case Case(b, ws) => CompiledCaseClosed(b, ws, e, main);
    case Func(f, es) => StaticUndollared(e);
  }

  lemma {:induction false} ComparisonClosed(op: CmpOp, a: M.MExpr, b: M.MExpr, r: Expr)
    requires Closed(a) && Closed(b) && ComparisonAgg(op, a, b, r).Success?
    ensures Closed(ComparisonAgg(op, a, b, r).value)
  {
    var m := ComparisonAgg(op, a, b, r).value;
    if m.MNot? {
      assert m.x.InList? || m.x.RegexTest?;
      assert Closed(m.x);
    } else {
      assert m.MCompare? || m.InList? || m.RegexTest?;
    }
  }

  lemma {:induction false} IsClosed(op: IsOp, a: M.MExpr)
    requires Closed(a)
    ensures Closed(IsAgg(op, a))
  {
  }

  lemma {:induction false} CompiledCaseClosed(b: Option<Expr>, ws: Whens, e: Expr, main: string)
    requires e == Case(b, ws) && !Mentions(e) && Plain(e) && ToAgg(e, main).Success?
    ensures Closed(ToAgg(e, main).value)
    decreases e, 0
  {
    if b.Some? {
      CompiledClosed(b.value, main);
      CompiledBranchesClosed(Some(ToAgg(b.value, main).value), ws, main);
    } else {
      CompiledBranchesClosed(None, ws, main);
    }
  }

  lemma {:induction false} CompiledAllClosed(es: Exprs, main: string)
    requires !MentionsAny(es) && PlainAll(es) && ToAggAll(es, main).Success?
    ensures ClosedAll(ToAggAll(es, main).value)
    decreases es, 0
  {
    if es.ECons? {
      CompiledClosed(es.head, main);
      CompiledAllClosed(es.tail, main);
    }
  }

  lemma {:induction false} CompiledBranchesClosed(base: Option<M.MExpr>, ws: Whens, main: string)
    requires !MentionsWhen(ws) && PlainWhens(ws) && (base.Some? ==> Closed(base.value))
    ensures BranchesAgg(base, ws, main).Success? ==> ClosedBranches(BranchesAgg(base, ws, main).value)
    ensures DefaultAgg(ws, main).Success? ==> Closed(DefaultAgg(ws, main).value)
    ensures base.None? && CaseAgg(ws, main).Success? ==> Closed(CaseAgg(ws, main).value)
    decreases ws
  {
    match ws
    case NoElse =>
    case Else(x) => if ToAgg(x, main).Success? { CompiledClosed(x, main); }
    case When(c, v, rest) =>
      if ToAgg(c, main).Success? { CompiledClosed(c, main); }
      if ToAgg(v, main).Success? { CompiledClosed(v, main); }
      CompiledBranchesClosed(base, rest, main);
  }

  /** HasColumnRef false: the compiled expression gives the same on all documents. */
  lemma {:induction false} NoColumnsSame(e: Expr, main: string, d1: Document, d2: Document, vars: map<string, Value>)
    requires !Mentions(e) && Plain(e) && ToAgg(e, main).Success?
    ensures M.Eval(ToAgg(e, main).value, d1, vars) == M.Eval(ToAgg(e, main).value, d2, vars)
  {
    CompiledClosed(e, main);
    ClosedSame(ToAgg(e, main).value, d1, d2, vars);
  }

  /** A string literal beginning with `$` is why: it has no columns, yet reads a field. */
  lemma {:induction false} DollarLiteralReads(name: string, main: string, v: Value, w: Value)
    requires GoodName(name)
    ensures var e := Lit(StrVal("$" + name));
            !Mentions(e)
            && M.Eval(ToAgg(e, main).value, map[name := v], map[]) == Ok(v)
            && M.Eval(ToAgg(e, main).value, map[name := w], map[]) == Ok(w)
  {
    assert ("$" + name)[1..] == name;
    GetName(map[name := v], name);
    GetName(map[name := w], name);
  }

  ghost predicate StandsForItself(v: Value) {
    forall doc: Document, vars: map<string, Value> :: M.EvalConst(v, doc, vars) == Ok(v)
  }

  /** A string that a constant call is folded to stands for itself in every document exactly if it does not begin with `$`. */
  lemma {:induction false} StringConstantExactly(s: string)
    ensures StandsForItself(Str(s)) <==> s == [] || s[0] != '$'
  {
    if s != [] && s[0] == '$' {
      var nothing: Document, none: map<string, Value> := map[], map[];
      assert Get(nothing, s[1..]) == Missing;
      assert M.EvalConst(Str(s), nothing, none) != Ok(Str(s));
    }
  }
}
