/** Value expressions: static evaluation (expr.go) and compilation (agg_expr.go). */
module Compiler {
  import opened Wrappers
  import opened Bson
  import opened Sql
  import M = Mongo
  import Like
  import Rounding

  // ----- Go values -----

  datatype GoVal =
    | GNil
    | GBool(b: bool)
    | GInt(i: int)
    | GFloat(r: real)
    | GStr(s: string)
    | GList(vs: seq<GoVal>)

  /** The BSON value the driver sends for a Go value. */
  function ToBson(g: GoVal): Value {
    match g
    case GNil => Null
    case GBool(b) => Bool(b)
    case GInt(i) => Num(i as real)
    case GFloat(r) => Num(r)
    case GStr(s) => Str(s)
    case GList(vs) => Arr(ListToBson(vs))
  }

  function ListToBson(vs: seq<GoVal>): seq<Value> {
    if vs == [] then [] else [ToBson(vs[0])] + ListToBson(vs[1..])
  }

  /** An integer literal too large for int64 is kept as its text. */
  function LiteralValue(l: Literal): GoVal {
    match l
    case StrVal(s) => GStr(s)
    case IntVal(i, text) => if InInt64(i) then GInt(i) else GStr(text)
    case DecVal(r) => GFloat(r)
  }

  predicate IsNumber(g: GoVal) {
    g.GInt? || g.GFloat?
  }

  function ToFloat(g: GoVal): Result<real> {
    match g
    case GInt(i) => Success(i as real)
    case GFloat(r) => Success(r)
    case GStr(_) => Failure("parsing floats is not modelled")
    case _ => Failure("cannot convert to float64")
  }

  function ToInt(g: GoVal): Result<int> {
    match g
    case GInt(i) => Success(i)
    case GFloat(r) => Success(Rounding.ToInt64(r))
    case GBool(b) => Success(if b then 1 else 0)
    case GStr(_) => Failure("parsing integers is not modelled")
    case _ => Failure("cannot convert to int64")
  }

  function CompareNumbers(a: real, b: real): int {
    if a < b then -1 else if a > b then 1 else 0
  }

  /** compareAny on numbers; its other operands go through Go's printing and parsing. */
  function CompareAny(a: GoVal, b: GoVal): Result<int> {
    var x :- ToFloat(a);
    var y :- ToFloat(b);
    Success(CompareNumbers(x, y))
  }

  function IsTruthy(g: GoVal): Result<bool> {
    match g
    case GNil => Success(false)
    case GBool(b) => Success(b)
    case GInt(i) => Success(i != 0)
    case GFloat(r) => Success(r != 0.0)
    case GStr(_) => Failure("parsing floats is not modelled")
    case GList(_) => Success(true)
  }

  // ----- static evaluation: Value and evalFunc -----

  function StaticValue(e: Expr): Result<GoVal> {
    match e
    case Lit(l) => Success(LiteralValue(l))
    case BoolLit(b) => Success(GBool(b))
    case NullLit => Success(GNil)
    case Tuple(es) =>
      var vs :- StaticValues(es);
      Success(GList(vs))
    case Unary(op, x) =>
      if op != UMinus then Failure("unsupported value expression")
      else
        var v :- StaticValue(x);
        (match v
         case GInt(i) => Success(GInt(-i))
         case GFloat(r) => Success(GFloat(-r))
         case GStr(s) => Success(GStr("-" + s))
         case _ => Failure("unsupported value expression"))
    case Func(f, es) =>
      var vs :- StaticValues(es);
      EvalFunc(f, vs)
    case Compare(op, l, r) =>
      var a :- StaticValue(l);
      var b :- StaticValue(r);
      var c :- CompareAny(a, b);
      Success(GInt(if StaticComparison(op, c) then 1 else 0))
    case _ => Failure("unsupported value expression")
  }

  function StaticValues(es: Exprs): Result<seq<GoVal>> {
    match es
    case ENil => Success([])
    case ECons(h, t) =>
      var v :- StaticValue(h);
      var vs :- StaticValues(t);
      Success([v] + vs)
  }

  predicate StaticComparison(op: CmpOp, c: int) {
    match op
    case Eq => c == 0
    case NullSafeEq => c == 0
    case Ne => c != 0
    case Lt => c < 0
    case Le => c <= 0
    case Gt => c > 0
    case Ge => c >= 0
    case _ => false
  }

  function EvalFunc(f: FuncName, args: seq<GoVal>): Result<GoVal> {
    match f
    case FnIf =>
      if |args| < 3 then Failure("IF: 3 args required")
      else
        var t :- IsTruthy(args[0]);
        Success(if t then args[1] else args[2])
    case FnIfNull => Success(FirstNotNil(args))
    case FnCoalesce => Success(FirstNotNil(args))
    case FnNullIf =>
      if |args| < 2 then Failure("NULLIF: 2 args required")
      else
        var c :- CompareAny(args[0], args[1]);
        Success(if c == 0 then GNil else args[0])
    case FnRound =>
      if args == [] then Failure("index out of range")
      else
        var x :- ToFloat(args[0]);
        var d := if |args| >= 2 then ToInt(args[1]) else Success(0);
        Success(GFloat(Rounding.StaticRoundOf(x, if d.Success? then d.value else 0)))
    case FnMod =>
      if |args| < 2 then Failure("MOD: 2 args required")
      else
        var b := ToFloat(args[1]);
        if b.Failure? || b.value == 0.0 then Success(GNil)
        else if args[0].GInt? && args[1].GInt? then Success(GInt(TruncMod(args[0].i, args[1].i)))
        else
          var a := ToFloat(args[0]);
          Success(GFloat(Remainder(if a.Success? then a.value else 0.0, b.value)))
  }

  function FirstNotNil(args: seq<GoVal>): GoVal {
    if args == [] then GNil else if args[0] != GNil then args[0] else FirstNotNil(args[1..])
  }

  /** Go's integer division and remainder truncate toward zero. */
  function TruncDiv(a: int, b: int): int
    requires b != 0
  {
    var q := AbsInt(a) / AbsInt(b);
    if (a < 0) == (b < 0) then q else -q
  }

  function TruncMod(a: int, b: int): int
    requires b != 0
  {
    a - b * TruncDiv(a, b)
  }

  function AbsInt(a: int): nat {
    if a < 0 then -a else a
  }

  // ----- column references -----

  /** HasColumnRef's walk, with the captured flag as a field. */
  class ColumnFinder {
    var found: bool

    constructor ()
      ensures !found
    {
      found := false;
    }

    method Walk(x: Expr)
      modifies this
      ensures found == (old(found) || Mentions(x))
      decreases x
    {
      if found { return; }
      match x
      case Col(_, _) => found := true;
      case Binary(_, l, r) => Walk(l); Walk(r);
      case Unary(_, y) => Walk(y);
      case Compare(_, l, r) => Walk(l); Walk(r);
      case And(l, r) => Walk(l); Walk(r);
      case Or(l, r) => Walk(l); Walk(r);
      case Not(y) => Walk(y);
      case Is(y, _) => Walk(y);
      case Between(_, y, f, t) => Walk(y); Walk(f); Walk(t);
      case Tuple(es) => WalkAll(es);
      case Func(_, es) => WalkAll(es);
      case Case(b, ws) =>
        if b.Some? { Walk(b.value); }
        WalkWhens(ws);
      case _ =>
    }

    method WalkAll(es: Exprs)
      modifies this
      ensures found == (old(found) || MentionsAny(es))
      decreases es
    {
      match es
      case ENil =>
      case ECons(h, t) => Walk(h); WalkAll(t);
    }

    method WalkWhens(ws: Whens)
      modifies this
      ensures found == (old(found) || MentionsWhen(ws))
      decreases ws
    {
      match ws
      case NoElse =>
      case Else(y) => Walk(y);
      case When(c, v, rest) => Walk(c); Walk(v); WalkWhens(rest);
    }
  }

  method HasColumnRef(e: Expr) returns (found: bool)
    ensures found == Mentions(e)
  {
    var finder := new ColumnFinder();
    finder.Walk(e);
    found := finder.found;
  }

  /** Whether an expression mentions a column. */
  predicate Mentions(e: Expr) {
    Cols(e) != {}
  }

  predicate MentionsAny(es: Exprs) {
    ColsOf(es) != {}
  }

  predicate MentionsWhen(ws: Whens) {
    WhenCols(ws) != {}
  }

  // ----- compilation -----

  function PathOf(q: string, name: string, main: string): string {
    if q == "" || (q == main && main != "") then name else q + "." + name
  }

  function Ref(path: string): M.MExpr {
    M.Const(Str("$" + path))
  }

  function IntConst(i: int): M.MExpr {
    M.Const(Num(i as real))
  }

  function ToAgg(e: Expr, main: string): Result<M.MExpr>
    decreases e, 0
  {
    match e
    case Col(q, n) => Success(Ref(PathOf(q, n, main)))
    case Lit(l) => Success(M.Const(ToBson(LiteralValue(l))))
    case BoolLit(b) => Success(M.Const(Bool(b)))
    case NullLit => Success(M.Const(Null))
    case Tuple(es) =>
      var vs :- ToAggAll(es, main);
      Success(M.ArrayLit(vs))
    case Unary(op, x) =>
      var v :- ToAgg(x, main);
      (match op
       case UPlus => Success(v)
       case UMinus => Success(M.MArith(M.Multiply, IntConst(-1), v))
       case OtherUnary => Failure("unsupported unary operator"))
    case Binary(op, l, r) =>
      var a :- ToAgg(l, main);
      var b :- ToAgg(r, main);
      BinaryAgg(op, a, b)
    case Case(b, ws) =>
      if b.Some? then
        var v :- ToAgg(b.value, main);
        SwitchAgg(Some(v), ws, main)
      else CaseAgg(ws, main)
    case Func(f, es) => FuncAgg(f, es, main)
    case Compare(op, l, r) =>
      var a :- ToAgg(l, main);
      var b :- ToAgg(r, main);
      ComparisonAgg(op, a, b, r)
    case And(l, r) =>
      var a :- ToAgg(l, main);
      var b :- ToAgg(r, main);
      Success(M.MAnd(a, b))
    case Or(l, r) =>
      var a :- ToAgg(l, main);
      var b :- ToAgg(r, main);
      Success(M.MOr(a, b))
    case Not(x) =>
      var v :- ToAgg(x, main);
      Success(M.MNot(v))
    case Is(x, op) =>
      var v :- ToAgg(x, main);
      Success(IsAgg(op, v))
    case Between(b, x, f, t) =>
      var v :- ToAgg(x, main);
      var lo :- ToAgg(f, main);
      var hi :- ToAgg(t, main);
      Success(BetweenAgg(b, v, lo, hi))
    case Agg(_) => Failure("unsupported expression in aggregation context")
  }

  function ToAggAll(es: Exprs, main: string): Result<M.MExprs>
    decreases es, 0
  {
    match es
    case ENil => Success(M.MNil)
    case ECons(h, t) =>
      var v :- ToAgg(h, main);
      var vs :- ToAggAll(t, main);
      Success(M.MCons(v, vs))
  }

  function BinaryAgg(op: BinOp, a: M.MExpr, b: M.MExpr): Result<M.MExpr> {
    match op
    case Plus => Success(M.MArith(M.Add, a, b))
    case Minus => Success(M.MArith(M.Subtract, a, b))
    case Mult => Success(M.MArith(M.Multiply, a, b))
    case Div => Success(M.MArith(M.Divide, a, b))
    case Mod => Success(M.MArith(M.MMod, a, b))
    case IntDiv => Success(M.ToLong(M.MArith(M.Divide, a, b)))
    case OtherBinary => Failure("unsupported binary operator")
  }

  function ComparisonAgg(op: CmpOp, a: M.MExpr, b: M.MExpr, right: Expr): Result<M.MExpr> {
    match op
    case Eq => Success(M.MCompare(M.CEq, a, b))
    case NullSafeEq => Success(M.MCompare(M.CEq, a, b))
    case Ne => Success(M.MCompare(M.CNe, a, b))
    case Lt => Success(M.MCompare(M.CLt, a, b))
    case Le => Success(M.MCompare(M.CLte, a, b))
    case Gt => Success(M.MCompare(M.CGt, a, b))
    case Ge => Success(M.MCompare(M.CGte, a, b))
    case In => Success(M.InList(a, b))
    case NotIn => Success(M.MNot(M.InList(a, b)))
    case LikeOp =>
      if right.Lit? && right.lit.StrVal? then Success(M.RegexTest(a, Like.RegexFor(right.lit.s)))
      else Failure("LIKE in expression requires string literal")
    case NotLike =>
      if right.Lit? && right.lit.StrVal? then Success(M.MNot(M.RegexTest(a, Like.RegexFor(right.lit.s))))
      else Failure("NOT LIKE in expression requires string literal")
    case Regexp => Failure("unsupported comparison operator in agg expr")
    case NotRegexp => Failure("unsupported comparison operator in agg expr")
  }

  function BetweenAgg(isBetween: bool, v: M.MExpr, lo: M.MExpr, hi: M.MExpr): M.MExpr {
    if isBetween then M.MAnd(M.MCompare(M.CGte, v, lo), M.MCompare(M.CLte, v, hi))
    else M.MOr(M.MCompare(M.CLt, v, lo), M.MCompare(M.CGt, v, hi))
  }

  function IsAgg(op: IsOp, v: M.MExpr): M.MExpr {
    match op
    case IsNull => M.MCompare(M.CEq, v, M.Const(Null))
    case IsNotNull => M.MCompare(M.CNe, v, M.Const(Null))
    case IsTrue => M.MCompare(M.CEq, v, M.Const(Bool(true)))
    case IsNotTrue => M.MCompare(M.CNe, v, M.Const(Bool(true)))
    case IsFalse => M.MCompare(M.CEq, v, M.Const(Bool(false)))
    case IsNotFalse => M.MCompare(M.CNe, v, M.Const(Bool(false)))
  }

  /** A searched CASE of one branch and an ELSE becomes a $cond, any other a $switch. */
  function CaseAgg(ws: Whens, main: string): Result<M.MExpr>
    decreases ws, 2
  {
    if ws.When? && ws.rest.Else? then
      var c :- ToAgg(ws.cond, main);
      var t :- ToAgg(ws.val, main);
      var f :- ToAgg(ws.rest.els, main);
      Success(M.Cond(c, t, f))
    else SwitchAgg(None, ws, main)
  }

  /** With a base, each branch tests the base for equality. */
  function SwitchAgg(base: Option<M.MExpr>, ws: Whens, main: string): Result<M.MExpr>
    decreases ws, 1
  {
    var bs :- BranchesAgg(base, ws, main);
    var d :- DefaultAgg(ws, main);
    Success(M.Switch(bs, d))
  }

  function BranchesAgg(base: Option<M.MExpr>, ws: Whens, main: string): Result<M.Branches>
    decreases ws, 0
  {
    match ws
    case NoElse => Success(M.BNil)
    case Else(_) => Success(M.BNil)
    case When(c, v, rest) =>
      var a :- ToAgg(c, main);
      var t :- ToAgg(v, main);
      var bs :- BranchesAgg(base, rest, main);
      Success(M.Branch(if base.Some? then M.MCompare(M.CEq, base.value, a) else a, t, bs))
  }

  function DefaultAgg(ws: Whens, main: string): Result<M.MExpr>
    decreases ws, 0
  {
    match ws
    case NoElse => Success(M.Const(Null))
    case Else(x) => ToAgg(x, main)
    case When(_, _, rest) => DefaultAgg(rest, main)
  }

  /** A call without columns is evaluated now, any other becomes an operator. */
  function FuncAgg(f: FuncName, es: Exprs, main: string): Result<M.MExpr>
    decreases es, 1
  {
    if !MentionsAny(es) then
      var v :- StaticValue(Func(f, es));
      Success(M.Const(ToBson(v)))
    else
      var vs :- ToAggAll(es, main);
      CallAgg(f, vs)
  }

  function CallAgg(f: FuncName, vs: M.MExprs): Result<M.MExpr> {
    match (f, vs)
    case (FnIf, MCons(c, MCons(a, MCons(b, _)))) => Success(M.Cond(c, a, b))
    case (FnIfNull, MCons(a, MCons(b, _))) => Success(M.IfNull(M.MCons(a, M.MCons(b, M.MNil))))
    case (FnCoalesce, _) => Success(M.IfNull(vs))
    case (FnNullIf, MCons(a, MCons(b, _))) =>
      Success(M.Cond(M.MCompare(M.CEq, a, b), M.Const(Null), a))
    case (FnRound, MCons(x, MCons(d, _))) => Success(RoundAgg(x, d))
    case (FnRound, MCons(x, MNil)) => Success(RoundAgg(x, IntConst(0)))
    case (FnMod, MCons(a, MCons(b, _))) => Success(M.MArith(M.MMod, a, b))
    case _ => Failure("wrong number of arguments")
  }

  /** sign(x) * floor(|x| * 10^d + 0.5) / 10^d, because $round rounds half to even. */
  function RoundAgg(x: M.MExpr, d: M.MExpr): M.MExpr {
    var mult := M.Pow(IntConst(10), d);
    var scaled := M.MArith(M.Add, M.MArith(M.Multiply, M.AbsOf(x), mult), M.Const(Num(0.5)));
    var sign := M.Cond(M.MCompare(M.CLt, x, IntConst(0)), IntConst(-1), IntConst(1));
    M.MArith(M.Divide, M.MArith(M.Multiply, sign, M.FloorOf(scaled)), mult)
  }
}
