/** The parsed SQL expressions the translator accepts, and what they mean. */
module Sql {
  import opened Wrappers
  import opened Bson
  import Like
  import Rounding

  // ----- syntax -----

  datatype CmpOp =
    | Eq | NullSafeEq | Ne | Lt | Le | Gt | Ge
    | In | NotIn | LikeOp | NotLike | Regexp | NotRegexp

  datatype IsOp = IsNull | IsNotNull | IsTrue | IsNotTrue | IsFalse | IsNotFalse

  /** `OtherBinary` stands for the bitwise operators, which are always rejected. */
  datatype BinOp = Plus | Minus | Mult | Div | IntDiv | Mod | OtherBinary

  datatype UnOp = UPlus | UMinus | OtherUnary

  datatype Literal = StrVal(s: string) | IntVal(i: int, text: string) | DecVal(r: real)

  datatype FuncName = FnIf | FnIfNull | FnCoalesce | FnNullIf | FnRound | FnMod

  datatype AggFunc = Count | Sum | Avg | Min | Max

  datatype AggSpec = CountStar | AggOf(func: AggFunc, distinct: bool, arg: Expr)

  datatype Expr =
    | Col(qual: string, name: string)
    | Lit(lit: Literal)
    | BoolLit(b: bool)
    | NullLit
    | Tuple(items: Exprs)
    | Unary(uop: UnOp, arg: Expr)
    | Binary(bop: BinOp, l: Expr, r: Expr)
    | Compare(cop: CmpOp, l: Expr, r: Expr)
    | And(l: Expr, r: Expr)
    | Or(l: Expr, r: Expr)
    | Not(arg: Expr)
    | Is(arg: Expr, iop: IsOp)
    | Between(isBetween: bool, arg: Expr, from: Expr, to: Expr)
    | Case(base: Option<Expr>, whens: Whens)
    | Func(fn: FuncName, args: Exprs)
    | Agg(spec: AggSpec)

  datatype Exprs = ENil | ECons(head: Expr, tail: Exprs)

  /** The branches of a CASE, up to its ELSE or to an END without one. */
  datatype Whens = NoElse | Else(els: Expr) | When(cond: Expr, val: Expr, rest: Whens)

  predicate HoldsAgg(e: Expr) {
    match e
    case Col(_, _) => false
    case Lit(_) => false
    case BoolLit(_) => false
    case NullLit => false
    case Tuple(es) => AnyHoldsAgg(es)
    case Unary(_, x) => HoldsAgg(x)
    case Binary(_, l, r) => HoldsAgg(l) || HoldsAgg(r)
    case Compare(_, l, r) => HoldsAgg(l) || HoldsAgg(r)
    case And(l, r) => HoldsAgg(l) || HoldsAgg(r)
    case Or(l, r) => HoldsAgg(l) || HoldsAgg(r)
    case Not(x) => HoldsAgg(x)
    case Is(x, _) => HoldsAgg(x)
    case Between(_, x, f, t) => HoldsAgg(x) || HoldsAgg(f) || HoldsAgg(t)
    case Case(b, ws) => (b.Some? && HoldsAgg(b.value)) || WhensHoldAgg(ws)
    case Func(_, es) => AnyHoldsAgg(es)
    case Agg(_) => true
  }

  predicate AnyHoldsAgg(es: Exprs) {
    match es
    case ENil => false
    case ECons(h, t) => HoldsAgg(h) || AnyHoldsAgg(t)
  }

  predicate WhensHoldAgg(ws: Whens) {
    match ws
    case NoElse => false
    case Else(x) => HoldsAgg(x)
    case When(c, v, rest) => HoldsAgg(c) || HoldsAgg(v) || WhensHoldAgg(rest)
  }

  /** The column references of an expression, aggregates' arguments left out. */
  function Cols(e: Expr): set<(string, string)> {
    match e
    case Col(q, n) => {(q, n)}
    case Lit(_) => {}
    case BoolLit(_) => {}
    case NullLit => {}
    case Tuple(es) => ColsOf(es)
    case Unary(_, x) => Cols(x)
    case Binary(_, l, r) => Cols(l) + Cols(r)
    case Compare(_, l, r) => Cols(l) + Cols(r)
    case And(l, r) => Cols(l) + Cols(r)
    case Or(l, r) => Cols(l) + Cols(r)
    case Not(x) => Cols(x)
    case Is(x, _) => Cols(x)
    case Between(_, x, f, t) => Cols(x) + Cols(f) + Cols(t)
    case Case(b, ws) => (if b.Some? then Cols(b.value) else {}) + WhenCols(ws)
    case Func(_, es) => ColsOf(es)
    case Agg(_) => {}
  }

  function ColsOf(es: Exprs): set<(string, string)> {
    match es
    case ENil => {}
    case ECons(h, t) => Cols(h) + ColsOf(t)
  }

  function WhenCols(ws: Whens): set<(string, string)> {
    match ws
    case NoElse => {}
    case Else(x) => Cols(x)
    case When(c, v, rest) => Cols(c) + Cols(v) + WhenCols(rest)
  }

  // ----- three-valued logic (ISO/IEC 9075:1992, 8.12) -----

  datatype Truth = T | F | U

  function And3(a: Truth, b: Truth): Truth {
    if a == F || b == F then F else if a == T && b == T then T else U
  }

  function Or3(a: Truth, b: Truth): Truth {
    if a == T || b == T then T else if a == F && b == F then F else U
  }

  function Not3(a: Truth): Truth {
    match a case T => F case F => T case U => U
  }

  function OfBool(b: bool): Truth { if b then T else F }

  function OfTruth(t: Truth): Value {
    match t case T => Bool(true) case F => Bool(false) case U => Null
  }

  /** A value used as a condition: NULL is unknown, a number is true when not zero. */
  function TruthOf(v: Value): Option<Truth> {
    match v
    case Null => Some(U)
    case Bool(b) => Some(OfBool(b))
    case Num(n) => Some(OfBool(n != 0.0))
    case _ => None
  }

  function TruthOutcome(r: Outcome): Option<Truth> {
    if r.Ok? then TruthOf(r.v) else None
  }

  // ----- meaning -----

  /** What columns and aggregates stand for while one row, or one group, is looked at. */
  datatype Env = Env(col: (string, string) -> Value, agg: AggSpec -> Value)

  /** The value of an expression; `Err` is a type error. */
  function Eval(e: Expr, env: Env): Outcome
    decreases e
  {
    match e
    case Col(q, n) => Ok(env.col(q, n))
    case Lit(l) => Ok(LiteralMeaning(l))
    case BoolLit(b) => Ok(Bool(b))
    case NullLit => Ok(Null)
    case Tuple(es) => EvalTuple(es, env)
    case Unary(op, x) => Negate(op, Eval(x, env))
    case Binary(op, l, r) => Arith(op, Eval(l, env), Eval(r, env))
    case Compare(op, l, r) => Comparison(op, Eval(l, env), Eval(r, env))
    case And(l, r) => Connect(true, Eval(l, env), Eval(r, env))
    case Or(l, r) => Connect(false, Eval(l, env), Eval(r, env))
    case Not(x) => Lift(TruthOutcome(Eval(x, env)), t => Not3(t))
    case Is(x, op) => IsTest(op, Eval(x, env))
    case Between(b, x, f, t) => Range(b, Eval(x, env), Eval(f, env), Eval(t, env))
    case Case(b, ws) =>
      if b.Some? then SimpleCase(Eval(b.value, env), ws, env) else SearchedCase(ws, env)
    case Func(f, es) => Call(f, es, env)
    case Agg(a) => Ok(env.agg(a))
  }

  function LiteralMeaning(l: Literal): Value {
    match l
    case StrVal(s) => Str(s)
    case IntVal(i, _) => Num(i as real)
    case DecVal(r) => Num(r)
  }

  function EvalTuple(es: Exprs, env: Env): Outcome
    decreases es
  {
    match es
    case ENil => Ok(Arr([]))
    case ECons(h, t) =>
      var v, vs := Eval(h, env), EvalTuple(t, env);
      if v.Ok? && vs.Ok? && vs.v.Arr? then Ok(Arr([v.v] + vs.v.items)) else Err
  }

  function SimpleCase(base: Outcome, ws: Whens, env: Env): Outcome
    decreases ws
  {
    match ws
    case NoElse => Ok(Null)
    case Else(x) => Eval(x, env)
    case When(c, v, rest) =>
      Choose(Comparison(Eq, base, Eval(c, env)), Eval(v, env), SimpleCase(base, rest, env))
  }

  function SearchedCase(ws: Whens, env: Env): Outcome
    decreases ws
  {
    match ws
    case NoElse => Ok(Null)
    case Else(x) => Eval(x, env)
    case When(c, v, rest) =>
      Choose(Eval(c, env), Eval(v, env), SearchedCase(rest, env))
  }

  function Call(f: FuncName, es: Exprs, env: Env): Outcome
    decreases es, 1
  {
    match (f, es)
    case (FnIf, ECons(c, ECons(a, ECons(b, ENil)))) =>
      Choose(Eval(c, env), Eval(a, env), Eval(b, env))
    case (FnIfNull, ECons(_, ECons(_, ENil))) => FirstNonNull(es, env)
    case (FnCoalesce, ECons(_, _)) => FirstNonNull(es, env)
    case (FnNullIf, ECons(a, ECons(b, ENil))) =>
      Choose(Comparison(Eq, Eval(a, env), Eval(b, env)), Ok(Null), Eval(a, env))
    case (FnRound, ECons(x, ENil)) => RoundTo(Eval(x, env), Ok(Num(0.0)))
    case (FnRound, ECons(x, ECons(d, ENil))) => RoundTo(Eval(x, env), Eval(d, env))
    case (FnMod, ECons(a, ECons(b, ENil))) => Arith(Mod, Eval(a, env), Eval(b, env))
    case _ => Err
  }

  function FirstNonNull(es: Exprs, env: Env): Outcome
    decreases es, 0
  {
    match es
    case ENil => Ok(Null)
    case ECons(h, t) =>
      var v := Eval(h, env);
      if v == Ok(Null) then FirstNonNull(t, env) else v
  }

  // ----- operators on values -----

  function Lift(t: Option<Truth>, f: Truth -> Truth): Outcome {
    if t.Some? then Ok(OfTruth(f(t.value))) else Err
  }

  function Connect(conj: bool, a: Outcome, b: Outcome): Outcome {
    var s, t := TruthOutcome(a), TruthOutcome(b);
    if s.None? || t.None? then Err
    else Ok(OfTruth(if conj then And3(s.value, t.value) else Or3(s.value, t.value)))
  }

  predicate NumOrNull(r: Outcome) {
    r.Ok? && (r.v.Num? || r.v.Null?)
  }

  function Negate(op: UnOp, r: Outcome): Outcome {
    if op == OtherUnary || !NumOrNull(r) then Err
    else if r.v.Null? || op == UPlus then r
    else Ok(Num(-r.v.n))
  }

  /** Arithmetic over exact reals; a zero divisor gives NULL. */
  function Arith(op: BinOp, a: Outcome, b: Outcome): Outcome {
    if !NumOrNull(a) || !NumOrNull(b) then Err
    else if a.v.Null? || b.v.Null? then (if op == OtherBinary then Err else Ok(Null))
    else
      match op
      case Plus => Ok(Num(a.v.n + b.v.n))
      case Minus => Ok(Num(a.v.n - b.v.n))
      case Mult => Ok(Num(Times(a.v.n, b.v.n)))
      case Div => Ok(if b.v.n == 0.0 then Null else Num(Over(a.v.n, b.v.n)))
      case IntDiv => Ok(if b.v.n == 0.0 then Null else Num(Trunc(Over(a.v.n, b.v.n)) as real))
      case OtherBinary => Err
      case Mod => Ok(if b.v.n == 0.0 then Null else Num(Remainder(a.v.n, b.v.n)))
  }

  predicate Ordered(op: CmpOp, a: Value, b: Value) {
    match op
    case Ne => a != b
    case Lt => Less(a, b)
    case Le => Less(a, b) || a == b
    case Gt => Less(b, a)
    case Ge => Less(b, a) || a == b
    case _ => a == b
  }

  function Comparison(op: CmpOp, a: Outcome, b: Outcome): Outcome {
    if a.Err? || b.Err? || !IsScalar(a.v) then Err
    else
      match op
      case In => Lift(Member(a.v, b.v), t => t)
      case NotIn => Lift(Member(a.v, b.v), t => Not3(t))
      case LikeOp => Lift(Likeness(a.v, b.v), t => t)
      case NotLike => Lift(Likeness(a.v, b.v), t => Not3(t))
      case Regexp => Err
      case NotRegexp => Err
      case NullSafeEq =>
        if !IsScalar(b.v) then Err
        else if a.v.Null? || b.v.Null? || SameType(a.v, b.v) then Ok(Bool(a.v == b.v))
        else Err
      case _ =>
        if !IsScalar(b.v) then Err
        else if a.v.Null? || b.v.Null? then Ok(Null)
        else if SameType(a.v, b.v) then Ok(Bool(Ordered(op, a.v, b.v)))
        else Err
  }

  /** `a IN (...)`: true on a match, otherwise unknown if a NULL is involved. */
  function Member(a: Value, list: Value): Option<Truth> {
    if !list.Arr? || exists v :: v in list.items && !(v.Null? || a.Null? || SameType(a, v)) then None
    else if a.Null? then Some(if list.items == [] then F else U)
    else if a in list.items then Some(T)
    else if Null in list.items then Some(U)
    else Some(F)
  }

  function Likeness(a: Value, pattern: Value): Option<Truth> {
    if !pattern.Str? || !(a.Null? || a.Str?) then None
    else if a.Null? then Some(U)
    else Some(OfBool(Like.SqlLike(pattern.s, a.s)))
  }

  function IsTest(op: IsOp, r: Outcome): Outcome {
    if r.Err? then Err
    else
      match op
      case IsNull => Ok(Bool(r.v == Null))
      case IsNotNull => Ok(Bool(r.v != Null))
      case IsTrue => Lift(TruthOf(r.v), t => OfBool(t == T))
      case IsNotTrue => Lift(TruthOf(r.v), t => OfBool(t != T))
      case IsFalse => Lift(TruthOf(r.v), t => OfBool(t == F))
      case IsNotFalse => Lift(TruthOf(r.v), t => OfBool(t != F))
  }

  /** `x BETWEEN from AND to`, which is `x >= from AND x <= to`. */
  function Range(isBetween: bool, x: Outcome, from: Outcome, to: Outcome): Outcome {
    var inside := Connect(true, Comparison(Ge, x, from), Comparison(Le, x, to));
    if isBetween then inside else Lift(TruthOutcome(inside), t => Not3(t))
  }

  /** Only the outcome chosen counts: a condition that is not TRUE chooses `no`. */
  function Choose(test: Outcome, yes: Outcome, no: Outcome): Outcome {
    var t := TruthOutcome(test);
    if t.None? then Err else if t.value == T then yes else no
  }

  /** `ROUND(x, d)`, half away from zero, for a whole number of digits d. */
  function RoundTo(x: Outcome, d: Outcome): Outcome {
    if !NumOrNull(x) || !NumOrNull(d) then Err
    else if d.v.Num? && d.v.n.Floor as real != d.v.n then Err
    else if x.v.Null? || d.v.Null? then Ok(Null)
    else Ok(Num(Rounding.HalfAway(x.v.n, d.v.n.Floor)))
  }
}
