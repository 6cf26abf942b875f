/** Filters are exact for three-valued logic: they pass the rows where the predicate is TRUE. */
module WhereTheorem {
  import opened Wrappers
  import opened Bson
  import opened Sql
  import opened Compiler
  import opened Where
  import opened ValueTheorem
  import M = Mongo
  import Like

  predicate IsTrueOf(r: Outcome) {
    TruthOutcome(r) == Some(T)
  }

  predicate IsFalseOf(r: Outcome) {
    TruthOutcome(r) == Some(F)
  }

  // ----- the conditions on leaves -----

  /** For the comparison as it is finally written, after any negation. */
  predicate FitsComparison(op: CmpOp, l: Expr, r: Expr, env: Env, doc: Document) {
    Eval(Compare(op, l, r), env).Ok?
    && if ExprOp(op).Some? then
         if l.Col? && IsConstant(r) then r.NullLit? ==> NullLiteralFits(op, env.col(l.qual, l.name))
         else Safe(l, env, doc, "") && Safe(r, env, doc, "")
              && OperandsFit(op, Eval(l, env), Eval(r, env), Settled(l, doc, "") && Settled(r, doc, ""))
       else
         FitsList(op, l, r, env)
  }

  /** Which columns a field test compares rightly with a NULL literal. */
  predicate NullLiteralFits(op: CmpOp, v: Value) {
    match op
    case NullSafeEq => true
    case Ne => v == Null
    case Lt => true
    case Gt => true
    case _ => v != Null
  }

  /** Membership and patterns: the value and the list allow the filter to see what SQL sees. */
  predicate FitsList(op: CmpOp, l: Expr, r: Expr, env: Env) {
    var v := Eval(l, env);
    v.Ok?
    && (op == In || op == NotIn ==>
          StaticSafeTuple(r) && Eval(r, env).Ok? && Eval(r, env).v.Arr? && MemberFits(op, v.v, Eval(r, env).v.items))
    && (op == NotLike ==> v.v != Null)
    && (v.v.Str? && (op == LikeOp || op == NotLike) ==> '\n' !in v.v.s)
  }

  /** IN: not a NULL column and a NULL listed. NOT IN: a value in the list, or no NULL about. */
  predicate MemberFits(op: CmpOp, v: Value, list: seq<Value>) {
    if op == In then !(v == Null && Null in list) else if Null in list then v in list else v != Null || list == []
  }

  predicate StaticSafeTuple(r: Expr) {
    r.Tuple? && StaticSafeAll(r.items)
  }

  predicate FitsIs(x: Expr, op: IsOp, env: Env) {
    Eval(x, env).Ok?
    && (op == IsNull || op == IsNotNull || (TruthOutcome(Eval(x, env)).Some? && TruthTestFits(op, Eval(x, env).v)))
  }

  /** Only BETWEEN itself goes wrong, and only for NULL between two NULLs. */
  predicate FitsBetween(isBetween: bool, x: Expr, f: Expr, t: Expr, env: Env) {
    StaticSafe(f) && StaticSafe(t)
    && Range(true, Eval(x, env), Eval(f, env), Eval(t, env)).Ok?
    && (isBetween ==> !(Eval(x, env) == Ok(Null) && Eval(f, env) == Ok(Null) && Eval(t, env) == Ok(Null)))
  }

  /** The conditions on a whole predicate, as it stands or under NOT. */
  predicate Fits(e: Expr, positive: bool, env: Env, doc: Document) {
    match e
    case And(l, r) => Fits(l, positive, env, doc) && Fits(r, positive, env, doc)
    case Or(l, r) => Fits(l, positive, env, doc) && Fits(r, positive, env, doc)
    case Not(x) => Fits(x, !positive, env, doc)
    case Compare(op, l, r) =>
      if !positive && NegateOp(op).Some? then FitsComparison(NegateOp(op).value, l, r, env, doc)
      else FitsComparison(op, l, r, env, doc)
    case Is(x, op) => FitsIs(x, op, env)
    case Between(b, x, f, t) => FitsBetween(b == positive, x, f, t, env)
    case _ => true
  }

  // ----- leaves -----

  lemma {:induction false} ReadField(col: Expr, env: Env, doc: Document)
    requires col.Col? && Represents(doc, env, "", Cols(col))
    ensures NullOf(Get(doc, FieldOf(col))) == env.col(col.qual, col.name)
    ensures IsScalar(env.col(col.qual, col.name))
  {
    assert (col.qual, col.name) in Cols(col);
  }

  lemma {:induction false} ExprLeaf(op: CmpOp, l: Expr, r: Expr, env: Env, doc: Document)
    requires ExprOp(op).Some? && ToAgg(l, "").Success? && ToAgg(r, "").Success?
    requires Plain(l) && Plain(r) && Represents(doc, env, "", Cols(l)) && Represents(doc, env, "", Cols(r))
    requires Safe(l, env, doc, "") && Safe(r, env, doc, "") && Comparison(op, Eval(l, env), Eval(r, env)).Ok?
    requires OperandsFit(op, Eval(l, env), Eval(r, env), Settled(l, doc, "") && Settled(r, doc, ""))
    ensures M.Matches(M.FExpr(ExprOp(op).value, ToAgg(l, "").value, ToAgg(r, "").value), doc)
            <==> IsTrueOf(Comparison(op, Eval(l, env), Eval(r, env)))
  {
    ExprOperand(l, env, doc);
    ExprOperand(r, env, doc);
    ExprMatches(op, ToAgg(l, "").value, ToAgg(r, "").value, doc, Eval(l, env), Eval(r, env), Settled(l, doc, "") && Settled(r, doc, ""));
  }

  lemma {:induction false} ExprMatches(op: CmpOp, l: M.MExpr, r: M.MExpr, doc: Document, a: Outcome, b: Outcome, settled: bool)
    requires ExprOp(op).Some? && Comparison(op, a, b).Ok? && OperandsFit(op, a, b, settled)
    requires NullOfOutcome(M.Eval(l, doc, map[])) == a && NullOfOutcome(M.Eval(r, doc, map[])) == b
    requires settled ==> M.Eval(l, doc, map[]) != Ok(Missing) && M.Eval(r, doc, map[]) != Ok(Missing)
    ensures M.Matches(M.FExpr(ExprOp(op).value, l, r), doc) <==> IsTrueOf(Comparison(op, a, b))
  {
    var p, q := M.Eval(l, doc, map[]), M.Eval(r, doc, map[]);
    MoreFit(op, a, b, settled, p != Ok(Missing) && q != Ok(Missing));
    ExprOpAgrees(op, p, q);
  }

  lemma {:induction false} ExprOperand(e: Expr, env: Env, doc: Document)
    requires ToAgg(e, "").Success? && Plain(e) && Represents(doc, env, "", Cols(e)) && Safe(e, env, doc, "") && Eval(e, env).Ok?
    ensures NullOfOutcome(M.Eval(ToAgg(e, "").value, doc, map[])) == Eval(e, env)
    ensures Settled(e, doc, "") ==> M.Eval(ToAgg(e, "").value, doc, map[]) != Ok(Missing)
  {
    ValueCorrect(e, env, doc, "", map[]);
    SettledOperand(e, doc, "", map[]);
  }

  lemma {:induction false} ExprOpAgrees(op: CmpOp, p: Outcome, q: Outcome)
    requires ExprOp(op).Some? && Comparison(op, NullOfOutcome(p), NullOfOutcome(q)).Ok?
    requires OperandsFit(op, NullOfOutcome(p), NullOfOutcome(q), p != Ok(Missing) && q != Ok(Missing))
    ensures M.Compare(ExprOp(op).value, p, q) == Ok(Bool(true)) <==> IsTrueOf(Comparison(op, NullOfOutcome(p), NullOfOutcome(q)))
  {
  }

  /** A column against a constant, as values. */
  lemma {:induction false} FieldLeaf(op: CmpOp, field: string, v: Value, w: Value, doc: Document)
    requires op.Eq? || op.NullSafeEq? || op.Ne? || op.Lt? || op.Le? || op.Gt? || op.Ge?
    requires v == NullOf(Get(doc, field)) && IsScalar(v) && IsScalar(w)
    requires Comparison(op, Ok(v), Ok(w)).Ok? && (w == Null ==> NullLiteralFits(op, v))
    ensures M.Matches(FieldComparison(op, field, w), doc) <==> IsTrueOf(Comparison(op, Ok(v), Ok(w)))
  {
  }

  lemma {:induction false} ConstantLeaf(op: CmpOp, l: Expr, r: Expr, env: Env, doc: Document)
    requires ExprOp(op).Some? && l.Col? && IsConstant(r) && Plain(r)
    requires Represents(doc, env, "", Cols(l))
    requires Eval(Compare(op, l, r), env).Ok? && (r.NullLit? ==> NullLiteralFits(op, env.col(l.qual, l.name)))
    ensures M.Matches(TranslateComparison(op, l, r).value, doc) <==> IsTrueOf(Eval(Compare(op, l, r), env))
  {
    ReadField(l, env, doc);
    var w := ToBson(StaticValue(r).value);
    assert Eval(r, env) == Ok(w);
    FieldLeaf(op, FieldOf(l), env.col(l.qual, l.name), w, doc);
  }

  lemma {:induction false} StaticTuple(es: Exprs, env: Env)
    requires StaticValues(es).Success? && StaticSafeAll(es) && PlainAll(es) && EvalTuple(es, env).Ok?
    ensures EvalTuple(es, env) == Ok(Arr(ListToBson(StaticValues(es).value)))
    decreases es
  {
    match es
    case ENil =>
    case ECons(h, t) =>
      StaticCorrect(h, env);
      StaticTuple(t, env);
      var vs := StaticValues(es).value;
      assert vs[1..] == StaticValues(t).value;
  }

  lemma {:induction false} ListLeaf(op: CmpOp, l: Expr, r: Expr, env: Env, doc: Document)
    requires (op == In || op == NotIn) && l.Col? && StaticValue(r).Success? && Plain(r)
    requires Represents(doc, env, "", Cols(l))
    requires Eval(Compare(op, l, r), env).Ok? && FitsList(op, l, r, env)
    ensures M.Matches(TranslateComparison(op, l, r).value, doc) <==> IsTrueOf(Eval(Compare(op, l, r), env))
  {
    ReadField(l, env, doc);
    TupleValue(r, env);
    MemberLeaf(op, FieldOf(l), env.col(l.qual, l.name), ToBson(StaticValue(r).value), doc);
  }

  lemma {:induction false} TupleValue(r: Expr, env: Env)
    requires r.Tuple? && StaticSafeAll(r.items) && StaticValue(r).Success? && Plain(r) && Eval(r, env).Ok?
    ensures Eval(r, env) == Ok(ToBson(StaticValue(r).value))
  {
    StaticTuple(r.items, env);
  }

  lemma {:induction false} MemberLeaf(op: CmpOp, field: string, v: Value, list: Value, doc: Document)
    requires (op == In || op == NotIn) && v == NullOf(Get(doc, field)) && IsScalar(v)
    requires Comparison(op, Ok(v), Ok(list)).Ok? && MemberFits(op, v, list.items)
    ensures M.Matches(FieldComparison(op, field, list), doc) <==> IsTrueOf(Comparison(op, Ok(v), Ok(list)))
  {
  }

  lemma {:induction false} PatternLeaf(op: CmpOp, l: Expr, r: Expr, env: Env, doc: Document)
    requires (op == LikeOp || op == NotLike) && l.Col? && PatternOf(r).Success?
    requires Represents(doc, env, "", Cols(l))
    requires Eval(Compare(op, l, r), env).Ok? && FitsList(op, l, r, env)
    ensures M.Matches(TranslateComparison(op, l, r).value, doc) <==> IsTrueOf(Eval(Compare(op, l, r), env))
  {
    ReadField(l, env, doc);
    LikenessLeaf(op, FieldOf(l), env.col(l.qual, l.name), r.lit.s, doc);
  }

  lemma {:induction false} LikenessLeaf(op: CmpOp, field: string, v: Value, p: string, doc: Document)
    requires (op == LikeOp || op == NotLike) && v == NullOf(Get(doc, field))
    requires v.Null? || v.Str?
    requires (op == NotLike ==> v != Null) && (v.Str? ==> '\n' !in v.s)
    ensures M.Matches(M.Field(field, PatternTest(op, p)), doc) <==> IsTrueOf(Comparison(op, Ok(v), Ok(Str(p))))
  {
    if v.Str? {
      Like.LikeAgrees(p, v.s);
    }
  }

  lemma {:induction false} ComparisonLeaf(op: CmpOp, l: Expr, r: Expr, env: Env, doc: Document)
    requires TranslateComparison(op, l, r).Success?
    requires Plain(l) && Plain(r) && Represents(doc, env, "", Cols(l)) && Represents(doc, env, "", Cols(r))
    requires FitsComparison(op, l, r, env, doc)
    ensures M.Matches(TranslateComparison(op, l, r).value, doc) <==> IsTrueOf(Eval(Compare(op, l, r), env))
  {
    if ExprOp(op).Some? {
      if l.Col? && IsConstant(r) {
        ConstantLeaf(op, l, r, env, doc);
      } else {
        ExprLeaf(op, l, r, env, doc);
      }
    } else if op == In || op == NotIn {
      ListLeaf(op, l, r, env, doc);
    } else {
      PatternLeaf(op, l, r, env, doc);
    }
  }

  /** The negated operator is TRUE exactly where the operator is FALSE. */
  lemma {:induction false} NegatedComparison(op: CmpOp, a: Outcome, b: Outcome)
    requires NegateOp(op).Some?
    ensures Comparison(op, a, b).Ok? <==> Comparison(NegateOp(op).value, a, b).Ok?
    ensures Comparison(op, a, b).Ok? ==>
              TruthOutcome(Comparison(op, a, b)).Some?
              && (IsTrueOf(Comparison(NegateOp(op).value, a, b)) <==> IsFalseOf(Comparison(op, a, b)))
  {
    if a.Ok? && b.Ok? && IsScalar(a.v) && IsScalar(b.v) {
      LessTrichotomy(a.v, b.v);
    }
  }

  lemma {:induction false} IsLeaf(x: Expr, op: IsOp, env: Env, doc: Document)
    requires x.Col? && Represents(doc, env, "", Cols(x)) && FitsIs(x, op, env)
    ensures IsTest(op, Eval(x, env)).Ok?
    ensures M.Matches(M.Field(FieldOf(x), IsTestOf(op)), doc) <==> IsTrueOf(IsTest(op, Eval(x, env)))
    ensures IsTrueOf(IsTest(NegateIs(op), Eval(x, env))) <==> IsFalseOf(IsTest(op, Eval(x, env)))
  {
    ReadField(x, env, doc);
  }

  /** As filters, IS TRUE and its kind are right exactly for the same numbers, and for booleans and NULL. */
  lemma {:induction false} TruthFilterExactly(op: IsOp, field: string, v: Value, doc: Document)
    requires op != IsNull && op != IsNotNull && v == NullOf(Get(doc, field)) && TruthOf(v).Some?
    ensures (M.Matches(M.Field(field, IsTestOf(op)), doc) <==> IsTrueOf(IsTest(op, Ok(v)))) <==> TruthTestFits(op, v)
  {
  }

  /** BETWEEN on values: inside, outside, or unknown if a NULL is involved. */
  lemma {:induction false} RangeIs(v: Value, a: Value, b: Value)
    requires IsScalar(v) && IsScalar(a) && IsScalar(b) && Range(true, Ok(v), Ok(a), Ok(b)).Ok?
    ensures var r := Range(true, Ok(v), Ok(a), Ok(b));
            Range(false, Ok(v), Ok(a), Ok(b)) == Ok(OfTruth(Not3(TruthOutcome(r).value)))
            && (IsTrueOf(r) <==> v != Null && a != Null && b != Null && !Less(v, a) && !Less(b, v))
            && (IsFalseOf(r) <==> v != Null && ((a != Null && Less(v, a)) || (b != Null && Less(b, v))))
  {
    LessTrichotomy(v, a);
    LessTrichotomy(v, b);
  }

  lemma {:induction false} RangeTypes(v: Value, a: Value, b: Value)
    requires IsScalar(v) && IsScalar(a) && IsScalar(b) && Range(true, Ok(v), Ok(a), Ok(b)).Ok?
    ensures v != Null && a != Null ==> SameType(v, a)
    ensures v != Null && b != Null ==> SameType(v, b)
  {
  }

  lemma {:induction false} RangeMatches(isBetween: bool, field: string, v: Value, a: Value, b: Value, doc: Document)
    requires v == NullOf(Get(doc, field)) && IsScalar(v) && IsScalar(a) && IsScalar(b)
    requires v != Null && a != Null ==> SameType(v, a)
    requires v != Null && b != Null ==> SameType(v, b)
    requires isBetween ==> !(v == Null && a == Null && b == Null)
    ensures M.Matches(RangeFilter(isBetween, field, a, b), doc)
            <==> v != Null && if isBetween then a != Null && b != Null && !Less(v, a) && !Less(b, v)
                              else (a != Null && Less(v, a)) || (b != Null && Less(b, v))
  {
    LessTrichotomy(v, a);
    LessTrichotomy(v, b);
  }

  /** BETWEEN is right exactly but for NULL between two NULLs, NOT BETWEEN always. */
  lemma {:induction false} RangeExactly(isBetween: bool, field: string, v: Value, a: Value, b: Value, doc: Document)
    requires v == NullOf(Get(doc, field)) && IsScalar(v) && IsScalar(a) && IsScalar(b)
    requires Range(true, Ok(v), Ok(a), Ok(b)).Ok?
    ensures (M.Matches(RangeFilter(isBetween, field, a, b), doc) <==> IsTrueOf(Range(isBetween, Ok(v), Ok(a), Ok(b))))
            <==> !(isBetween && v == Null && a == Null && b == Null)
  {
    RangeIs(v, a, b);
    RangeTypes(v, a, b);
    if !(isBetween && v == Null && a == Null && b == Null) {
      RangeMatches(isBetween, field, v, a, b, doc);
    }
  }

  lemma {:induction false} BetweenLeaf(e: Expr, env: Env, doc: Document)
    requires e.Between? && TranslateWhere(e).Success? && Plain(e)
    requires Represents(doc, env, "", Cols(e)) && FitsBetween(e.isBetween, e.arg, e.from, e.to, env)
    ensures Eval(e, env).Ok?
    ensures M.Matches(TranslateWhere(e).value, doc) <==> IsTrueOf(Eval(e, env))
    ensures IsTrueOf(Eval(e, env)) <==> IsFalseOf(Eval(Between(!e.isBetween, e.arg, e.from, e.to), env))
    ensures TruthOutcome(Eval(Between(!e.isBetween, e.arg, e.from, e.to), env)).Some?
  {
    assert Represents(doc, env, "", Cols(e.arg));
    ReadField(e.arg, env, doc);
    StaticCorrect(e.from, env);
    StaticCorrect(e.to, env);
    var v, a, b := env.col(e.arg.qual, e.arg.name), Eval(e.from, env).v, Eval(e.to, env).v;
    RangeExactly(e.isBetween, FieldOf(e.arg), v, a, b, doc);
    RangeIs(v, a, b);
  }

  // ----- the theorem -----

  /** TranslateWhere passes exactly the TRUE rows. */
  lemma {:induction false} WhereExact(e: Expr, env: Env, doc: Document)
    requires TranslateWhere(e).Success? && Plain(e) && Represents(doc, env, "", Cols(e))
    requires Fits(e, true, env, doc)
    ensures TruthOutcome(Eval(e, env)).Some?
    ensures M.Matches(TranslateWhere(e).value, doc) <==> IsTrueOf(Eval(e, env))
    decreases Size(e), 0
  {
    if e.And? || e.Or? {
      WhereExact(e.l, env, doc);
      WhereExact(e.r, env, doc);
      ConnectiveExact(e, env, doc);
    } else if e.Not? {
      NegateExact(e.arg, env, doc);
    } else {
      LeafExact(e, env, doc);
    }
  }

  lemma {:induction false} ConnectiveExact(e: Expr, env: Env, doc: Document)
    requires (e.And? || e.Or?) && TranslateWhere(e).Success?
    requires TruthOutcome(Eval(e.l, env)).Some? && TruthOutcome(Eval(e.r, env)).Some?
    requires M.Matches(TranslateWhere(e.l).value, doc) <==> IsTrueOf(Eval(e.l, env))
    requires M.Matches(TranslateWhere(e.r).value, doc) <==> IsTrueOf(Eval(e.r, env))
    ensures TruthOutcome(Eval(e, env)).Some?
    ensures M.Matches(TranslateWhere(e).value, doc) <==> IsTrueOf(Eval(e, env))
  {
    var p, q := Eval(e.l, env), Eval(e.r, env);
    assert Eval(e, env) == Connect(e.And?, p, q);
  }

  lemma {:induction false} ConnectiveNegated(e: Expr, env: Env, doc: Document)
    requires (e.And? || e.Or?) && NegateWhere(e).Success?
    requires TruthOutcome(Eval(e.l, env)).Some? && TruthOutcome(Eval(e.r, env)).Some?
    requires M.Matches(NegateWhere(e.l).value, doc) <==> IsFalseOf(Eval(e.l, env))
    requires M.Matches(NegateWhere(e.r).value, doc) <==> IsFalseOf(Eval(e.r, env))
    ensures TruthOutcome(Eval(e, env)).Some?
    ensures M.Matches(NegateWhere(e).value, doc) <==> IsFalseOf(Eval(e, env))
  {
    var p, q := Eval(e.l, env), Eval(e.r, env);
    assert Eval(e, env) == Connect(e.And?, p, q);
  }

  lemma {:induction false} LeafExact(e: Expr, env: Env, doc: Document)
    requires !e.And? && !e.Or? && !e.Not?
    requires TranslateWhere(e).Success? && Plain(e) && Represents(doc, env, "", Cols(e))
    requires Fits(e, true, env, doc)
    ensures TruthOutcome(Eval(e, env)).Some?
    ensures M.Matches(TranslateWhere(e).value, doc) <==> IsTrueOf(Eval(e, env))
  {
    match e
    case Compare(_, _, _) => ComparisonExact(e, env, doc);
    case Is(_, _) => IsExact(e, env, doc);
    case Between(_, _, _, _) => BetweenLeaf(e, env, doc);
  }

  lemma {:induction false} IsExact(e: Expr, env: Env, doc: Document)
    requires e.Is? && TranslateWhere(e).Success? && Represents(doc, env, "", Cols(e)) && Fits(e, true, env, doc)
    ensures TruthOutcome(Eval(e, env)).Some?
    ensures M.Matches(TranslateWhere(e).value, doc) <==> IsTrueOf(Eval(e, env))
  {
    IsLeaf(e.arg, e.iop, env, doc);
  }

  lemma {:induction false} ComparisonExact(e: Expr, env: Env, doc: Document)
    requires e.Compare? && TranslateWhere(e).Success? && Plain(e) && Represents(doc, env, "", Cols(e))
    requires Fits(e, true, env, doc)
    ensures TruthOutcome(Eval(e, env)).Some?
    ensures M.Matches(TranslateWhere(e).value, doc) <==> IsTrueOf(Eval(e, env))
  {
    ComparisonLeaf(e.cop, e.l, e.r, env, doc);
    ComparisonTruth(e.cop, Eval(e.l, env), Eval(e.r, env));
  }

  lemma {:induction false} LeafNegated(e: Expr, env: Env, doc: Document)
    requires !e.And? && !e.Or? && !e.Not?
    requires NegateWhere(e).Success? && Plain(e) && Represents(doc, env, "", Cols(e))
    requires Fits(e, false, env, doc)
    ensures TruthOutcome(Eval(e, env)).Some?
    ensures M.Matches(NegateWhere(e).value, doc) <==> IsFalseOf(Eval(e, env))
  {
    match e
    case Compare(_, _, _) => ComparisonNegated(e, env, doc);
    case Is(_, _) => IsNegated(e, env, doc);
    case Between(_, _, _, _) => BetweenNegated(e, env, doc);
  }

  lemma {:induction false} IsNegated(e: Expr, env: Env, doc: Document)
    requires e.Is? && NegateWhere(e).Success? && Represents(doc, env, "", Cols(e)) && Fits(e, false, env, doc)
    ensures TruthOutcome(Eval(e, env)).Some?
    ensures M.Matches(NegateWhere(e).value, doc) <==> IsFalseOf(Eval(e, env))
  {
    IsLeaf(e.arg, e.iop, env, doc);
    IsLeaf(e.arg, NegateIs(e.iop), env, doc);
  }

  lemma {:induction false} BetweenNegated(e: Expr, env: Env, doc: Document)
    requires e.Between? && NegateWhere(e).Success? && Plain(e) && Represents(doc, env, "", Cols(e)) && Fits(e, false, env, doc)
    ensures TruthOutcome(Eval(e, env)).Some?
    ensures M.Matches(NegateWhere(e).value, doc) <==> IsFalseOf(Eval(e, env))
  {
    BetweenLeaf(Between(!e.isBetween, e.arg, e.from, e.to), env, doc);
  }

  lemma {:induction false} ComparisonNegated(e: Expr, env: Env, doc: Document)
    requires e.Compare? && NegateWhere(e).Success? && Plain(e) && Represents(doc, env, "", Cols(e))
    requires Fits(e, false, env, doc)
    ensures TruthOutcome(Eval(e, env)).Some?
    ensures M.Matches(NegateWhere(e).value, doc) <==> IsFalseOf(Eval(e, env))
  {
    var a, b := Eval(e.l, env), Eval(e.r, env);
    if NegateOp(e.cop).Some? {
      ComparisonLeaf(NegateOp(e.cop).value, e.l, e.r, env, doc);
      NegatedComparison(e.cop, a, b);
    } else {
      ComparisonLeaf(e.cop, e.l, e.r, env, doc);
      ComparisonTruth(e.cop, a, b);
    }
  }

  lemma {:induction false} ComparisonTruth(op: CmpOp, a: Outcome, b: Outcome)
    requires Comparison(op, a, b).Ok?
    ensures TruthOutcome(Comparison(op, a, b)).Some?
  {
  }

  /** NegateWhere passes exactly the FALSE rows; so UNKNOWN rows pass neither. */
  lemma {:induction false} NegateExact(e: Expr, env: Env, doc: Document)
    requires NegateWhere(e).Success? && Plain(e) && Represents(doc, env, "", Cols(e))
    requires Fits(e, false, env, doc)
    ensures TruthOutcome(Eval(e, env)).Some?
    ensures M.Matches(NegateWhere(e).value, doc) <==> IsFalseOf(Eval(e, env))
    decreases Size(e), 1
  {
    if e.And? || e.Or? {
      NegateExact(e.l, env, doc);
      NegateExact(e.r, env, doc);
      ConnectiveNegated(e, env, doc);
    } else if e.Not? {
      WhereExact(e.arg, env, doc);
    } else {
      LeafNegated(e, env, doc);
    }
  }

  // ----- where the code leaves SQL, exactly -----

  /** Membership filters are right exactly then; with a NULL listed, NOT IN only for values in the list. */
  lemma {:induction false} MemberExactly(op: CmpOp, field: string, v: Value, list: seq<Value>, doc: Document)
    requires (op == In || op == NotIn) && v == NullOf(Get(doc, field)) && IsScalar(v) && Member(v, Arr(list)).Some?
    ensures (M.Matches(FieldComparison(op, field, Arr(list)), doc) <==> IsTrueOf(Comparison(op, Ok(v), Ok(Arr(list)))))
            <==> MemberFits(op, v, list)
  {
  }

  /** NOT LIKE is right exactly for columns that are not NULL, if the subject is newline-free. */
  lemma {:induction false} NotLikeExactlyOnValues(field: string, v: Value, p: string, doc: Document)
    requires v == NullOf(Get(doc, field)) && (v.Null? || (v.Str? && '\n' !in v.s))
    ensures (M.Matches(M.Field(field, M.TNotRegex(Like.RegexFor(p), true)), doc)
             <==> IsTrueOf(Comparison(NotLike, Ok(v), Ok(Str(p)))))
            <==> v != Null
  {
    if v.Str? {
      Like.LikeAgrees(p, v.s);
    }
  }

  /** A pattern's test on a server whose regular expressions match so. */
  predicate TestedBy(matches: (string, bool, string) -> bool, t: M.FieldTest, v: Value)
    requires t.TRegex? || t.TNotRegex?
  {
    t.TRegex? <==> v.Str? && matches(t.regex, t.insensitive, v.s)
  }

  /** REGEXP on a column that is NULL or a string, for any matching of SQL's own. */
  function Regexps(sql: (string, string) -> bool, negated: bool, v: Value, p: string): Truth
    requires v.Null? || v.Str?
  {
    if v.Null? then U else if sql(p, v.s) == negated then F else T
  }

  /** Whatever the regular expressions: REGEXP is right exactly where server and SQL match alike, letter case kept;
      NOT REGEXP exactly there except on NULL, which it passes. */
  lemma {:induction false} RegexpExactly(matches: (string, bool, string) -> bool, sql: (string, string) -> bool, qual: string, name: string,
                                         negated: bool, p: string, v: Value)
    requires v.Null? || v.Str?
    ensures var f := TranslateWhere(Compare(if negated then NotRegexp else Regexp, Col(qual, name), Lit(StrVal(p))));
            f.Success? && f.value.Field? && f.value.path == PathOf(qual, name, "") && (f.value.test.TRegex? || f.value.test.TNotRegex?)
            && ((TestedBy(matches, f.value.test, v) <==> Regexps(sql, negated, v, p) == T)
                <==> if v.Null? then !negated else matches(p, false, v.s) == sql(p, v.s))
  {
  }

  /** On the regular expressions modelled, such a test is the filter's. */
  lemma {:induction false} TestIsFilter(field: string, t: M.FieldTest, doc: Document)
    requires t.TRegex? || t.TNotRegex?
    ensures M.Matches(M.Field(field, t), doc) <==> TestedBy((r, i, s) => Like.RegexMatch(r, i, s), t, NullOf(Get(doc, field)))
  {
  }

  /** Against a NULL literal, `=`, `<=`, `>=` are wrong for NULL columns, `!=` for the others. */
  lemma {:induction false} NullLiteralExactly(op: CmpOp, field: string, v: Value, doc: Document)
    requires ExprOp(op).Some? && v == NullOf(Get(doc, field)) && IsScalar(v)
    ensures (M.Matches(FieldComparison(op, field, Null), doc) <==> IsTrueOf(Comparison(op, Ok(v), Ok(Null))))
            <==> NullLiteralFits(op, v)
  {
    LessTrichotomy(v, v);
  }

  /** In $expr an absent field sorts below NULL, and NULL below every value: which operands go right, by operator. */
  lemma {:induction false} ExprNullExactly(op: CmpOp, p: Value, q: Value)
    requires ExprOp(op).Some? && IsScalar(NullOf(p)) && IsScalar(NullOf(q)) && Comparison(op, Ok(NullOf(p)), Ok(NullOf(q))).Ok?
    ensures (M.Compare(ExprOp(op).value, Ok(p), Ok(q)) == Ok(Bool(true)) <==> IsTrueOf(Comparison(op, Ok(NullOf(p)), Ok(NullOf(q)))))
            <==> (match op
                  case Eq => !(p == q && NullOf(p) == Null)
                  case NullSafeEq => !(p != q && NullOf(p) == Null == NullOf(q))
                  case Ne => p == q || (NullOf(p) != Null && NullOf(q) != Null)
                  case Lt => !(NullOf(p) == Null && Rank(p) < Rank(q))
                  case Le => !(NullOf(p) == Null && Rank(p) <= Rank(q))
                  case Gt => !(NullOf(q) == Null && Rank(q) < Rank(p))
                  case _ => !(NullOf(q) == Null && Rank(q) <= Rank(p)))
  {
  }

  // ----- the main table's qualifier -----

  ghost predicate MainIsRoot(env: Env, main: string) {
    forall n :: env.col(main, n) == env.col("", n)
  }

  /** Dropping the main table's qualifier changes no value. */
  lemma {:induction false} UnqualifyEval(e: Expr, env: Env, main: string)
    requires MainIsRoot(env, main)
    ensures Eval(Unqualify(e, main), env) == Eval(e, env)
    decreases e, 1
  {
    match e
    case Col(q, n) =>
    case Lit(_) =>
    case BoolLit(_) =>
    case NullLit =>
    case Tuple(es) => UnqualifyEvalAll(es, env, main);
    case Unary(op, x) => UnqualifyEval(x, env, main);
    case Binary(op, l, r) => UnqualifyEval(l, env, main); UnqualifyEval(r, env, main);
    case Compare(op, l, r) => UnqualifyEval(l, env, main); UnqualifyEval(r, env, main);
    case And(l, r) => UnqualifyEval(l, env, main); UnqualifyEval(r, env, main);
    case Or(l, r) => UnqualifyEval(l, env, main); UnqualifyEval(r, env, main);
    case Not(x) => UnqualifyEval(x, env, main);
    case Is(x, op) => UnqualifyEval(x, env, main);
    case Between(b, x, f, t) =>
      UnqualifyEval(x, env, main);
      UnqualifyEval(f, env, main);
      UnqualifyEval(t, env, main);
    case Case(b, ws) => UnqualifyEvalCase(b, ws, env, main);
    case Func(f, es) => UnqualifyEvalCall(f, es, env, main);
    case Agg(_) =>
  }

  lemma {:induction false} UnqualifyEvalCase(b: Option<Expr>, ws: Whens, env: Env, main: string)
    requires MainIsRoot(env, main)
    ensures Eval(Unqualify(Case(b, ws), main), env) == Eval(Case(b, ws), env)
    decreases Case(b, ws), 0
  {
    if b.Some? {
      UnqualifyEval(b.value, env, main);
      UnqualifyEvalWhens(Eval(b.value, env), ws, env, main);
    } else {
      UnqualifyEvalWhens(Err, ws, env, main);
    }
  }

  lemma {:induction false} UnqualifyEvalAll(es: Exprs, env: Env, main: string)
    requires MainIsRoot(env, main)
    ensures EvalTuple(UnqualifyAll(es, main), env) == EvalTuple(es, env)
    ensures FirstNonNull(UnqualifyAll(es, main), env) == FirstNonNull(es, env)
    decreases es, 0
  {
    if es.ECons? {
      UnqualifyEval(es.head, env, main);
      UnqualifyEvalAll(es.tail, env, main);
    }
  }

  lemma {:induction false} UnqualifyEvalCall(f: FuncName, es: Exprs, env: Env, main: string)
    requires MainIsRoot(env, main)
    ensures Call(f, UnqualifyAll(es, main), env) == Call(f, es, env)
    decreases es, 1
  {
    UnqualifyEvalAll(es, env, main);
    if es.ECons? {
      UnqualifyEval(es.head, env, main);
      var t := es.tail;
      var u := UnqualifyAll(t, main);
      if t.ECons? {
        UnqualifyEval(t.head, env, main);
        assert u == ECons(Unqualify(t.head, main), UnqualifyAll(t.tail, main));
        if t.tail.ECons? {
          UnqualifyEval(t.tail.head, env, main);
          assert u.tail == ECons(Unqualify(t.tail.head, main), UnqualifyAll(t.tail.tail, main));
        }
      }
    }
  }

  lemma {:induction false} UnqualifyEvalWhens(base: Outcome, ws: Whens, env: Env, main: string)
    requires MainIsRoot(env, main)
    ensures SimpleCase(base, UnqualifyWhens(ws, main), env) == SimpleCase(base, ws, env)
    ensures SearchedCase(UnqualifyWhens(ws, main), env) == SearchedCase(ws, env)
    decreases ws
  {
    match ws
    case NoElse =>
    case Else(x) => UnqualifyEval(x, env, main);
    case When(c, v, rest) =>
      UnqualifyEval(c, env, main);
      UnqualifyEval(v, env, main);
      UnqualifyEvalWhens(base, rest, env, main);
  }

  /** The columns left are those of `cols`, the main table's without its qualifier. */
  predicate Unqualified(left: set<(string, string)>, cols: set<(string, string)>, main: string) {
    forall c :: c in left ==> c.0 != main && (c in cols || (c.0 == "" && (main, c.1) in cols))
  }

  lemma {:induction false} UnqualifyCols(e: Expr, main: string)
    requires main != ""
    ensures Unqualified(Cols(Unqualify(e, main)), Cols(e), main)
  {
    match e
    case Col(q, n) =>
    case Lit(_) =>
    case BoolLit(_) =>
    case NullLit =>
    case Tuple(es) => UnqualifyColsOf(es, main);
    case Unary(_, x) => UnqualifyCols(x, main);
    case Binary(_, l, r) => UnqualifyCols(l, main); UnqualifyCols(r, main);
    case Compare(_, l, r) => UnqualifyCols(l, main); UnqualifyCols(r, main);
    case And(l, r) => UnqualifyCols(l, main); UnqualifyCols(r, main);
    case Or(l, r) => UnqualifyCols(l, main); UnqualifyCols(r, main);
    case Not(x) => UnqualifyCols(x, main);
    case Is(x, _) => UnqualifyCols(x, main);
    case Between(_, x, f, t) =>
      UnqualifyCols(x, main);
      UnqualifyCols(f, main);
      UnqualifyCols(t, main);
    case Case(b, ws) =>
      if b.Some? { UnqualifyCols(b.value, main); }
      UnqualifyWhenCols(ws, main);
    case Func(_, es) => UnqualifyColsOf(es, main);
    case Agg(_) =>
  }

  lemma {:induction false} UnqualifyColsOf(es: Exprs, main: string)
    requires main != ""
    ensures Unqualified(ColsOf(UnqualifyAll(es, main)), ColsOf(es), main)
  {
    if es.ECons? {
      UnqualifyCols(es.head, main);
      UnqualifyColsOf(es.tail, main);
    }
  }

  lemma {:induction false} UnqualifyWhenCols(ws: Whens, main: string)
    requires main != ""
    ensures Unqualified(WhenCols(UnqualifyWhens(ws, main)), WhenCols(ws), main)
  {
    match ws
    case NoElse =>
    case Else(x) => UnqualifyCols(x, main);
    case When(c, v, rest) =>
      UnqualifyCols(c, main);
      UnqualifyCols(v, main);
      UnqualifyWhenCols(rest, main);
  }
}
