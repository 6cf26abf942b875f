/** $lookup and $unwind compute SQL's joins. */
module JoinTheorem {
  import opened Wrappers
  import opened Bson
  import opened Sql
  import opened Compiler
  import opened ValueTheorem
  import opened Source
  import M = Mongo
  import Seqs

  // ----- SQL's joined table (ISO/IEC 9075:1992, 7.5) -----

  /** A joined row: for each alias its record, or None where an outer join found none. */
  type Row = map<string, Option<Document>>

  function ColumnOf(row: Row, alias: string, name: string): Value {
    if alias in row && row[alias].Some? && name in row[alias].value then NullOf(row[alias].value[name]) else Null
  }

  /** Unqualified names are the main table's. */
  function EnvOf(row: Row, main: string): Env {
    Env((q: string, n: string) => ColumnOf(row, if q == "" then main else q, n), (a: AggSpec) => Null)
  }

  predicate OnHolds(on: Expr, row: Row, main: string) {
    TruthOutcome(Eval(on, EnvOf(row, main))) == Some(T)
  }

  function AliasOf(t: TableExpr): string
    requires t.Table?
  {
    if t.as_.Some? then t.as_.value else t.collection
  }

  function With(row: Row, alias: string): Document -> Row {
    (d: Document) => row[alias := Some(d)]
  }

  function Joins(on: Expr, row: Row, alias: string, main: string): Document -> bool {
    (d: Document) => OnHolds(on, row[alias := Some(d)], main)
  }

  /** The joined rows of one row, given the records found; an outer join keeps an unmatched row. */
  function RowsFor(row: Row, alias: string, outer: bool, found: seq<Document>): seq<Row> {
    if found == [] then (if outer then [row[alias := None]] else [])
    else Seqs.Map(With(row, alias), found)
  }

  function JoinRow(on: Expr, alias: string, coll: seq<Document>, outer: bool, main: string): Row -> seq<Row> {
    (row: Row) => RowsFor(row, alias, outer, Seqs.Filter(Joins(on, row, alias, main), coll))
  }

  function MainAlias(t: TableExpr): string
    decreases t
  {
    match t
    case Table(_, _) => AliasOf(t)
    case Derived => ""
    case Join(kind, l, r, _) => if kind == RightJoin then MainAlias(r) else MainAlias(l)
  }

  /** The rows of a FROM clause; a RIGHT JOIN keeps the rows of its right table. */
  function SqlFrom(t: TableExpr, db: M.Database): seq<Row>
    decreases t
  {
    match t
    case Table(c, _) => Seqs.Map(With(map[], AliasOf(t)), M.Collection(db, c))
    case Derived => []
    case Join(kind, l, r, on) =>
      if on.None? || (kind == RightJoin && !l.Table?) || (kind != RightJoin && !r.Table?) then []
      else if kind == RightJoin then
        Seqs.FlatMap(JoinRow(on.value, AliasOf(l), M.Collection(db, l.collection), true, MainAlias(t)), SqlFrom(r, db))
      else
        Seqs.FlatMap(JoinRow(on.value, AliasOf(r), M.Collection(db, r.collection), kind == LeftJoin, MainAlias(t)),
                     SqlFrom(l, db))
  }

  // ----- how a joined row looks as a document -----

  /** The main record, with each joined record nested under its alias. */
  function DocOf(row: Row, main: string): Document {
    (if main in row && row[main].Some? then row[main].value else map[])
    + map a | a in row && a != main && row[a].Some? :: NestedIn(row, main, a)
  }

  function NestedIn(row: Row, main: string, alias: string): Value {
    if alias in row && alias != main && row[alias].Some? then Doc(row[alias].value) else Missing
  }

  function AsJoined(main: string): Row -> Document {
    (row: Row) => DocOf(row, main)
  }

  /** The main record is there and its columns are not named like a joined table. */
  predicate WellFormed(row: Row, main: string) {
    main in row && row[main].Some?
    && forall a :: a in row && a != main ==> a !in row[main].value
  }

  /** A column that a path reads from the document just as SQL reads it from the row. */
  predicate Readable(row: Row, main: string, q: string, n: string) {
    GoodName(n)
    && (if q == "" || q == main then n in row ==> n == main else GoodName(q) && q in row)
    && IsScalar(EnvOf(row, main).col(q, n))
  }

  lemma {:induction false} DocReads(row: Row, main: string, q: string, n: string)
    requires WellFormed(row, main) && GoodName(main) && Readable(row, main, q, n)
    ensures ColumnAgrees(DocOf(row, main), EnvOf(row, main), main, (q, n))
  {
    var d := DocOf(row, main);
    if q == "" || q == main {
      GetName(d, n);
    } else {
      GetQualified(d, q, n);
    }
  }

  // ----- one row -----

  lemma {:induction false} NestRecord(row: Row, main: string, alias: string, r: Document)
    requires WellFormed(row, main) && alias != main
    ensures DocOf(row[alias := Some(r)], main) == DocOf(row, main)[alias := Doc(r)]
  {
  }

  lemma {:induction false} NestNone(row: Row, main: string, alias: string)
    requires WellFormed(row, main) && alias !in row && alias !in row[main].value
    ensures DocOf(row[alias := None], main) == DocOf(row, main)
    ensures alias !in DocOf(row, main)
  {
  }

  function Nest(d: Document, alias: string): Document -> Document {
    (r: Document) => d[alias := Doc(r)]
  }

  lemma {:induction false} UnwindArray(d: Document, alias: string, found: seq<Document>)
    ensures Seqs.Map(M.Setter(d[alias := Arr(M.AsDocs(found))], alias), M.AsDocs(found))
            == Seqs.Map(Nest(d, alias), found)
  {
    var d' := d[alias := Arr(M.AsDocs(found))];
    forall r | r in found
      ensures Nest(d, alias)(r) == M.Setter(d', alias)(M.AsDoc()(r))
    {
      assert d'[alias := Doc(r)] == d[alias := Doc(r)];
    }
    Seqs.MapMap(M.Setter(d', alias), M.AsDoc(), Nest(d, alias), found);
  }

  lemma {:induction false} NestFound(row: Row, main: string, alias: string, found: seq<Document>)
    requires WellFormed(row, main) && alias != main
    ensures Seqs.Map(AsJoined(main), Seqs.Map(With(row, alias), found))
            == Seqs.Map(Nest(DocOf(row, main), alias), found)
  {
    forall r | r in found
      ensures Nest(DocOf(row, main), alias)(r) == AsJoined(main)(With(row, alias)(r))
    {
      NestRecord(row, main, alias, r);
    }
    Seqs.MapMap(AsJoined(main), With(row, alias), Nest(DocOf(row, main), alias), found);
  }

  /** Unwinding the array of the records found gives the joined rows, as documents. */
  lemma {:induction false} UnwindFound(row: Row, main: string, alias: string, outer: bool, found: seq<Document>)
    requires WellFormed(row, main) && alias !in row && alias !in row[main].value
    ensures M.UnwindDoc(alias, outer, DocOf(row, main)[alias := Arr(M.AsDocs(found))])
            == Seqs.Map(AsJoined(main), RowsFor(row, alias, outer, found))
  {
    var d := DocOf(row, main);
    if found == [] {
      NestNone(row, main, alias);
      assert d[alias := Arr([])] - {alias} == d;
    } else {
      UnwindArray(d, alias, found);
      NestFound(row, main, alias, found);
    }
  }

  // ----- equi-joins -----

  predicate EquiPair(x: Value, y: Value) {
    IsScalar(x) && IsScalar(y) && !(x == Null && y == Null)
  }

  /** An unqualified column is the main table's. */
  predicate Orients(on: Expr, main: string, alias: string) {
    on.Compare? && on.cop == Eq && on.l.Col? && on.r.Col?
    && ((on.l.qual in {"", main} && on.r.qual == alias) || (on.l.qual == alias && on.r.qual in {"", main}))
  }

  /** `on` equates a column of the main table with one of the joined table, never both NULL. */
  predicate EquiFits(on: Expr, alias: string, coll: seq<Document>, row: Row, main: string) {
    Orients(on, main, alias)
    && var f := JoinFields(on, main, alias).value;
       GoodName(f.1.name) && Readable(row, main, main, f.0.name)
       && forall d :: d in coll ==> EquiPair(ColumnOf(row, main, f.0.name), NullOf(Get(d, f.1.name)))
  }

  /** For one pair of keys, $lookup agrees with SQL just when they are not both NULL. */
  lemma {:induction false} EquiPairExactly(x: Value, y: Value)
    requires IsScalar(x) && IsScalar(y)
    ensures ((y == x) <==> TruthOutcome(Comparison(Eq, Ok(x), Ok(y))) == Some(T)) <==> EquiPair(x, y)
  {
  }

  lemma {:induction false} EquiPairHolds(on: Expr, row: Row, alias: string, d: Document, main: string)
    requires main in row && alias != main && alias != "" && main != "" && Orients(on, main, alias)
    requires GoodName(JoinFields(on, main, alias).value.1.name)
    ensures var f := JoinFields(on, main, alias).value;
            var x, y := ColumnOf(row, main, f.0.name), NullOf(Get(d, f.1.name));
            OnHolds(on, row[alias := Some(d)], main)
            == (TruthOutcome(if on.r.qual == alias then Comparison(Eq, Ok(x), Ok(y)) else Comparison(Eq, Ok(y), Ok(x))) == Some(T))
  {
    var f := JoinFields(on, main, alias).value;
    GetName(d, f.1.name);
    var row' := row[alias := Some(d)];
    assert ColumnOf(row', main, f.0.name) == ColumnOf(row, main, f.0.name);
    assert ColumnOf(row', alias, f.1.name) == NullOf(Get(d, f.1.name));
    assert Eval(on, EnvOf(row', main)) == Comparison(Eq, Eval(on.l, EnvOf(row', main)), Eval(on.r, EnvOf(row', main)));
  }

  lemma {:induction false} EquiKeeps(on: Expr, alias: string, coll: seq<Document>, row: Row, main: string)
    requires GoodName(main) && alias != main && alias != "" && WellFormed(row, main)
    requires EquiFits(on, alias, coll, row, main)
    ensures var f := JoinFields(on, main, alias).value;
            Seqs.Filter(M.Equals(f.1.name, NullOf(Get(DocOf(row, main), f.0.name))), coll)
            == Seqs.Filter(Joins(on, row, alias, main), coll)
  {
    var f := JoinFields(on, main, alias).value;
    DocReads(row, main, main, f.0.name);
    var x := ColumnOf(row, main, f.0.name);
    forall d | d in coll
      ensures M.Equals(f.1.name, x)(d) == Joins(on, row, alias, main)(d)
    {
      EquiPairHolds(on, row, alias, d, main);
      GetName(d, f.1.name);
      var y := NullOf(Get(d, f.1.name));
      EquiPairExactly(x, y);
      EquiPairExactly(y, x);
    }
    Seqs.FilterCong(M.Equals(f.1.name, x), Joins(on, row, alias, main), coll);
  }

  lemma {:induction false} OtherAliasHolds(b: string, x: string, c: string, y: string, row: Row, d: Document, main: string)
    requires b != c && b != "" && c != "" && DotFree(y)
    ensures OnHolds(Compare(Eq, Col(b, x), Col(c, y)), row[c := Some(d)], main)
            == (TruthOutcome(Comparison(Eq, Ok(ColumnOf(row, b, x)), Ok(NullOf(Get(d, y))))) == Some(T))
  {
    GetName(d, y);
    var env := EnvOf(row[c := Some(d)], main);
    assert env.col(b, x) == ColumnOf(row, b, x) && env.col(c, y) == NullOf(Get(d, y));
    assert Eval(Col(b, x), env) == Ok(env.col(b, x)) && Eval(Col(c, y), env) == Ok(env.col(c, y));
  }

  lemma {:induction false} OneDiffers(p: Document -> bool, q: Document -> bool, d: Document)
    requires p(d) != q(d)
    ensures Seqs.Filter(p, [d]) != Seqs.Filter(q, [d])
  {
    assert d in [d];
    assert p(d) <==> d in Seqs.Filter(p, [d]);
    assert q(d) <==> d in Seqs.Filter(q, [d]);
  }

  // ----- ON between two joined tables -----

  /** A $lookup on this field of the row and that field of the joined table finds what ON joins, whatever the collection. */
  ghost predicate AlwaysFinds(local: string, foreign: string, on: Expr, alias: string, row: Row, main: string) {
    forall coll :: Seqs.Filter(M.Equals(foreign, NullOf(Get(DocOf(row, main), local))), coll)
                   == Seqs.Filter(Joins(on, row, alias, main), coll)
  }

  lemma {:induction false} OneMisses(local: string, foreign: string, on: Expr, alias: string, row: Row, main: string, d: Document)
    requires M.Equals(foreign, NullOf(Get(DocOf(row, main), local)))(d) != Joins(on, row, alias, main)(d)
    ensures !AlwaysFinds(local, foreign, on, alias, row, main)
  {
    OneDiffers(M.Equals(foreign, NullOf(Get(DocOf(row, main), local))), Joins(on, row, alias, main), d);
  }

  lemma {:induction false} AllFound(local: string, foreign: string, on: Expr, alias: string, row: Row, main: string)
    requires forall d: Document :: M.Equals(foreign, NullOf(Get(DocOf(row, main), local)))(d) == Joins(on, row, alias, main)(d)
    ensures AlwaysFinds(local, foreign, on, alias, row, main)
  {
    forall coll
      ensures Seqs.Filter(M.Equals(foreign, NullOf(Get(DocOf(row, main), local))), coll)
              == Seqs.Filter(Joins(on, row, alias, main), coll)
    {
      Seqs.FilterCong(M.Equals(foreign, NullOf(Get(DocOf(row, main), local))), Joins(on, row, alias, main), coll);
    }
  }

  /** The main table's field of that name holds the other table's value, which is not NULL. */
  predicate SameAsMain(row: Row, main: string, b: string, x: string) {
    ColumnOf(row, b, x) == NullOf(Get(DocOf(row, main), x)) && ColumnOf(row, b, x) != Null
  }

  /** ON b.x = c.y, with b joined before c, reads field x of the main table: right exactly if that is b's value there. */
  lemma {:induction false} OtherAliasExactly(b: string, x: string, c: SourceRef, y: string, outer: bool, row: Row, main: string)
    requires b != main && b != c.alias && b != "" && c.alias != "" && GoodName(y) && IsScalar(ColumnOf(row, b, x))
    ensures var on, j := Compare(Eq, Col(b, x), Col(c.alias, y)), EquiJoin(c, FieldRef(b, x), FieldRef(c.alias, y), outer);
            PlanJoin(Some(on), main, c, outer) == Success(j)
            && LookupStage(j, main) == Success(M.Lookup(c.collection, x, y, c.alias))
            && (AlwaysFinds(x, y, on, c.alias, row, main) <==> SameAsMain(row, main, b, x))
  {
    var on, w := Compare(Eq, Col(b, x), Col(c.alias, y)), NullOf(Get(DocOf(row, main), x));
    if SameAsMain(row, main, b, x) {
      forall d: Document
        ensures M.Equals(y, w)(d) == Joins(on, row, c.alias, main)(d)
      {
        OtherAliasHolds(b, x, c.alias, y, row, d, main);
      }
      AllFound(x, y, on, c.alias, row, main);
    } else {
      var d: Document := map[y := w];
      GetName(d, y);
      OtherAliasHolds(b, x, c.alias, y, row, d, main);
      OneMisses(x, y, on, c.alias, row, main, d);
    }
  }

  lemma {:induction false} MirroredHolds(b: string, x: string, c: string, y: string, row: Row, d: Document, main: string)
    requires b != c && b != "" && c != "" && DotFree(y)
    ensures OnHolds(Compare(Eq, Col(c, y), Col(b, x)), row[c := Some(d)], main)
            == (TruthOutcome(Comparison(Eq, Ok(NullOf(Get(d, y))), Ok(ColumnOf(row, b, x)))) == Some(T))
  {
    GetName(d, y);
    var env := EnvOf(row[c := Some(d)], main);
    assert env.col(b, x) == ColumnOf(row, b, x) && env.col(c, y) == NullOf(Get(d, y));
    assert Eval(Col(b, x), env) == Ok(env.col(b, x)) && Eval(Col(c, y), env) == Ok(env.col(c, y));
  }

  /** ON c.y = b.x reads field y of the main table and field x of c: right exactly if the names are one and it is b's value. */
  lemma {:induction false} MirroredExactly(b: string, x: string, c: SourceRef, y: string, outer: bool, row: Row, main: string)
    requires b != main && c.alias != main && b != c.alias && b != "" && c.alias != ""
    requires GoodName(x) && GoodName(y) && IsScalar(ColumnOf(row, b, x))
    ensures var on, j := Compare(Eq, Col(c.alias, y), Col(b, x)), EquiJoin(c, FieldRef(c.alias, y), FieldRef(b, x), outer);
            PlanJoin(Some(on), main, c, outer) == Success(j)
            && LookupStage(j, main) == Success(M.Lookup(c.collection, y, x, c.alias))
            && (AlwaysFinds(y, x, on, c.alias, row, main) <==> x == y && SameAsMain(row, main, b, x))
  {
    var on, w := Compare(Eq, Col(c.alias, y), Col(b, x)), NullOf(Get(DocOf(row, main), y));
    if x == y && SameAsMain(row, main, b, x) {
      forall d: Document
        ensures M.Equals(x, w)(d) == Joins(on, row, c.alias, main)(d)
      {
        MirroredHolds(b, x, c.alias, y, row, d, main);
      }
      AllFound(y, x, on, c.alias, row, main);
    } else {
      var d: Document := map[x := w];
      GetName(d, x);
      GetName(d, y);
      MirroredHolds(b, x, c.alias, y, row, d, main);
      OneMisses(y, x, on, c.alias, row, main, d);
    }
  }

  // ----- other joins: variables for the left row -----

  /** Left columns of one name come from one table, since they share a variable. */
  predicate LeftConsistent(cols: set<(string, string)>, main: string, alias: string) {
    forall b, c :: b in cols && c in cols && b.0 != alias && c.0 != alias && b.1 == c.1 ==>
                     PathOf(b.0, b.1, main) == PathOf(c.0, c.1, main)
  }

  lemma {:induction false} LeftVarInjective(m: string, n: string)
    requires LeftVar(m) == LeftVar(n)
    ensures m == n
  {
    assert LeftVar(m)[5..] == m && LeftVar(n)[5..] == n;
  }

  /** Every variable the condition uses is bound, to the column it stands for. */
  lemma {:induction false} VariablesBound(e: Expr, cols: set<(string, string)>, main: string, alias: string)
    requires JoinOn(e, alias).Success? && Cols(e) <= cols && LeftConsistent(cols, main, alias)
    ensures forall c :: c in Cols(e) && c.0 != alias ==>
                          LeftVar(c.1) in CollectLeft(e, main, alias)
    ensures forall c :: c in cols && c.0 != alias && LeftVar(c.1) in CollectLeft(e, main, alias) ==>
                          CollectLeft(e, main, alias)[LeftVar(c.1)] == Ref(PathOf(c.0, c.1, main))
    decreases e
  {
    if e.Col? {
      forall c | c in cols && c.0 != alias && LeftVar(c.1) in CollectLeft(e, main, alias)
        ensures CollectLeft(e, main, alias)[LeftVar(c.1)] == Ref(PathOf(c.0, c.1, main))
      {
        LeftVarInjective(c.1, e.name);
        assert (e.qual, e.name) in cols;
      }
    } else if e.Compare? || e.And? || e.Or? || e.Binary? {
      VariablesBound(e.l, cols, main, alias);
      VariablesBound(e.r, cols, main, alias);
    }
  }

  predicate PairColumn(c: (string, string), env: Env, d: Document, vars: map<string, Value>, alias: string) {
    IsScalar(env.col(c.0, c.1))
    && if c.0 == alias then NullOf(Get(d, c.1)) == env.col(c.0, c.1)
       else LeftVar(c.1) in vars && NullOf(vars[LeftVar(c.1)]) == env.col(c.0, c.1)
  }

  lemma {:induction false} ColumnOn(q: string, n: string, env: Env, d: Document, vars: map<string, Value>, alias: string)
    requires GoodName(n) && PairColumn((q, n), env, d, vars, alias)
    ensures NullOfOutcome(M.Eval(JoinOn(Col(q, n), alias).value, d, vars)) == Ok(env.col(q, n))
  {
    var v := "$$" + LeftVar(n);
    assert v[2..] == LeftVar(n);
    assert ("$" + n)[1..] == n;
  }

  /** The condition of a $lookup pipeline means what ON says. */
  lemma {:induction false} JoinOnCorrect(e: Expr, env: Env, d: Document, vars: map<string, Value>, alias: string)
    requires JoinOn(e, alias).Success? && Plain(e)
    requires forall c :: c in Cols(e) ==> PairColumn(c, env, d, vars, alias)
    requires Safe(e, env, d, "") && Eval(e, env).Ok?
    ensures NullOfOutcome(M.Eval(JoinOn(e, alias).value, d, vars)) == Eval(e, env)
    decreases e
  {
    if e.Col? {
      assert (e.qual, e.name) in Cols(e);
      ColumnOn(e.qual, e.name, env, d, vars, alias);
    } else if e.Lit? {
    } else {
      JoinOnCorrect(e.l, env, d, vars, alias);
      if e.And? || e.Or? {
        if (TruthOutcome(Eval(e.l, env)) == Some(T)) == e.And? {
          JoinOnCorrect(e.r, env, d, vars, alias);
        }
        LogicOnCorrect(e, env, d, vars, alias);
      } else {
        JoinOnCorrect(e.r, env, d, vars, alias);
        OperatorOnCorrect(e, env, d, vars, alias);
      }
    }
  }

  lemma {:induction false} OperatorOnCorrect(e: Expr, env: Env, d: Document, vars: map<string, Value>, alias: string)
    requires e.Compare? || e.Binary?
    requires JoinOn(e, alias).Success? && Safe(e, env, d, "") && Eval(e, env).Ok?
    requires NullOfOutcome(M.Eval(JoinOn(e.l, alias).value, d, vars)) == Eval(e.l, env)
    requires NullOfOutcome(M.Eval(JoinOn(e.r, alias).value, d, vars)) == Eval(e.r, env)
    ensures NullOfOutcome(M.Eval(JoinOn(e, alias).value, d, vars)) == Eval(e, env)
  {
    var a, b := JoinOn(e.l, alias).value, JoinOn(e.r, alias).value;
    if e.Compare? {
      CompareAgrees(e.cop, M.Eval(a, d, vars), M.Eval(b, d, vars));
      assert JoinOn(e, alias) == ComparisonAgg(e.cop, a, b, e.r);
      ComparisonEval(e.cop, a, b, e.r, d, vars);
    } else {
      ArithAgrees(e.bop, M.Eval(a, d, vars), M.Eval(b, d, vars));
      assert JoinOn(e, alias) == BinaryAgg(e.bop, a, b);
      BinaryEval(e.bop, a, b, d, vars);
    }
  }

  lemma {:induction false} LogicOnCorrect(e: Expr, env: Env, d: Document, vars: map<string, Value>, alias: string)
    requires e.And? || e.Or?
    requires JoinOn(e, alias).Success? && Safe(e, env, d, "") && Eval(e, env).Ok?
    requires NullOfOutcome(M.Eval(JoinOn(e.l, alias).value, d, vars)) == Eval(e.l, env)
    requires (TruthOutcome(Eval(e.l, env)) == Some(T)) == e.And?
             ==> NullOfOutcome(M.Eval(JoinOn(e.r, alias).value, d, vars)) == Eval(e.r, env)
    ensures NullOfOutcome(M.Eval(JoinOn(e, alias).value, d, vars)) == Eval(e, env)
  {
    var a, b := JoinOn(e.l, alias).value, JoinOn(e.r, alias).value;
    var p, q := M.Eval(a, d, vars), M.Eval(b, d, vars);
    assert Eval(e, env) == Connect(e.And?, Eval(e.l, env), Eval(e.r, env));
    if e.And? {
      AndEval(a, b, d, vars);
      AndAgrees(p, q, Eval(e.r, env));
    } else {
      OrEval(a, b, d, vars);
      OrAgrees(p, q, Eval(e.r, env));
    }
  }

  /** What ON compares may be NULL where the operator still tests rightly. */
  predicate SafeOn(e: Expr, env: Env, d: Document) {
    match e
    case Compare(op, l, r) =>
      Safe(l, env, d, "") && Safe(r, env, d, "") && TestOperands(op, Eval(l, env), Eval(r, env), false)
    case And(l, r) => SafeOn(l, env, d) && (TruthOutcome(Eval(l, env)) == Some(T) ==> SafeOn(r, env, d))
    case Or(l, r) => SafeOn(l, env, d) && (TruthOutcome(Eval(l, env)) != Some(T) ==> SafeOn(r, env, d))
    case _ => Safe(e, env, d, "")
  }

  /** The condition holds just when ON is TRUE. */
  lemma {:induction false} JoinOnTests(e: Expr, env: Env, d: Document, vars: map<string, Value>, alias: string)
    requires JoinOn(e, alias).Success? && Plain(e)
    requires forall c :: c in Cols(e) ==> PairColumn(c, env, d, vars, alias)
    requires SafeOn(e, env, d) && TruthOutcome(Eval(e, env)).Some?
    ensures Tests(M.Eval(JoinOn(e, alias).value, d, vars), Eval(e, env))
    decreases e
  {
    if e.Compare? {
      JoinOnCorrect(e.l, env, d, vars, alias);
      JoinOnCorrect(e.r, env, d, vars, alias);
      ComparisonTests(e, env, d, vars, alias);
    } else if e.And? || e.Or? {
      JoinOnTests(e.l, env, d, vars, alias);
      if (TruthOutcome(Eval(e.l, env)) == Some(T)) == e.And? {
        JoinOnTests(e.r, env, d, vars, alias);
      }
      LogicTests(e, env, d, vars, alias);
    } else {
      JoinOnCorrect(e, env, d, vars, alias);
      AgreeingTests(M.Eval(JoinOn(e, alias).value, d, vars));
    }
  }

  lemma {:induction false} ComparisonTests(e: Expr, env: Env, d: Document, vars: map<string, Value>, alias: string)
    requires e.Compare? && JoinOn(e, alias).Success? && Eval(e, env).Ok?
    requires TestOperands(e.cop, Eval(e.l, env), Eval(e.r, env), false)
    requires NullOfOutcome(M.Eval(JoinOn(e.l, alias).value, d, vars)) == Eval(e.l, env)
    requires NullOfOutcome(M.Eval(JoinOn(e.r, alias).value, d, vars)) == Eval(e.r, env)
    ensures Tests(M.Eval(JoinOn(e, alias).value, d, vars), Eval(e, env))
  {
    var a, b := JoinOn(e.l, alias).value, JoinOn(e.r, alias).value;
    var p, q := M.Eval(a, d, vars), M.Eval(b, d, vars);
    assert Eval(e, env) == Comparison(e.cop, Eval(e.l, env), Eval(e.r, env));
    MoreTest(e.cop, Eval(e.l, env), Eval(e.r, env), false, p != Ok(Missing) && q != Ok(Missing));
    CompareTests(e.cop, p, q);
    assert JoinOn(e, alias) == ComparisonAgg(e.cop, a, b, e.r);
    ComparisonEval(e.cop, a, b, e.r, d, vars);
  }

  lemma {:induction false} LogicTests(e: Expr, env: Env, d: Document, vars: map<string, Value>, alias: string)
    requires (e.And? || e.Or?) && JoinOn(e, alias).Success? && Eval(e, env).Ok?
    requires Tests(M.Eval(JoinOn(e.l, alias).value, d, vars), Eval(e.l, env))
    requires (TruthOutcome(Eval(e.l, env)) == Some(T)) == e.And? ==> Tests(M.Eval(JoinOn(e.r, alias).value, d, vars), Eval(e.r, env))
    ensures Tests(M.Eval(JoinOn(e, alias).value, d, vars), Eval(e, env))
  {
    var a, b := JoinOn(e.l, alias).value, JoinOn(e.r, alias).value;
    var p, q := M.Eval(a, d, vars), M.Eval(b, d, vars);
    assert Eval(e, env) == Connect(e.And?, Eval(e.l, env), Eval(e.r, env));
    if e.And? {
      AndEval(a, b, d, vars);
      AndTests(p, q, Eval(e.l, env), Eval(e.r, env));
    } else {
      OrEval(a, b, d, vars);
      OrTests(p, q, Eval(e.l, env), Eval(e.r, env));
    }
  }

  /** `on` compiles, is not an equi-join, and is safe for the row with each joined record. */
  predicate OnFits(on: Expr, alias: string, coll: seq<Document>, row: Row, main: string) {
    JoinFields(on, main, alias).Failure? && JoinOn(on, alias).Success? && Plain(on)
    && LeftConsistent(Cols(on), main, alias)
    && (forall c :: c in Cols(on) && c.0 != alias ==> Readable(row, main, c.0, c.1))
    && (forall d :: d in coll ==> SafePair(on, alias, row, d, main))
  }

  predicate SafePair(on: Expr, alias: string, row: Row, d: Document, main: string) {
    var env := EnvOf(row[alias := Some(d)], main);
    SafeOn(on, env, d) && TruthOutcome(Eval(on, env)).Some?
    && forall c :: c in Cols(on) && c.0 == alias ==> IsScalar(env.col(c.0, c.1))
  }

  lemma {:induction false} PairColumns(on: Expr, alias: string, row: Row, d: Document, main: string)
    requires GoodName(main) && alias != main && alias != "" && WellFormed(row, main) && alias !in row
    requires JoinOn(on, alias).Success? && Plain(on) && LeftConsistent(Cols(on), main, alias)
    requires forall c :: c in Cols(on) && c.0 != alias ==> Readable(row, main, c.0, c.1)
    requires SafePair(on, alias, row, d, main)
    ensures var vars := M.Bind(CollectLeft(on, main, alias), DocOf(row, main));
            forall c :: c in Cols(on) ==> PairColumn(c, EnvOf(row[alias := Some(d)], main), d, vars, alias)
  {
    var vars := M.Bind(CollectLeft(on, main, alias), DocOf(row, main));
    var env := EnvOf(row[alias := Some(d)], main);
    VariablesBound(on, Cols(on), main, alias);
    forall c | c in Cols(on)
      ensures PairColumn(c, env, d, vars, alias)
    {
      PlainCols(on, alias, c);
      if c.0 == alias {
        RightColumn(c, row, d, main, vars);
      } else {
        LeftColumn(c, CollectLeft(on, main, alias), row, d, main, alias);
      }
    }
  }

  lemma {:induction false} RightColumn(c: (string, string), row: Row, d: Document, main: string, vars: map<string, Value>)
    requires c.0 != "" && GoodName(c.1)
    requires IsScalar(EnvOf(row[c.0 := Some(d)], main).col(c.0, c.1))
    ensures PairColumn(c, EnvOf(row[c.0 := Some(d)], main), d, vars, c.0)
  {
    GetName(d, c.1);
  }

  lemma {:induction false} LeftColumn(c: (string, string), lets: map<string, M.MExpr>, row: Row, d: Document, main: string, alias: string)
    requires GoodName(main) && alias != main && alias != "" && WellFormed(row, main) && alias !in row
    requires c.0 != alias && PlainColumn(c.0, c.1) && Readable(row, main, c.0, c.1)
    requires LeftVar(c.1) in lets && lets[LeftVar(c.1)] == Ref(PathOf(c.0, c.1, main))
    ensures PairColumn(c, EnvOf(row[alias := Some(d)], main), d, M.Bind(lets, DocOf(row, main)), alias)
  {
    DocReads(row, main, c.0, c.1);
    RefReads(c.0, c.1, DocOf(row, main), main, map[]);
  }

  lemma {:induction false} PlainCols(e: Expr, alias: string, c: (string, string))
    requires JoinOn(e, alias).Success? && Plain(e) && c in Cols(e)
    ensures PlainColumn(c.0, c.1)
    decreases e
  {
    if e.Compare? || e.And? || e.Or? || e.Binary? {
      if c in Cols(e.l) { PlainCols(e.l, alias, c); } else { PlainCols(e.r, alias, c); }
    }
  }

  lemma {:induction false} OnKeepsOne(on: Expr, alias: string, coll: seq<Document>, row: Row, d: Document, main: string)
    requires GoodName(main) && alias != main && alias != "" && WellFormed(row, main) && alias !in row
    requires OnFits(on, alias, coll, row, main) && d in coll
    ensures var vars := M.Bind(CollectLeft(on, main, alias), DocOf(row, main));
            M.Satisfies(JoinOn(on, alias).value, vars)(d) == Joins(on, row, alias, main)(d)
  {
    var vars := M.Bind(CollectLeft(on, main, alias), DocOf(row, main));
    assert SafePair(on, alias, row, d, main);
    PairColumns(on, alias, row, d, main);
    JoinOnTests(on, EnvOf(row[alias := Some(d)], main), d, vars, alias);
  }

  lemma {:induction false} OnKeeps(on: Expr, alias: string, coll: seq<Document>, row: Row, main: string)
    requires GoodName(main) && alias != main && alias != "" && WellFormed(row, main) && alias !in row
    requires OnFits(on, alias, coll, row, main)
    ensures M.FoundBy(coll, CollectLeft(on, main, alias), JoinOn(on, alias).value, DocOf(row, main))
            == Seqs.Filter(Joins(on, row, alias, main), coll)
  {
    var vars := M.Bind(CollectLeft(on, main, alias), DocOf(row, main));
    var cond := JoinOn(on, alias).value;
    forall d | d in coll
      ensures M.Satisfies(cond, vars)(d) == Joins(on, row, alias, main)(d)
    {
      OnKeepsOne(on, alias, coll, row, d, main);
    }
    Seqs.FilterCong(M.Satisfies(cond, vars), Joins(on, row, alias, main), coll);
  }

  // ----- chains of joins -----

  /** What one join asks of a row and of the collection joined. */
  predicate StepFits(on: Expr, alias: string, coll: seq<Document>, row: Row, main: string) {
    WellFormed(row, main) && alias !in row && alias !in row[main].value
    && (EquiFits(on, alias, coll, row, main) || OnFits(on, alias, coll, row, main))
  }

  ghost predicate FromFits(t: TableExpr, db: M.Database)
    decreases t
  {
    match t
    case Table(_, _) => GoodName(AliasOf(t))
    case Derived => false
    case Join(kind, l, r, on) =>
      on.Some? && l != Derived && r.Table? && (kind == RightJoin ==> l.Table?)
      && var kept, joined := if kind == RightJoin then r else l, if kind == RightJoin then l else r;
         FromFits(kept, db) && GoodName(AliasOf(joined)) && AliasOf(joined) != MainAlias(t)
         && forall row :: row in SqlFrom(kept, db) ==>
                            StepFits(on.value, AliasOf(joined), M.Collection(db, joined.collection), row, MainAlias(t))
  }

  /** The $lookup of a join finds the records that SQL joins with the row. */
  lemma {:induction false} StepRow(on: Expr, right: SourceRef, outer: bool, row: Row, main: string, db: M.Database, j: JoinPlan)
    requires GoodName(main) && GoodName(right.alias) && right.alias != main
    requires StepFits(on, right.alias, M.Collection(db, right.collection), row, main)
    requires PlanJoin(Some(on), main, right, outer) == Success(j) && LookupStage(j, main).Success?
    ensures Looked(LookupStage(j, main).value, DocOf(row, main), db)
            == M.Attach(DocOf(row, main), right.alias,
                        Seqs.Filter(Joins(on, row, right.alias, main), M.Collection(db, right.collection)))
  {
    if EquiFits(on, right.alias, M.Collection(db, right.collection), row, main) {
      EquiStep(on, right, outer, row, main, db, j);
    } else {
      OnKeeps(on, right.alias, M.Collection(db, right.collection), row, main);
      OnStage(on, right, outer, main);
    }
  }

  lemma {:induction false} EquiStep(on: Expr, right: SourceRef, outer: bool, row: Row, main: string, db: M.Database, j: JoinPlan)
    requires GoodName(main) && GoodName(right.alias) && right.alias != main && WellFormed(row, main)
    requires EquiFits(on, right.alias, M.Collection(db, right.collection), row, main)
    requires PlanJoin(Some(on), main, right, outer) == Success(j) && LookupStage(j, main).Success?
    ensures Looked(LookupStage(j, main).value, DocOf(row, main), db)
            == M.Attach(DocOf(row, main), right.alias,
                        Seqs.Filter(Joins(on, row, right.alias, main), M.Collection(db, right.collection)))
  {
    EquiKeeps(on, right.alias, M.Collection(db, right.collection), row, main);
    var f := JoinFields(on, main, right.alias).value;
    assert LookupStage(j, main).value == M.Lookup(right.collection, f.0.name, f.1.name, right.alias);
  }

  lemma {:induction false} OnStage(on: Expr, right: SourceRef, outer: bool, main: string)
    requires JoinFields(on, main, right.alias).Failure? && JoinOn(on, right.alias).Success?
    ensures LookupStage(PlanJoin(Some(on), main, right, outer).value, main)
            == Success(M.LookupWhere(right.collection, CollectLeft(on, main, right.alias),
                                     JoinOn(on, right.alias).value, right.alias))
  {
    var j := OnJoin(right, on, outer);
    assert PlanJoin(Some(on), main, right, outer).value == j;
  }

  /** What a lookup stage makes of one document. */
  function Looked(s: M.Stage, d: Document, db: M.Database): Document {
    match s
    case Lookup(c, l, f, a) => M.Looker(M.Collection(db, c), l, f, a)(d)
    case LookupWhere(c, vs, e, a) => M.Attach(d, a, M.FoundBy(M.Collection(db, c), vs, e, d))
    case _ => d
  }

  lemma {:induction false} StepOne(on: Expr, right: SourceRef, outer: bool, row: Row, main: string, db: M.Database, j: JoinPlan)
    requires GoodName(main) && GoodName(right.alias) && right.alias != main
    requires StepFits(on, right.alias, M.Collection(db, right.collection), row, main)
    requires PlanJoin(Some(on), main, right, outer) == Success(j) && LookupStage(j, main).Success?
    ensures M.Unwinder(right.alias, outer)(Looking(LookupStage(j, main).value, main, db)(row))
            == Seqs.Map(AsJoined(main), JoinRow(on, right.alias, M.Collection(db, right.collection), outer, main)(row))
  {
    StepRow(on, right, outer, row, main, db, j);
    UnwindFound(row, main, right.alias, outer, Seqs.Filter(Joins(on, row, right.alias, main), M.Collection(db, right.collection)));
  }

  lemma {:induction false} StepRows(on: Expr, right: SourceRef, outer: bool, rows: seq<Row>, main: string, db: M.Database, j: JoinPlan)
    requires GoodName(main) && GoodName(right.alias) && right.alias != main
    requires forall row :: row in rows ==> StepFits(on, right.alias, M.Collection(db, right.collection), row, main)
    requires PlanJoin(Some(on), main, right, outer) == Success(j)
    requires LookupStage(j, main).Success?
    ensures var s := LookupStage(j, main).value;
            M.RunStage(M.Unwind(right.alias, outer), M.RunStage(s, Seqs.Map(AsJoined(main), rows), db), db)
            == Seqs.Map(AsJoined(main), Seqs.FlatMap(JoinRow(on, right.alias, M.Collection(db, right.collection), outer, main), rows))
  {
    var s := LookupStage(j, main).value;
    var coll := M.Collection(db, right.collection);
    var k := JoinRow(on, right.alias, coll, outer, main);
    var looked := Looking(s, main, db);
    forall row | row in rows
      ensures M.Unwinder(right.alias, outer)(looked(row)) == Seqs.Map(AsJoined(main), k(row))
    {
      StepOne(on, right, outer, row, main, db, j);
    }
    LookedAll(s, rows, main, db);
    Seqs.FlatMapMap(M.Unwinder(right.alias, outer), looked, k, AsJoined(main), rows);
  }

  function Looking(s: M.Stage, main: string, db: M.Database): Row -> Document {
    (row: Row) => Looked(s, DocOf(row, main), db)
  }

  lemma {:induction false} LookedAll(s: M.Stage, rows: seq<Row>, main: string, db: M.Database)
    requires s.Lookup? || s.LookupWhere?
    ensures M.RunStage(s, Seqs.Map(AsJoined(main), rows), db) == Seqs.Map(Looking(s, main, db), rows)
  {
    var f := if s.Lookup? then M.Looker(M.Collection(db, s.from), s.localField, s.foreignField, s.as_)
             else M.CondLooker(M.Collection(db, s.from), s.let_, s.cond, s.as_);
    Seqs.MapMap(f, AsJoined(main), Looking(s, main, db), rows);
  }

  lemma {:induction false} RunAppend(a: seq<M.Stage>, b: seq<M.Stage>, docs: seq<Document>, db: M.Database)
    ensures M.Run(a + b, docs, db) == M.Run(b, M.Run(a, docs, db), db)
    decreases |a|
  {
    if a == [] {
      assert a + b == b;
    } else {
      assert (a + b)[1..] == a[1..] + b;
      RunAppend(a[1..], b, M.RunStage(a[0], docs, db), db);
    }
  }

  lemma {:induction false} RunTwo(s: M.Stage, t: M.Stage, docs: seq<Document>, db: M.Database)
    ensures M.Run([s, t], docs, db) == M.RunStage(t, M.RunStage(s, docs, db), db)
  {
    var mid := M.RunStage(s, docs, db);
    assert [s, t][1..] == [t];
    assert [t][1..] == [];
    assert M.Run([t], mid, db) == M.Run([], M.RunStage(t, mid, db), db);
  }

  lemma {:induction false} ThenJoin(stages: seq<M.Stage>, s: M.Stage, t: M.Stage, docs: seq<Document>, db: M.Database)
    ensures M.Run(stages + [s, t], docs, db) == M.RunStage(t, M.RunStage(s, M.Run(stages, docs, db), db), db)
  {
    RunAppend(stages, [s, t], docs, db);
    RunTwo(s, t, M.Run(stages, docs, db), db);
  }

  lemma {:induction false} MainRows(t: TableExpr, db: M.Database)
    requires t.Table?
    ensures Seqs.Map(AsJoined(AliasOf(t)), SqlFrom(t, db)) == M.Collection(db, t.collection)
  {
    var a, coll := AliasOf(t), M.Collection(db, t.collection);
    var rows := SqlFrom(t, db);
    forall i | 0 <= i < |coll|
      ensures Seqs.Map(AsJoined(a), rows)[i] == coll[i]
    {
      assert rows[i] == map[a := Some(coll[i])];
      assert DocOf(rows[i], a) == coll[i];
    }
  }

  function Kept(t: TableExpr): TableExpr
    requires t.Join?
  {
    if t.kind == RightJoin then t.right else t.left
  }

  function Joined(t: TableExpr): TableExpr
    requires t.Join?
  {
    if t.kind == RightJoin then t.left else t.right
  }

  predicate IsOuter(t: TableExpr)
    requires t.Join?
  {
    t.kind == RightJoin || t.kind == LeftJoin
  }

  /** A join adds one plan, and a $lookup and an $unwind, to those of the tables kept. */
  lemma {:induction false} JoinPlanned(t: TableExpr)
    requires t.Join? && ExtractFromPlan(t).Success?
    requires JoinStages(ExtractFromPlan(t).value.joins, ExtractFromPlan(t).value.main.alias).Success?
    ensures ExtractFromPlan(Kept(t)).Success? && SourceOf(Joined(t)).Success?
    ensures var p, q, source := ExtractFromPlan(t).value, ExtractFromPlan(Kept(t)).value, SourceOf(Joined(t)).value;
            var main := p.main.alias;
            p.main == q.main && JoinStages(q.joins, main).Success? && t.on.Some?
            && PlanJoin(t.on, main, source, IsOuter(t)).Success?
            && var j := PlanJoin(t.on, main, source, IsOuter(t)).value;
               LookupStage(j, main).Success?
               && JoinStages(p.joins, main).value
                  == JoinStages(q.joins, main).value + [LookupStage(j, main).value, M.Unwind(source.alias, IsOuter(t))]
  {
    var p, q := ExtractFromPlan(t).value, ExtractFromPlan(Kept(t)).value;
    var j := PlanJoin(t.on, p.main.alias, SourceOf(Joined(t)).value, IsOuter(t)).value;
    assert p.joins == q.joins + [j];
    assert p.joins[..|p.joins| - 1] == q.joins;
  }

  lemma {:induction false} JoinFits(t: TableExpr, db: M.Database)
    requires t.Join? && FromFits(t, db) && SourceOf(Joined(t)).Success?
    ensures t.on.Some? && MainAlias(t) == MainAlias(Kept(t)) && FromFits(Kept(t), db)
    ensures var right := SourceOf(Joined(t)).value;
            GoodName(right.alias) && right.alias != MainAlias(t)
            && (forall row :: row in SqlFrom(Kept(t), db) ==>
                                StepFits(t.on.value, right.alias, M.Collection(db, right.collection), row, MainAlias(t)))
            && SqlFrom(t, db)
               == Seqs.FlatMap(JoinRow(t.on.value, right.alias, M.Collection(db, right.collection), IsOuter(t), MainAlias(t)),
                               SqlFrom(Kept(t), db))
  {
  }

  /** One more join. */
  lemma {:induction false} JoinStep(t: TableExpr, docs: seq<Document>, stages: seq<M.Stage>, rows: seq<Row>, right: SourceRef, outer: bool,
                                    main: string, db: M.Database, j: JoinPlan)
    requires t.Join? && t.on.Some? && PlanJoin(t.on, main, right, outer) == Success(j) && LookupStage(j, main).Success?
    requires GoodName(main) && GoodName(right.alias) && right.alias != main
    requires forall row :: row in rows ==> StepFits(t.on.value, right.alias, M.Collection(db, right.collection), row, main)
    requires M.Run(stages, docs, db) == Seqs.Map(AsJoined(main), rows)
    ensures M.Run(stages + [LookupStage(j, main).value, M.Unwind(right.alias, outer)], docs, db)
            == Seqs.Map(AsJoined(main),
                        Seqs.FlatMap(JoinRow(t.on.value, right.alias, M.Collection(db, right.collection), outer, main), rows))
  {
    ThenJoin(stages, LookupStage(j, main).value, M.Unwind(right.alias, outer), docs, db);
    StepRows(t.on.value, right, outer, rows, main, db, j);
  }

  /** The stages of a FROM clause turn the main collection into the joined rows. */
  lemma {:induction false} JoinCorrect(t: TableExpr, db: M.Database)
    requires ExtractFromPlan(t).Success? && FromFits(t, db)
    requires JoinStages(ExtractFromPlan(t).value.joins, ExtractFromPlan(t).value.main.alias).Success?
    ensures var p := ExtractFromPlan(t).value;
            p.main.alias == MainAlias(t) && GoodName(p.main.alias)
            && M.Run(JoinStages(p.joins, p.main.alias).value, M.Collection(db, p.main.collection), db)
               == Seqs.Map(AsJoined(MainAlias(t)), SqlFrom(t, db))
    decreases t
  {
    if t.Table? {
      MainRows(t, db);
    } else {
      JoinPlanned(t);
      JoinFits(t, db);
      JoinCorrect(Kept(t), db);
      var p, q, right := ExtractFromPlan(t).value, ExtractFromPlan(Kept(t)).value, SourceOf(Joined(t)).value;
      JoinStep(t, M.Collection(db, p.main.collection), JoinStages(q.joins, p.main.alias).value, SqlFrom(Kept(t), db), right, IsOuter(t),
               p.main.alias, db, PlanJoin(t.on, p.main.alias, right, IsOuter(t)).value);
    }
  }
}
