/** What a SELECT without grouping returns, said of the statement as parsed and of the tables it names. */
module RowResults {
  import opened Wrappers
  import opened Bson
  import opened Sql
  import opened JoinTheorem
  import opened Select
  import opened Render
  import opened RenderTheorem
  import opened InsertSelect
  import opened FindTheorem
  import opened Listing
  import QueryTheorem
  import Aggregates
  import GroupedResults
  import Inserts
  import Stages
  import Ordering
  import M = Mongo
  import Source
  import Seqs

  // ----- SQL's result -----

  function ListedValues(xs: seq<SelectExpr>, env: Env): (vs: seq<Value>)
    requires forall x :: x in xs ==> x.Aliased?
    ensures |vs| == |xs| && forall i :: 0 <= i < |xs| ==> vs[i] == GroupedResults.ValueOrNull(Eval(xs[i].e, env))
  {
    if xs == [] then [] else [GroupedResults.ValueOrNull(Eval(xs[0].e, env))] + ListedValues(xs[1..], env)
  }

  /** The values of the listed expressions for a joined row. */
  function ListedRow(exprs: seq<SelectExpr>, main: string): Row -> seq<Value> {
    (row: Row) => ListedValues(Listed(exprs), EnvOf(row, main))
  }

  function RowSooner(orders: seq<Order>, main: string): (Row, Row) -> bool {
    (a: Row, b: Row) => SqlBefore(orders, EnvOf(a, main), EnvOf(b, main))
  }

  /** The joined rows that pass WHERE, as ORDER BY puts them, the first column first. */
  function RowsInOrder(q: Query, db: M.Database): seq<Row> {
    Ordering.SortBy(RowSooner(q.orderBy, MainAlias(q.from)), PassingRows(q, db))
  }

  /** The result: filtered, ordered and limited, as values of the listed expressions. */
  function ResultRows(q: Query, db: M.Database): seq<seq<Value>> {
    Seqs.Map(ListedRow(q.exprs, MainAlias(q.from)), SqlLimited(q, RowsInOrder(q, db)))
  }

  // ----- pipelines -----

  lemma {:induction false} ItemIsListed(item: SelectItem, x: SelectExpr, row: Row, main: string)
    requires StandsFor(item, x) && !item.AggItem?
    ensures RowValue(item, row, main) == GroupedResults.ValueOrNull(Eval(x.e, EnvOf(row, main)))
  {
    if x.e.Col? {
      assert Eval(x.e, EnvOf(row, main)) == Ok(EnvOf(row, main).col(x.e.qual, x.e.name));
    }
  }

  lemma {:induction false} RowIsListed(items: seq<SelectItem>, exprs: seq<SelectExpr>, row: Row, main: string)
    requires AllStandFor(items, Listed(exprs)) && forall item :: item in items ==> !item.AggItem?
    ensures RowValues(items, main)(row) == ListedRow(exprs, main)(row)
  {
    var a, b := RowValues(items, main)(row), ListedRow(exprs, main)(row);
    forall i | 0 <= i < |items|
      ensures a[i] == b[i]
    {
      assert items[i] in items;
      ItemIsListed(items[i], Listed(exprs)[i], row, main);
    }
    assert |a| == |items| == |b|;
  }

  lemma {:induction false} RowsAreListed(items: seq<SelectItem>, exprs: seq<SelectExpr>, rows: seq<Row>, main: string)
    requires AllStandFor(items, Listed(exprs)) && forall item :: item in items ==> !item.AggItem?
    ensures Seqs.Map(RowValues(items, main), rows) == Seqs.Map(ListedRow(exprs, main), rows)
  {
    forall row | row in rows
      ensures RowValues(items, main)(row) == ListedRow(exprs, main)(row)
    {
      RowIsListed(items, exprs, row, main);
    }
    Seqs.MapCong(RowValues(items, main), ListedRow(exprs, main), rows);
  }

  /** With at most one ORDER BY, that is SQL's order. */
  lemma {:induction false} OneOrder(q: Query, rows: seq<Row>)
    requires |q.orderBy| <= 1 && forall o :: o in q.orderBy ==> o.e.Col?
    ensures SqlOrder(q.orderBy, RowOrder(q), rows) == Ordering.SortBy(RowSooner(q.orderBy, MainAlias(q.from)), rows)
  {
    var main := MainAlias(q.from);
    if q.orderBy == [] {
      Ordering.NeverBefore(RowSooner(q.orderBy, main), rows);
    } else {
      assert q.orderBy[0] in q.orderBy && q.orderBy[1..] == [];
      forall a, b | a in rows && b in rows
        ensures ByValue(RowOrder(q), q.orderBy[0].descending)(a, b) == RowSooner(q.orderBy, main)(a, b)
      {
        assert !SqlBefore([], EnvOf(a, main), EnvOf(b, main));
      }
      Ordering.SortCong(ByValue(RowOrder(q), q.orderBy[0].descending), RowSooner(q.orderBy, main), rows);
    }
  }

  lemma {:induction false} NoAggregates(exprs: seq<SelectExpr>)
    requires !PlanItemsOf(exprs).hasAgg
    ensures forall item :: item in PlanItemsOf(exprs).items ==> !item.AggItem?
  {
    PlansListed(exprs);
    forall item | item in PlanItemsOf(exprs).items
      ensures !item.AggItem?
    {
      var items, xs := PlanItemsOf(exprs).items, Listed(exprs);
      var i :| 0 <= i < |items| && items[i] == item;
      assert xs[i] in xs;
    }
  }

  lemma {:induction false} ListNamed(items: seq<SelectItem>, xs: seq<SelectExpr>, names: seq<string>, row: Row, main: string)
    requires AllStandFor(items, xs) && ItemsFit(items, names, row, main)
    ensures forall x :: x in xs ==> NamedPlainly(x)
  {
    forall x | x in xs
      ensures NamedPlainly(x)
    {
      var i :| 0 <= i < |xs| && xs[i] == x;
      assert ItemFits(items[i], names[i], row, main);
    }
  }

  /** A SELECT of columns and expressions shows, under the names of its columns, SQL's rows: the values of the listed expressions, ordered and limited. */
  lemma {:induction false} PlainResult(q: Query, print_: Expr -> string, f: Final, db: M.Database)
    requires Plainly(q) && BuildAggregate(q, print_).Success?
    requires FinalOf(PlanItemsOf(q.exprs).items, MainAlias(q.from), print_) == Success(f) && PlainFits(q, f, db)
    ensures Seqs.Map(ShownAs(OutputNames(Listed(q.exprs), MainAlias(q.from), print_)), StatementDocs(BuildAggregate(q, print_).value, db))
            == ResultRows(q, db)
  {
    var items, main, docs := PlanItemsOf(q.exprs).items, MainAlias(q.from), StatementDocs(BuildAggregate(q, print_).value, db);
    var rows := SqlLimited(q, SqlOrder(q.orderBy, RowOrder(q), PassingRows(q, db)));
    PlansListed(q.exprs);
    NoAggregates(q.exprs);
    PlainStatementCorrect(q, print_, f, db);
    RowsAreListed(items, q.exprs, rows, main);
    OneOrder(q, PassingRows(q, db));
    if rows == [] {
      assert |docs| == |Seqs.Map(ShownAs(f.names), docs)| == |rows|;
    } else {
      LimitedIs(q, SqlOrder(q.orderBy, RowOrder(q), PassingRows(q, db)));
      OrderedIn(q, RowOrder(q), PassingRows(q, db));
      assert rows[0] in rows && rows[0] in PassingRows(q, db);
      ListNamed(items, Listed(q.exprs), f.names, rows[0], main);
      ProjectionNames(items, Listed(q.exprs), main, print_);
    }
  }

  /** Its documents have no other fields. */
  lemma {:induction false} PlainFields(q: Query, print_: Expr -> string, f: Final, db: M.Database, d: Document)
    requires Plainly(q) && BuildAggregate(q, print_).Success?
    requires FinalOf(PlanItemsOf(q.exprs).items, MainAlias(q.from), print_) == Success(f) && PlainFits(q, f, db)
    requires d in StatementDocs(BuildAggregate(q, print_).value, db)
    ensures forall n :: n in d ==> n in OutputNames(Listed(q.exprs), MainAlias(q.from), print_)
  {
    var items, main := PlanItemsOf(q.exprs).items, MainAlias(q.from);
    var row := PlainSource(q, print_, f, db, d);
    PlansListed(q.exprs);
    ListNamed(items, Listed(q.exprs), f.names, row, main);
    ProjectionNames(items, Listed(q.exprs), main, print_);
    RowFields(items, f, row, main, print_);
  }

  lemma {:induction false} RowFields(items: seq<SelectItem>, f: Final, row: Row, main: string, print_: Expr -> string)
    requires FinalOf(items, main, print_) == Success(f) && GoodNames(f.names) && ItemsFit(items, f.names, row, main)
    requires (forall n :: n in f.spec <==> n == "_id" || n in f.names) && ("_id" !in f.names ==> f.spec["_id"] == M.Exclude)
    ensures forall n :: n in M.ProjectDoc(FinalSpec(f), DocOf(row, main)) ==> n in f.names
  {
    FinalProjects(items, main, print_);
    FinalKeeps(items, f, row, main);
    KeptFields(FinalSpec(f), DocOf(row, main));
  }

  lemma {:induction false} KeptFields(spec: map<string, M.Projected>, d: Document)
    requires M.KeepsOnly(spec)
    ensures forall n :: n in M.ProjectDoc(spec, d) ==> (n in spec && spec[n] != M.Exclude) || (n == "_id" && "_id" !in spec)
  {
  }

  /** The row that a document of the result comes from. */
  lemma {:induction false} PlainSource(q: Query, print_: Expr -> string, f: Final, db: M.Database, d: Document) returns (row: Row)
    requires Plainly(q) && BuildAggregate(q, print_).Success?
    requires FinalOf(PlanItemsOf(q.exprs).items, MainAlias(q.from), print_) == Success(f) && PlainFits(q, f, db)
    requires d in StatementDocs(BuildAggregate(q, print_).value, db)
    ensures row in PassingRows(q, db) && d == M.ProjectDoc(FinalSpec(f), DocOf(row, MainAlias(q.from)))
  {
    var sorted := Ordering.Slice(OffsetOf(q), LimitOf(q), SqlOrder(q.orderBy, RowOrder(q), PassingRows(q, db)));
    PlainSourceDocs(q, print_, f, db);
    OrderedIn(q, RowOrder(q), PassingRows(q, db));
    row := Projected(f, sorted, MainAlias(q.from), d);
  }

  lemma {:induction false} PlainSourceDocs(q: Query, print_: Expr -> string, f: Final, db: M.Database)
    requires Plainly(q) && BuildAggregate(q, print_).Success?
    requires FinalOf(PlanItemsOf(q.exprs).items, MainAlias(q.from), print_) == Success(f) && PlainFits(q, f, db)
    requires StatementDocs(BuildAggregate(q, print_).value, db) != []
    ensures StatementDocs(BuildAggregate(q, print_).value, db)
            == Seqs.Map(M.Projector(FinalSpec(f)),
                        Seqs.Map(AsJoined(MainAlias(q.from)),
                                 Ordering.Slice(OffsetOf(q), LimitOf(q), SqlOrder(q.orderBy, RowOrder(q), PassingRows(q, db)))))
  {
    QueryTheorem.MainIsMain(q.from);
    var rows, keys := RowsPipeline(q).value, OrderKeys(q.orderBy, PlanItemsOf(q.exprs).items, MainAlias(q.from)).value;
    PlainDocs(q, rows, keys, db);
    ThenProject(rows + Stages.Tail(keys, OffsetOf(q), LimitOf(q)), FinalSpec(f), QueryTheorem.MainDocs(q, db), db);
  }

  lemma {:induction false} Projected(f: Final, rows: seq<Row>, main: string, d: Document) returns (row: Row)
    requires d in Seqs.Map(M.Projector(FinalSpec(f)), Seqs.Map(AsJoined(main), rows))
    ensures row in rows && d == M.ProjectDoc(FinalSpec(f), DocOf(row, main))
  {
    var docs := Seqs.Map(AsJoined(main), rows);
    var i :| 0 <= i < |docs| && M.Projector(FinalSpec(f))(docs[i]) == d;
    row := rows[i];
  }
}
