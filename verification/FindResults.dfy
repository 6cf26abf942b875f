/** What Finds return and INSERT ... SELECT inserts, said of the statement as parsed and of the tables it names. */
module FindResults {
  import opened Wrappers
  import opened Bson
  import opened Sql
  import opened JoinTheorem
  import opened Select
  import opened RenderTheorem
  import opened InsertSelect
  import opened FindTheorem
  import opened Listing
  import opened RowResults
  import GroupedResults
  import GroupTheorem
  import QueryTheorem
  import Inserts
  import Ordering
  import Render
  import M = Mongo
  import Source
  import Seqs

  // ----- which statements become Finds -----

  /** Just the statements that read one table and list columns of it, or *; without grouping, and DISTINCT of at most one column. */
  lemma {:induction false} FoundExactly(q: Query, print_: Expr -> string)
    requires Translate(q, print_).Success?
    ensures Translate(q, print_).value.Found?
            <==> q.from.Table? && q.groupBy.None? && q.having.None? && (forall x :: x in Listed(q.exprs) ==> x.e.Col?)
                 && !(q.distinct && |Listed(q.exprs)| > 1)
  {
    PlansListed(q.exprs);
    assert Source.ExtractFromPlan(q.from).value.joins == [] <==> q.from.Table?;
  }

  /** A Find reads the table named, whatever its alias. */
  lemma {:induction false} ReadsItsTable(q: Query, print_: Expr -> string)
    requires Translate(q, print_).Success? && Translate(q, print_).value.Found?
    ensures q.from.Table? && Translate(q, print_).value.find.collection == q.from.collection
    ensures var main := Source.SourceRef(q.from.collection, MainAlias(q.from));
            BuildFind(q, main) == Success(Translate(q, print_).value.find)
  {
  }

  // ----- records and rows -----

  /** The rows of a single table are its records. */
  function RowOf(main: string): Document -> Row {
    (d: Document) => map[main := Some(d)]
  }

  lemma {:induction false} TableRows(t: Source.TableExpr, db: M.Database)
    requires t.Table?
    ensures SqlFrom(t, db) == Seqs.Map(RowOf(MainAlias(t)), M.Collection(db, t.collection))
  {
    var a, coll := MainAlias(t), M.Collection(db, t.collection);
    forall d | d in coll
      ensures With(map[], a)(d) == RowOf(a)(d)
    {
    }
    Seqs.MapCong(With(map[], a), RowOf(a), coll);
  }

  /** The records chosen are the rows chosen. */
  lemma {:induction false} ChosenRows(q: Query, db: M.Database)
    requires q.from.Table?
    ensures var main, coll := MainAlias(q.from), M.Collection(db, q.from.collection);
            Seqs.Map(RowOf(main), InSqlOrder(q, TableEnv(main), coll)) == RowsInOrder(q, db)
            && Seqs.Map(RowOf(main), Chosen(q, TableEnv(main), coll)) == SqlLimited(q, RowsInOrder(q, db))
  {
    var main, coll := MainAlias(q.from), M.Collection(db, q.from.collection);
    var passing := Seqs.Filter(Passes(q.where_, TableEnv(main)), coll);
    TableRows(q.from, db);
    Seqs.FilterMap(QueryTheorem.WherePasses(q.where_, main), RowOf(main), Passes(q.where_, TableEnv(main)), coll);
    forall a, b | a in passing && b in passing
      ensures RowSooner(q.orderBy, main)(RowOf(main)(a), RowOf(main)(b)) == Sooner(q.orderBy, TableEnv(main))(a, b)
    {
    }
    Ordering.SortMap(Sooner(q.orderBy, TableEnv(main)), RowSooner(q.orderBy, main), RowOf(main), passing);
    LimitedMap(q, RowOf(main), InSqlOrder(q, TableEnv(main), coll));
  }

  // ----- the select list -----

  function FoundNames(xs: seq<SelectExpr>): (names: seq<string>)
    requires forall x :: x in xs ==> x.Aliased?
    ensures |names| == |xs| && forall i :: 0 <= i < |xs| ==> names[i] == FoundName(xs[i])
  {
    if xs == [] then [] else [FoundName(xs[0])] + FoundNames(xs[1..])
  }

  lemma {:induction false} ListIsFound(items: seq<SelectItem>, exprs: seq<SelectExpr>, out: Document)
    requires AllStandFor(items, Listed(exprs)) && forall item :: item in items ==> item.FieldItem? && item.name != ""
    ensures ShownItems(items)(out) == ShownAs(FoundNames(Listed(exprs)))(out)
  {
    var a, b := ShownItems(items)(out), ShownAs(FoundNames(Listed(exprs)))(out);
    forall i | 0 <= i < |items|
      ensures a[i] == b[i]
    {
      assert items[i] in items;
      PathIsFound(items[i], Listed(exprs)[i]);
    }
    assert |a| == |items| == |b|;
  }

  lemma {:induction false} ItemsAreListed(items: seq<SelectItem>, exprs: seq<SelectExpr>, d: Document, main: string)
    requires AllStandFor(items, Listed(exprs)) && forall item :: item in items ==> item.FieldItem?
    ensures ItemValues(items, TableEnv(main))(d) == ListedRow(exprs, main)(RowOf(main)(d))
  {
    var a, b := ItemValues(items, TableEnv(main))(d), ListedRow(exprs, main)(RowOf(main)(d));
    forall i | 0 <= i < |items|
      ensures a[i] == b[i]
    {
      assert items[i] in items;
      var x := Listed(exprs)[i];
      assert Eval(x.e, EnvOf(RowOf(main)(d), main)) == Ok(EnvOf(RowOf(main)(d), main).col(x.e.qual, x.e.name));
    }
    assert |a| == |items| == |b|;
  }

  lemma {:induction false} ColumnsListed(exprs: seq<SelectExpr>)
    requires ItemPaths(PlanItemsOf(exprs).items).Success?
    ensures forall item :: item in PlanItemsOf(exprs).items ==> item.FieldItem?
  {
    var items := PlanItemsOf(exprs).items;
    PathsAre(items);
    forall item | item in items
      ensures item.FieldItem?
    {
      var i :| 0 <= i < |items| && items[i] == item;
    }
  }

  lemma {:induction false} ShownAreFound(q: Query, docs: seq<Document>, chosen: seq<Document>, main: string)
    requires ItemPaths(PlanItemsOf(q.exprs).items).Success?
    requires forall item :: item in PlanItemsOf(q.exprs).items ==> item.FieldItem? && item.name != ""
    requires var items := PlanItemsOf(q.exprs).items;
             Seqs.Map(ShownItems(items), docs) == Seqs.Map(ItemValues(items, TableEnv(main)), chosen)
    ensures Seqs.Map(ShownAs(FoundNames(Listed(q.exprs))), docs)
            == Seqs.Map(ListedRow(q.exprs, main), Seqs.Map(RowOf(main), chosen))
  {
    var items := PlanItemsOf(q.exprs).items;
    PlansListed(q.exprs);
    ColumnsListed(q.exprs);
    forall d | d in docs
      ensures ShownItems(items)(d) == ShownAs(FoundNames(Listed(q.exprs)))(d)
    {
      ListIsFound(items, q.exprs, d);
    }
    Seqs.MapCong(ShownItems(items), ShownAs(FoundNames(Listed(q.exprs))), docs);
    forall d | d in chosen
      ensures ItemValues(items, TableEnv(main))(d) == ListedRow(q.exprs, main)(RowOf(main)(d))
    {
      ItemsAreListed(items, q.exprs, d, main);
    }
    Seqs.MapMap(ListedRow(q.exprs, main), RowOf(main), ItemValues(items, TableEnv(main)), chosen);
  }

  // ----- Finds -----

  /** All columns are named without their table and hold scalars, in every record of the table; WHERE lies in the fragment of its theorem. */
  ghost predicate TableRead(q: Query, db: M.Database) {
    q.from.Table? && (forall c :: c in ColumnsOf(q) ==> c.0 == "" && GoodName(c.1))
    && forall d :: d in M.Collection(db, q.from.collection) ==> TableFits(q, d, TableEnv(MainAlias(q.from))(d))
  }

  lemma {:induction false} NamesUsable(q: Query, db: M.Database)
    requires TableRead(q, db) && ItemPaths(PlanItemsOf(q.exprs).items).Success?
    ensures forall item :: item in PlanItemsOf(q.exprs).items ==> item.FieldItem? && item.name != ""
  {
    ColumnsListed(q.exprs);
    forall item | item in PlanItemsOf(q.exprs).items
      ensures item.FieldItem? && item.name != ""
    {
      assert (item.qual, item.name) in ItemColumns(PlanItemsOf(q.exprs).items);
    }
  }

  /** A SELECT that becomes a Find returns, from the table it names, SQL's rows: the values of the listed columns, ordered and limited. */
  lemma {:induction false} FindResult(q: Query, print_: Expr -> string, db: M.Database)
    requires Translate(q, print_).Success? && Translate(q, print_).value.Found? && TableRead(q, db)
    requires !q.distinct && Star !in q.exprs
    ensures var f := Translate(q, print_).value.find;
            f.distinct.None?
            && Seqs.Map(ShownAs(FoundNames(Listed(q.exprs))), FindDocs(f, M.Collection(db, f.collection))) == ResultRows(q, db)
  {
    var main, coll := MainAlias(q.from), M.Collection(db, q.from.collection);
    var source := Source.SourceRef(q.from.collection, main);
    ReadsItsTable(q, print_);
    PlansListed(q.exprs);
    FindIsSql(q, source, coll);
    NamesUsable(q, db);
    ShownAreFound(q, FindDocs(BuildFind(q, source).value, coll), Chosen(q, TableEnv(main), coll), main);
    ChosenRows(q, db);
  }

  /** SELECT * from a table: the records themselves, without `_id`. */
  lemma {:induction false} FindStarResult(q: Query, print_: Expr -> string, db: M.Database)
    requires Translate(q, print_).Success? && Translate(q, print_).value.Found? && Star in q.exprs
    requires forall d :: d in M.Collection(db, q.from.collection) ==> RowFits(q, d, TableEnv(MainAlias(q.from))(d))
    ensures var f := Translate(q, print_).value.find;
            f.distinct.None?
            && FindDocs(f, M.Collection(db, f.collection)) == Seqs.Map(StarRecord(MainAlias(q.from)), SqlLimited(q, RowsInOrder(q, db)))
  {
    var main, coll := MainAlias(q.from), M.Collection(db, q.from.collection);
    var source := Source.SourceRef(q.from.collection, main);
    ReadsItsTable(q, print_);
    PlansListed(q.exprs);
    FindStarCorrect(q, source, TableEnv(main), coll);
    ChosenRows(q, db);
    StarRecords(main, Chosen(q, TableEnv(main), coll));
  }

  lemma {:induction false} StarRecords(main: string, chosen: seq<Document>)
    ensures Seqs.Map(WithoutId, chosen) == Seqs.Map(StarRecord(main), Seqs.Map(RowOf(main), chosen))
  {
    forall d | d in chosen
      ensures WithoutId(d) == StarRecord(main)(RowOf(main)(d))
    {
    }
    Seqs.MapMap(StarRecord(main), RowOf(main), WithoutId, chosen);
  }

  /** A row's record, without `_id`. */
  function StarRecord(main: string): Row -> Document {
    (row: Row) => if main in row && row[main].Some? then row[main].value - {"_id"} else map[]
  }

  /** The documents have no fields but those listed. */
  lemma {:induction false} FindFields(q: Query, print_: Expr -> string, db: M.Database, d: Document)
    requires Translate(q, print_).Success? && Translate(q, print_).value.Found? && !q.distinct && Star !in q.exprs && Listed(q.exprs) != []
    requires TableRead(q, db)
    requires var f := Translate(q, print_).value.find; f.distinct.None? && d in FindDocs(f, M.Collection(db, f.collection))
    ensures forall n :: n in d ==> n in FoundNames(Listed(q.exprs))
  {
    var f := Translate(q, print_).value.find;
    FindProjects(q, print_, db);
    var r := FoundFrom(f, M.Collection(db, f.collection), d);
    ListedKept(FoundNames(Listed(q.exprs)), r);
  }

  lemma {:induction false} FindProjects(q: Query, print_: Expr -> string, db: M.Database)
    requires Translate(q, print_).Success? && Translate(q, print_).value.Found? && Star !in q.exprs && TableRead(q, db)
    ensures Translate(q, print_).value.find.projection == FindProjection(FoundNames(Listed(q.exprs)))
  {
    var items := PlanItemsOf(q.exprs).items;
    ReadsItsTable(q, print_);
    PlansListed(q.exprs);
    ProjectsPaths(q, Source.SourceRef(q.from.collection, MainAlias(q.from)));
    PathsAre(items);
    NamesUsable(q, db);
    FoundPaths(items, Listed(q.exprs), ItemPaths(items).value);
  }

  lemma {:induction false} ProjectsPaths(q: Query, main: Source.SourceRef)
    requires BuildFind(q, main).Success? && !PlanItemsOf(q.exprs).hasStar
    ensures ItemPaths(PlanItemsOf(q.exprs).items).Success?
    ensures BuildFind(q, main).value.projection == FindProjection(ItemPaths(PlanItemsOf(q.exprs).items).value)
  {
  }

  lemma {:induction false} FoundFrom(f: FindStmt, coll: seq<Document>, d: Document) returns (r: Document)
    requires f.distinct.None? && d in FindDocs(f, coll)
    ensures d == M.ProjectDoc(f.projection, r)
  {
    var sliced := Ordering.Slice(f.skip, f.limit, M.SortDocs(f.sort, Seqs.Filter(M.Matcher(f.filter), coll)));
    var i :| 0 <= i < |sliced| && M.Projector(f.projection)(sliced[i]) == d;
    r := sliced[i];
  }

  lemma {:induction false} ListedKept(paths: seq<string>, r: Document)
    requires paths != []
    ensures forall n :: n in M.ProjectDoc(FindProjection(paths), r) ==> n in paths
  {
    assert paths[0] in paths && FindProjection(paths)[paths[0]] == M.Include;
    KeptFields(FindProjection(paths), r);
  }

  lemma {:induction false} FoundPaths(items: seq<SelectItem>, xs: seq<SelectExpr>, paths: seq<string>)
    requires AllStandFor(items, xs) && |paths| == |items|
    requires forall i :: 0 <= i < |items| ==> items[i].FieldItem? && paths[i] == FieldPath(items[i].qual, items[i].name)
    requires forall item :: item in items ==> item.FieldItem? && item.name != ""
    ensures paths == FoundNames(xs)
  {
    forall i | 0 <= i < |items|
      ensures paths[i] == FoundNames(xs)[i]
    {
      assert items[i] in items;
      PathIsFound(items[i], xs[i]);
    }
  }

  // ----- DISTINCT of one column -----

  /** The records that pass WHERE. */
  function PassingRecords(q: Query, db: M.Database): seq<Document> {
    if q.from.Table? then Seqs.Filter(Passes(q.where_, TableEnv(MainAlias(q.from))), M.Collection(db, q.from.collection)) else []
  }

  function ColumnOfRow(n: string, main: string): Row -> Value {
    (row: Row) => EnvOf(row, main).col("", n)
  }

  /** SQL's distinct values of a column, as ORDER BY puts them. */
  function DistinctListed(q: Query, n: string, db: M.Database): seq<Value> {
    Seqs.Distinct(Seqs.Map(ColumnOfRow(n, MainAlias(q.from)), RowsInOrder(q, db)))
  }

  lemma {:induction false} DistinctAreListed(q: Query, n: string, db: M.Database)
    requires q.from.Table?
    ensures DistinctColumn(q, "", n, TableEnv(MainAlias(q.from)), M.Collection(db, q.from.collection)) == DistinctListed(q, n, db)
  {
    ChosenRows(q, db);
    ColumnValuesOf(n, MainAlias(q.from), InSqlOrder(q, TableEnv(MainAlias(q.from)), M.Collection(db, q.from.collection)));
  }

  lemma {:induction false} TableDistinct(q: Query, source: Source.SourceRef, n: string, db: M.Database)
    requires q.from.Table? && source == Source.SourceRef(q.from.collection, MainAlias(q.from)) && BuildFind(q, source).Success?
    requires SelectsDistinct(q, "", n) && GoodName(n)
    requires forall d :: d in M.Collection(db, q.from.collection) ==> RowFits(q, d, TableEnv(source.alias)(d))
    ensures BuildFind(q, source).value.distinct.Some?
    ensures multiset(DistinctRows(BuildFind(q, source).value, M.Collection(db, q.from.collection)))
            == multiset(SqlLimited(q, DistinctListed(q, n, db)))
            <==> LimitHarmless(q, DistinctListed(q, n, db), LosesNull(n, PassingRecords(q, db)))
  {
    FindDistinctExactly(q, source, n, M.Collection(db, q.from.collection));
    DistinctAreListed(q, n, db);
  }

  /** SELECT DISTINCT a from the table named: SQL's values, exactly if LIMIT cuts off just the NULL that absent fields lose, or nothing. */
  lemma {:induction false} DistinctResultExactly(q: Query, print_: Expr -> string, n: string, db: M.Database)
    requires Translate(q, print_).Success? && Translate(q, print_).value.Found? && q.distinct && GoodName(n)
    requires Star !in q.exprs && |Listed(q.exprs)| == 1 && Listed(q.exprs)[0].e == Col("", n)
    requires forall d :: d in M.Collection(db, q.from.collection) ==> RowFits(q, d, TableEnv(MainAlias(q.from))(d))
    ensures Translate(q, print_).value.find.distinct.Some?
    ensures var f := Translate(q, print_).value.find;
            multiset(DistinctRows(f, M.Collection(db, f.collection))) == multiset(SqlLimited(q, DistinctListed(q, n, db)))
            <==> LimitHarmless(q, DistinctListed(q, n, db), LosesNull(n, PassingRecords(q, db)))
  {
    ReadsItsTable(q, print_);
    OneListed(q, n);
    TableDistinct(q, Source.SourceRef(q.from.collection, MainAlias(q.from)), n, db);
  }

  lemma {:induction false} OneListed(q: Query, n: string)
    requires q.distinct && Star !in q.exprs && |Listed(q.exprs)| == 1 && Listed(q.exprs)[0].e == Col("", n)
    ensures SelectsDistinct(q, "", n)
  {
    PlansListed(q.exprs);
  }

  lemma {:induction false} ColumnValuesOf(n: string, main: string, docs: seq<Document>)
    ensures Seqs.Map(ColumnIn("", n, TableEnv(main)), docs) == Seqs.Map(ColumnOfRow(n, main), Seqs.Map(RowOf(main), docs))
  {
    forall d | d in docs
      ensures ColumnIn("", n, TableEnv(main))(d) == ColumnOfRow(n, main)(RowOf(main)(d))
    {
    }
    Seqs.MapMap(ColumnOfRow(n, main), RowOf(main), ColumnIn("", n, TableEnv(main)), docs);
  }

  // ----- INSERT ... SELECT -----

  /** The columns of the INSERT are those written, whatever the SELECT. */
  lemma {:induction false} InsertColumns(q: Query, columns: seq<string>, order: seq<M.SortKey>, print_: Expr -> string)
    requires Translate(q, print_).Success?
    ensures Inserts.Inserting(q, columns, order, print_).Success?
    ensures Inserts.Inserting(q, columns, order, print_).value.columns == columns
  {
  }

  /** From a Find: SQL's rows of the SELECT from the table it names. */
  lemma {:induction false} FindInsertResult(q: Query, columns: seq<string>, order: seq<M.SortKey>, print_: Expr -> string, db: M.Database)
    requires Translate(q, print_).Success? && Translate(q, print_).value.Found? && TableRead(q, db)
    requires Inserts.FindFits(q, Source.SourceRef(q.from.collection, MainAlias(q.from)), order, M.Collection(db, q.from.collection))
    requires !IsLimitZero(q)
    ensures Inserts.Inserting(q, columns, order, print_).Success?
    ensures Seqs.Map(ShownAs(FoundNames(Listed(q.exprs))), Inserts.InsertDocs(Inserts.Inserting(q, columns, order, print_).value, db))
            == ResultRows(q, db)
  {
    var main, coll := MainAlias(q.from), M.Collection(db, q.from.collection);
    var source := Source.SourceRef(q.from.collection, main);
    ReadsItsTable(q, print_);
    Inserts.InsertSelectIsSql(q, source, order, coll, db);
    NamesUsable(q, db);
    ShownAreFound(q, M.Run(PipelineOf(BuildFind(q, source).value, order), coll, db), Chosen(q, TableEnv(main), coll), main);
    ChosenRows(q, db);
  }

  /** From a pipeline that groups. */
  lemma {:induction false} GroupedInsertResult(q: Query, groupBy: seq<Expr>, columns: seq<string>, order: seq<M.SortKey>, print_: Expr -> string,
                                               db: M.Database)
    requires Translate(q, print_).Success? && Translate(q, print_).value.Aggregated? && !IsLimitZero(q)
    requires QueryTheorem.Groups(q, groupBy) && QueryTheorem.QueryFits(q, PlanItemsOf(q.exprs).items, groupBy, db)
    requires GroupedResults.OrdersByColumnOf(q, MainAlias(q.from))
    ensures Inserts.Inserting(q, columns, order, print_).Success?
    ensures Seqs.Map(ShownAs(ResultNames(q.exprs, MainAlias(q.from))), Inserts.InsertDocs(Inserts.Inserting(q, columns, order, print_).value, db))
            == GroupedResults.GroupedRows(q, groupBy, db)
  {
    Inserts.InsertsStatement(q, columns, order, print_, db);
    GroupedResults.GroupedResult(q, groupBy, print_, db);
  }

  /** From any other pipeline. */
  lemma {:induction false} PlainInsertResult(q: Query, columns: seq<string>, order: seq<M.SortKey>, print_: Expr -> string, f: Render.Final,
                                             db: M.Database)
    requires Translate(q, print_).Success? && Translate(q, print_).value.Aggregated? && !IsLimitZero(q)
    requires Plainly(q) && Render.FinalOf(PlanItemsOf(q.exprs).items, MainAlias(q.from), print_) == Success(f) && PlainFits(q, f, db)
    ensures Inserts.Inserting(q, columns, order, print_).Success?
    ensures Seqs.Map(ShownAs(OutputNames(Listed(q.exprs), MainAlias(q.from), print_)),
                     Inserts.InsertDocs(Inserts.Inserting(q, columns, order, print_).value, db))
            == ResultRows(q, db)
  {
    Inserts.InsertsStatement(q, columns, order, print_, db);
    PlainResult(q, print_, f, db);
  }
}
