/** INSERT ... SELECT as a whole: the pipeline it takes over from its SELECT, and the rows that gives (write.go). */
module Inserts {
  import opened Wrappers
  import opened Bson
  import opened Sql
  import JoinTheorem
  import opened Select
  import opened GroupTheorem
  import opened QueryTheorem
  import opened Ordering
  import opened Render
  import opened RenderTheorem
  import opened InsertSelect
  import opened FindTheorem
  import M = Mongo
  import Source
  import Seqs

  datatype InsertStmt = InsertStmt(source: string, pipeline: seq<M.Stage>, columns: seq<string>)

  /** The SELECT's own pipeline, or one made from its Find; `order` is how the map of its sort keys lists them. */
  function Inserting(q: Query, columns: seq<string>, order: seq<M.SortKey>, print_: Expr -> string): Result<InsertStmt> {
    var st :- Translate(q, print_);
    match st
    case Aggregated(a) => Success(InsertStmt(a.collection, a.pipeline, columns))
    case Found(f) => Success(InsertStmt(f.collection, PipelineOf(f, order), columns))
  }

  method TranslateInsert(q: Query, columns: seq<string>, order: seq<M.SortKey>, print_: Expr -> string) returns (r: Result<InsertStmt>)
    ensures r == Inserting(q, columns, order, print_)
  {
    var selected := Translate(q, print_);
    if selected.Failure? { return Failure(selected.msg); }
    match selected.value {
      case Aggregated(a) =>
        return Success(InsertStmt(a.collection, a.pipeline, columns));
      case Found(f) =>
        var pipeline := ConvertFind(f, order);
        return Success(InsertStmt(f.collection, pipeline, columns));
    }
  }

  /** The documents to insert, before their fields are matched with the columns. */
  function InsertDocs(s: InsertStmt, db: M.Database): seq<Document> {
    M.Run(s.pipeline, M.Collection(db, s.source), db)
  }

  // ----- from an aggregate -----

  lemma {:induction false} EmptyExactly(q: Query, print_: Expr -> string)
    requires BuildAggregate(q, print_).Success?
    ensures BuildAggregate(q, print_).value.empty <==> IsLimitZero(q)
    ensures IsLimitZero(q) ==> BuildAggregate(q, print_).value.pipeline == []
  {
  }

  lemma {:induction false} AggregatedIs(q: Query, print_: Expr -> string)
    requires Translate(q, print_).Success? && Translate(q, print_).value.Aggregated?
    ensures BuildAggregate(q, print_) == Success(Translate(q, print_).value.agg)
  {
  }

  lemma {:induction false} PipelineRun(a: AggregateStmt, db: M.Database)
    requires a.empty ==> a.pipeline == []
    ensures var docs := M.Run(a.pipeline, M.Collection(db, a.collection), db);
            (a.empty ==> docs == M.Collection(db, a.collection))
            && (docs == StatementDocs(a, db) <==> a.empty ==> M.Collection(db, a.collection) == [])
  {
  }

  /** An aggregated SELECT with LIMIT 0 inserts its whole main collection: right exactly if that is empty. Otherwise its own rows. */
  lemma {:induction false} AggregateInsertExactly(q: Query, columns: seq<string>, order: seq<M.SortKey>, print_: Expr -> string, db: M.Database)
    requires Translate(q, print_).Success? && Translate(q, print_).value.Aggregated?
    ensures Inserting(q, columns, order, print_).Success?
    ensures var a, s := Translate(q, print_).value.agg, Inserting(q, columns, order, print_).value;
            (IsLimitZero(q) ==> InsertDocs(s, db) == M.Collection(db, a.collection))
            && (InsertDocs(s, db) == StatementDocs(a, db) <==> IsLimitZero(q) ==> M.Collection(db, a.collection) == [])
  {
    AggregatedIs(q, print_);
    EmptyExactly(q, print_);
    PipelineRun(Translate(q, print_).value.agg, db);
  }

  lemma {:induction false} InsertsStatement(q: Query, columns: seq<string>, order: seq<M.SortKey>, print_: Expr -> string, db: M.Database)
    requires Translate(q, print_).Success? && Translate(q, print_).value.Aggregated? && !IsLimitZero(q)
    ensures Inserting(q, columns, order, print_).Success? && BuildAggregate(q, print_).Success?
    ensures InsertDocs(Inserting(q, columns, order, print_).value, db) == StatementDocs(BuildAggregate(q, print_).value, db)
  {
    AggregateInsertExactly(q, columns, order, print_, db);
  }

  // ----- from a Find -----

  /** ORDER BY at most one selected column, all columns unqualified and held by the documents. */
  ghost predicate FindFits(q: Query, main: Source.SourceRef, order: seq<M.SortKey>, coll: seq<Document>) {
    BuildFind(q, main).Success? && !PlanItemsOf(q.exprs).hasStar && PlanItemsOf(q.exprs).items != []
    && OrdersBySelected(q, ItemPaths(PlanItemsOf(q.exprs).items).value) && multiset(order) == multiset(BuildFind(q, main).value.sort)
    && (forall c :: c in ColumnsOf(q) ==> c.0 == "") && forall d :: d in coll ==> TableFits(q, d, TableEnv(main.alias)(d))
  }

  /** The conversion drops DISTINCT. */
  lemma {:induction false} WithoutDistinct(q: Query, main: Source.SourceRef, order: seq<M.SortKey>)
    requires BuildFind(q, main).Success?
    ensures BuildFind(q.(distinct := false), main) == Success(BuildFind(q, main).value.(distinct := None))
    ensures PipelineOf(BuildFind(q.(distinct := false), main).value, order) == PipelineOf(BuildFind(q, main).value, order)
  {
  }

  /** INSERT ... SELECT of a Find yields SQL's rows of the SELECT, in order, with their duplicates. */
  lemma {:induction false} InsertSelectIsSql(q: Query, main: Source.SourceRef, order: seq<M.SortKey>, coll: seq<Document>, db: M.Database)
    requires FindFits(q, main, order, coll) && !IsLimitZero(q)
    ensures var items, read := PlanItemsOf(q.exprs).items, TableEnv(main.alias);
            Seqs.Map(ShownItems(items), M.Run(PipelineOf(BuildFind(q, main).value, order), coll, db))
            == Seqs.Map(ItemValues(items, read), Chosen(q, read, coll))
  {
    var p := q.(distinct := false);
    PathsAre(PlanItemsOf(q.exprs).items);
    WithoutDistinct(q, main, order);
    SameSelect(q, main, order, coll);
    InsertSelectCorrect(p, main, ItemPaths(PlanItemsOf(q.exprs).items).value, order, coll, db);
    FindIsSql(p, main, coll);
  }

  lemma {:induction false} SameSelect(q: Query, main: Source.SourceRef, order: seq<M.SortKey>, coll: seq<Document>)
    requires FindFits(q, main, order, coll)
    ensures FindFits(q.(distinct := false), main, order, coll)
    ensures Chosen(q.(distinct := false), TableEnv(main.alias), coll) == Chosen(q, TableEnv(main.alias), coll)
  {
    WithoutDistinct(q, main, order);
    assert ColumnsOf(q.(distinct := false)) == ColumnsOf(q);
    forall d | d in coll
      ensures TableFits(q.(distinct := false), d, TableEnv(main.alias)(d))
    {
    }
    SameLimit(q, q.(distinct := false), InSqlOrder(q, TableEnv(main.alias), coll));
  }

  lemma {:induction false} SameLimit(p: Query, q: Query, s: seq<Document>)
    requires p.limit == q.limit
    ensures SqlLimited(p, s) == SqlLimited(q, s)
  {
  }

  /** Of a SELECT DISTINCT, SQL's rows exactly if those selected hold no duplicate as far as LIMIT reaches. */
  lemma {:induction false} InsertDistinctExactly(q: Query, main: Source.SourceRef, order: seq<M.SortKey>, coll: seq<Document>, db: M.Database)
    requires FindFits(q, main, order, coll) && !IsLimitZero(q) && q.distinct
    ensures var items, read := PlanItemsOf(q.exprs).items, TableEnv(main.alias);
            var selected := Seqs.Map(ItemValues(items, read), InSqlOrder(q, read, coll));
            Seqs.Map(ShownItems(items), M.Run(PipelineOf(BuildFind(q, main).value, order), coll, db))
            == SqlLimited(q, Seqs.Distinct(selected))
            <==> DistinctHarmless(q, selected)
  {
    var items, read := PlanItemsOf(q.exprs).items, TableEnv(main.alias);
    InsertSelectIsSql(q, main, order, coll, db);
    LimitedMap(q, ItemValues(items, read), InSqlOrder(q, read, coll));
    LimitedDistinctExactly(q, Seqs.Map(ItemValues(items, read), InSqlOrder(q, read, coll)));
  }

  /** INSERT ... SELECT *: the records chosen, without `_id`. */
  lemma {:induction false} InsertStarIsSql(q: Query, main: Source.SourceRef, order: seq<M.SortKey>, read: Document -> Env, coll: seq<Document>, db: M.Database)
    requires BuildFind(q, main).Success? && PlanItemsOf(q.exprs).hasStar && OrdersBySelected(q, []) && !IsLimitZero(q)
    requires multiset(order) == multiset(BuildFind(q, main).value.sort) && forall d :: d in coll ==> RowFits(q, d, read(d))
    ensures M.Run(PipelineOf(BuildFind(q, main).value, order), coll, db) == Seqs.Map(WithoutId, Chosen(q, read, coll))
  {
    InsertSelectCorrect(q, main, [], order, coll, db);
    FindStarCorrect(q, main, read, coll);
  }
}
